/**
 Merging a computed layout with a stored arrangement: `_free_slot` and
 `apply_layout` of app/application/graph_layout.py:263-310.
 */
module ApplyLayout {
  import opened Graphs
  import opened StepNormalization
  import opened Layout
  import C = Components
  import D = Depths
  import F = ForwardEdges
  import R = Rounding

  // ---- The first clear row ----

  predicate Overlaps(p: Position, q: Position) {
    !Clear(p, q)
  }

  /** The pixel is in the box drawn at p. */
  ghost predicate InBox(p: Position, x: int, y: int) {
    p.x <= x < p.x + 176 && p.y <= y < p.y + 44
  }

  /** Two positions overlap exactly when the boxes drawn there share a pixel. */
  lemma OverlapExactlyWhenShared(p: Position, q: Position)
    ensures Overlaps(p, q) <==> exists x, y :: InBox(p, x, y) && InBox(q, x, y)
  {
    var x, y := if p.x >= q.x then p.x else q.x, if p.y >= q.y then p.y else q.y;
    if Overlaps(p, q) {
      assert InBox(p, x, y) && InBox(q, x, y);
    }
  }

  predicate Blocked(p: Position, taken: seq<Position>) {
    exists q :: q in taken && Overlaps(q, p)
  }

  function Pushed(wanted: Position, pushes: nat): Position {
    Position(wanted.x, wanted.y + pushes * Y_STEP)
  }

  /** `slot` is `wanted` pushed down by whole rows, past blocked rows only, to the first clear one. */
  ghost predicate IsFirstClear(wanted: Position, taken: seq<Position>, slot: Position) {
    exists pushes: nat :: SlotAfter(wanted, taken, slot, pushes)
  }

  ghost predicate SlotAfter(wanted: Position, taken: seq<Position>, slot: Position, pushes: nat) {
    && slot == Pushed(wanted, pushes)
    && !Blocked(slot, taken)
    && forall k: nat :: k < pushes ==> Blocked(Pushed(wanted, k), taken)
  }

  /** A box is shorter than half a row pitch, so it can block at most one candidate row. */
  lemma BlocksOneRow(wanted: Position, q: Position, j: nat, k: nat)
    ensures Overlaps(q, Pushed(wanted, j)) && Overlaps(q, Pushed(wanted, k)) ==> j == k
  {
  }

  lemma {:induction false} DistinctBelow(s: seq<nat>, n: nat)
    requires forall i :: 0 <= i < |s| ==> s[i] < n
    requires forall i, j :: 0 <= i < j < |s| ==> s[i] != s[j]
    ensures |s| <= n
    decreases n
  {
    if s != [] {
      assert s[0] < n;
      if n - 1 in s {
        var k :| 0 <= k < |s| && s[k] == n - 1;
        DistinctBelow(s[..k] + s[k + 1..], n - 1);
      } else {
        forall i | 0 <= i < |s|
          ensures s[i] < n - 1
        {
          assert s[i] in s;
        }
        DistinctBelow(s, n - 1);
      }
    }
  }

  lemma FirstClearIsUnique(wanted: Position, taken: seq<Position>, a: Position, b: Position)
    requires IsFirstClear(wanted, taken, a) && IsFirstClear(wanted, taken, b)
    ensures a == b
  {
    var j: nat :| SlotAfter(wanted, taken, a, j);
    var k: nat :| SlotAfter(wanted, taken, b, k);
    assert j == k;
  }

  /** `_free_slot`: at most one push per occupied box. */
  method FreeSlot(wanted: Position, taken: seq<Position>) returns (slot: Position)
    ensures IsFirstClear(wanted, taken, slot)
    ensures slot.y <= wanted.y + |taken| * Y_STEP
  {
    hide Blocked, Clear;
    slot := wanted;
    ghost var pushes: nat := 0;
    ghost var blockers: seq<nat> := [];
    while Blocked(slot, taken)
      invariant slot == Pushed(wanted, pushes)
      invariant forall k: nat :: k < pushes ==> Blocked(Pushed(wanted, k), taken)
      invariant |blockers| == pushes <= |taken|
      invariant forall k :: 0 <= k < pushes ==>
                  blockers[k] < |taken| && Overlaps(taken[blockers[k]], Pushed(wanted, k))
      decreases |taken| - pushes
    {
      var i := BlockingIndex(slot, taken);
      blockers := blockers + [i];
      BlockersAreFew(wanted, taken, blockers);
      slot := Position(slot.x, slot.y + Y_STEP);
      pushes := pushes + 1;
    }
    assert SlotAfter(wanted, taken, slot, pushes);
  }

  lemma BlockingIndex(p: Position, taken: seq<Position>) returns (i: nat)
    requires Blocked(p, taken)
    ensures i < |taken| && Overlaps(taken[i], p)
  {
    var q :| q in taken && Overlaps(q, p);
    i :| 0 <= i < |taken| && taken[i] == q;
  }

  lemma BlockersAreFew(wanted: Position, taken: seq<Position>, blockers: seq<nat>)
    requires forall k :: 0 <= k < |blockers| ==>
               blockers[k] < |taken| && Overlaps(taken[blockers[k]], Pushed(wanted, k))
    ensures |blockers| <= |taken|
  {
    forall j, k | 0 <= j < k < |blockers|
      ensures blockers[j] != blockers[k]
    {
      BlocksOneRow(wanted, taken[blockers[j]], j, k);
    }
    DistinctBelow(blockers, |taken|);
  }

  // ---- Merging ----

  /** A stored position: two numbers, or something the canvas cannot use. */
  datatype Stored = At(x: real, y: real) | Unusable

  /** The `nodes` entry of the stored document. */
  datatype StoredNodes = Absent | NotADict | Dict(nodes: map<Node, Stored>)

  /** The stored `ui` document: its `nodes` entry and everything else. */
  datatype Ui<T> = Ui(nodes: StoredNodes, rest: T)

  /** The stored position of `n` is kept. */
  predicate Keeps(nodes: StoredNodes, relayout: bool, n: Node) {
    !relayout && nodes.Dict? && n in nodes.nodes && nodes.nodes[n].At?
  }

  function Snapped(nodes: StoredNodes, n: Node): Position
    requires Keeps(nodes, false, n)
  {
    Position(R.Round(nodes.nodes[n].x), R.Round(nodes.nodes[n].y))
  }

  function AsStored(p: Position): Stored {
    At(p.x as real, p.y as real)
  }

  /** `kept` lists the positions kept for the ids, in id order. */
  ghost predicate KeptBoxes(nodes: StoredNodes, relayout: bool, ids: seq<Node>, kept: seq<Position>) {
    && (forall n :: n in ids && Keeps(nodes, relayout, n) ==> Snapped(nodes, n) in kept)
    && (forall p :: p in kept ==> exists n :: n in ids && Keeps(nodes, relayout, n) && Snapped(nodes, n) == p)
  }

  /** What merging does with one step. */
  ghost predicate PlacesStep(nodes: StoredNodes, relayout: bool, computed: map<Node, Position>, kept: seq<Position>,
                             n: Node, p: Position)
    requires n in computed
  {
    if Keeps(nodes, relayout, n) then p == Snapped(nodes, n) else IsFirstClear(computed[n], kept, p)
  }

  /** The stored form of the place merging gives to step `n`. */
  ghost predicate PlacedAs(nodes: StoredNodes, relayout: bool, computed: map<Node, Position>, kept: seq<Position>,
                           n: Node, stored: Stored)
    requires n in computed
  {
    exists p :: stored == AsStored(p) && PlacesStep(nodes, relayout, computed, kept, n, p)
  }

  /** What `apply_layout` returns, given the layout computed from the steps. */
  ghost predicate IsApplied<T>(ui: Ui<T>, steps: seq<Entry>, relayout: bool, computed: map<Node, Position>,
                               ids: seq<Node>, kept: seq<Position>, out: Ui<T>)
    requires computed.Keys == Ids(steps)
  {
    && out.rest == ui.rest
    && (forall n :: n in ids <==> n in Ids(steps))
    && KeptBoxes(ui.nodes, relayout, ids, kept)
    && (if Ids(steps) == {} then out.nodes.Absent?
        else
          && out.nodes.Dict? && out.nodes.nodes.Keys == Ids(steps)
          && forall n :: n in Ids(steps) ==> PlacedAs(ui.nodes, relayout, computed, kept, n, out.nodes.nodes[n]))
  }

  /** `out` is the merge of the stored document with some layout of the steps. */
  ghost predicate Applied<T>(ui: Ui<T>, steps: seq<Entry>, relayout: bool, out: Ui<T>) {
    exists computed, ids, kept ::
      IsLayout(steps, computed) && computed.Keys == Ids(steps) && IsApplied(ui, steps, relayout, computed, ids, kept, out)
  }

  /** The kept positions, collected in id order. */
  method CollectKept(nodes: StoredNodes, relayout: bool, ids: seq<Node>) returns (kept: seq<Position>)
    ensures KeptBoxes(nodes, relayout, ids, kept)
  {
    kept := [];
    for i := 0 to |ids|
      invariant KeptBoxes(nodes, relayout, ids[..i], kept)
    {
      assert ids[..i + 1] == ids[..i] + [ids[i]];
      ghost var before := kept;
      if Keeps(nodes, relayout, ids[i]) {
        kept := kept + [Snapped(nodes, ids[i])];
      }
      assert forall p :: p in before ==> p in kept;
      assert forall n :: n in ids[..i] ==> n in ids[..i + 1];
    }
    assert ids[..|ids|] == ids;
  }

  /** One step of the merge: the kept position, or the first clear row below the computed one. */
  method PlaceStep(stored: StoredNodes, relayout: bool, computed: map<Node, Position>, kept: seq<Position>, n: Node)
    returns (p: Stored)
    requires n in computed
    ensures PlacedAs(stored, relayout, computed, kept, n, p)
  {
    hide IsFirstClear;
    if Keeps(stored, relayout, n) {
      p := AsStored(Snapped(stored, n));
    } else {
      var slot := FreeSlot(computed[n], kept);
      p := AsStored(slot);
    }
  }

  method PlaceSteps(stored: StoredNodes, relayout: bool, computed: map<Node, Position>, kept: seq<Position>, ids: seq<Node>)
    returns (nodes: map<Node, Stored>)
    requires forall n :: n in ids ==> n in computed
    ensures forall n :: n in nodes <==> n in ids
    ensures forall n :: n in nodes ==> PlacedAs(stored, relayout, computed, kept, n, nodes[n])
  {
    hide PlacedAs;
    nodes := map[];
    for i := 0 to |ids|
      invariant forall n :: n in nodes <==> n in ids[..i]
      invariant forall n :: n in nodes ==> n in computed && PlacedAs(stored, relayout, computed, kept, n, nodes[n])
    {
      assert ids[..i + 1] == ids[..i] + [ids[i]];
      var p := PlaceStep(stored, relayout, computed, kept, ids[i]);
      nodes := nodes[ids[i] := p];
    }
    assert ids[..|ids|] == ids;
  }

  /** `apply_layout` */
  method ApplyLayout<T>(ui: Ui<T>, steps: seq<Entry>, relayout: bool)
    returns (out: Ui<T>)
    ensures Applied(ui, steps, relayout, out)
  {
    hide KeptBoxes, PlacedAs, IsLayout, Keeps, Ids;
    var order, _, _ := Graph(steps);
    var layout := LayoutPositions(steps);
    LayoutKeys(steps, layout);
    var boxes := CollectKept(ui.nodes, relayout, order);
    var nodes := PlaceSteps(ui.nodes, relayout, layout, boxes, order);
    assert nodes.Keys == Ids(steps);
    out := ui.(nodes := if nodes != map[] then Dict(nodes) else Absent);
    assert IsApplied(ui, steps, relayout, layout, order, boxes, out);
  }

  lemma LayoutKeys(steps: seq<Entry>, positions: map<Node, Position>)
    requires IsLayout(steps, positions)
    ensures positions.Keys == Ids(steps)
  {
  }

  // ---- What merging promises ----

  /** A step the stored arrangement did not have is drawn clear of every one it had, in its computed column. */
  lemma NewStepsAreClear<T>(ui: Ui<T>, steps: seq<Entry>, relayout: bool, computed: map<Node, Position>,
                            ids: seq<Node>, kept: seq<Position>, out: Ui<T>, n: Node, m: Node, p: Position, q: Position)
    requires computed.Keys == Ids(steps) && IsApplied(ui, steps, relayout, computed, ids, kept, out)
    requires n in Ids(steps) && !Keeps(ui.nodes, relayout, n) && out.nodes.nodes[n] == AsStored(p)
    requires m in Ids(steps) && Keeps(ui.nodes, relayout, m) && out.nodes.nodes[m] == AsStored(q)
    ensures Clear(p, q) && p.x == computed[n].x && p.y >= computed[n].y
  {
    var slot :| AsStored(slot) == out.nodes.nodes[n] && PlacesStep(ui.nodes, relayout, computed, kept, n, slot);
    var k: nat :| SlotAfter(computed[n], kept, p, k);
    var box :| AsStored(box) == out.nodes.nodes[m] && PlacesStep(ui.nodes, relayout, computed, kept, m, box);
    assert q in kept;
    assert !Overlaps(q, p);
    assert k * Y_STEP >= 0;
  }

  /** Applying the layout again, to its own result, changes nothing. */
  lemma Idempotent<T>(ui: Ui<T>, steps: seq<Entry>, relayout: bool, out: Ui<T>, again: Ui<T>)
    requires Applied(ui, steps, relayout, out) && Applied(out, steps, false, again)
    ensures again == out
  {
    hide IsApplied, IsLayout;
    var computed, ids, kept :|
      IsLayout(steps, computed) && computed.Keys == Ids(steps) && IsApplied(ui, steps, relayout, computed, ids, kept, out);
    var computed', ids', kept' :|
      IsLayout(steps, computed') && computed'.Keys == Ids(steps) && IsApplied(out, steps, false, computed', ids', kept', again);
    AppliedTwice(ui, steps, relayout, out, again, computed, ids, kept, computed', ids', kept');
  }

  lemma AppliedTwice<T>(ui: Ui<T>, steps: seq<Entry>, relayout: bool, out: Ui<T>, again: Ui<T>,
                      computed: map<Node, Position>, ids: seq<Node>, kept: seq<Position>,
                      computed': map<Node, Position>, ids': seq<Node>, kept': seq<Position>)
    requires computed.Keys == computed'.Keys == Ids(steps)
    requires IsApplied(ui, steps, relayout, computed, ids, kept, out)
    requires IsApplied(out, steps, false, computed', ids', kept', again)
    ensures again == out
  {
    hide PlacedAs, KeptBoxes, Ids;
    if Ids(steps) != {} {
      forall n | n in Ids(steps)
        ensures again.nodes.nodes[n] == out.nodes.nodes[n]
      {
        KeptTwice(ui.nodes, out.nodes, relayout, computed, kept, computed', kept', n, again.nodes.nodes[n]);
      }
      assert again.nodes.nodes == out.nodes.nodes;
    }
  }

  /** A position once written is a usable one, and rounds to itself. */
  lemma KeptTwice(nodes: StoredNodes, written: StoredNodes, relayout: bool,
                  computed: map<Node, Position>, kept: seq<Position>,
                  computed': map<Node, Position>, kept': seq<Position>, n: Node, stored: Stored)
    requires n in computed && n in computed' && written.Dict? && n in written.nodes
    requires PlacedAs(nodes, relayout, computed, kept, n, written.nodes[n])
    requires PlacedAs(written, false, computed', kept', n, stored)
    ensures stored == written.nodes[n]
  {
    hide IsFirstClear;
    var p :| written.nodes[n] == AsStored(p) && PlacesStep(nodes, relayout, computed, kept, n, p);
  }

  /** With `relayout`, or nothing usable stored, the result is the computed layout itself. */
  lemma FreshLayoutUntouched<T>(ui: Ui<T>, steps: seq<Entry>, relayout: bool, computed: map<Node, Position>,
                                ids: seq<Node>, kept: seq<Position>, out: Ui<T>, n: Node)
    requires computed.Keys == Ids(steps) && IsApplied(ui, steps, relayout, computed, ids, kept, out)
    requires forall m :: m in Ids(steps) ==> !Keeps(ui.nodes, relayout, m)
    requires n in Ids(steps)
    ensures out.nodes.nodes[n] == AsStored(computed[n])
  {
    var p :| out.nodes.nodes[n] == AsStored(p) && PlacesStep(ui.nodes, relayout, computed, kept, n, p);
    assert SlotAfter(computed[n], kept, computed[n], 0);
    FirstClearIsUnique(computed[n], kept, p, computed[n]);
  }

  /** When no kept box lies on the computed position of a new step, the new steps do not overlap each other. */
  lemma UnpushedStepsAreApart(steps: seq<Entry>, computed: map<Node, Position>, kept: seq<Position>,
                              n: Node, m: Node, p: Position, q: Position)
    requires IsLayout(steps, computed) && n in computed && m in computed && n != m
    requires !Blocked(computed[n], kept) && !Blocked(computed[m], kept)
    requires IsFirstClear(computed[n], kept, p) && IsFirstClear(computed[m], kept, q)
    ensures p == computed[n] && q == computed[m] && Apart(p, q)
  {
    assert SlotAfter(computed[n], kept, computed[n], 0);
    assert SlotAfter(computed[m], kept, computed[m], 0);
    FirstClearIsUnique(computed[n], kept, p, computed[n]);
    FirstClearIsUnique(computed[m], kept, q, computed[m]);
  }

  // ---- New steps against each other ----

  /** Every computed position is in one of the columns. */
  lemma ColumnOf(steps: seq<Entry>, computed: map<Node, Position>, n: Node) returns (d: int)
    requires IsLayout(steps, computed) && n in computed
    ensures computed[n].x == ORIGIN_X + d * X_STEP
  {
    hide C.IsGraph, C.Links, C.IsComponent, D.IsDepth, F.BreaksCycles, AllApart;
    var ids, succ, pred, groups :|
      && IsStepGraph(steps, ids, succ, pred, groups) && AreDrawn(groups, |groups|, succ, computed)
      && StackedInTurn(groups, |groups|, computed);
    assert n in Elements(ids);
    var k :| 0 <= k < |groups| && n in groups[k];
    assert IsDrawn(groups[k], succ, computed);
    var kept, finish, after :| F.BreaksCycles(groups[k], succ, kept, finish) && DrawnFrom(groups[k], kept, after, computed);
    assert AtDepth(kept, n, computed[n]);
    d :| D.IsDepth(kept, n, d) && computed[n].x == ORIGIN_X + d * X_STEP;
  }

  /**
   Two new steps pushed down by `a` and `b` rows overlap exactly when they share a
   column and their rows end up less than a box apart.
   */
  lemma NewStepsOverlapExactlyWhen(steps: seq<Entry>, computed: map<Node, Position>, kept: seq<Position>,
                                   n: Node, m: Node, p: Position, q: Position, a: nat, b: nat)
    requires IsLayout(steps, computed) && n in computed && m in computed && n != m
    requires SlotAfter(computed[n], kept, p, a) && SlotAfter(computed[m], kept, q, b)
    ensures var between := computed[m].y - computed[n].y + Y_STEP * (b - a);
            Overlaps(p, q) <==> computed[n].x == computed[m].x && -NODE_H < between < NODE_H
  {
    hide IsLayout, Blocked;
    var d := ColumnOf(steps, computed, n);
    var e := ColumnOf(steps, computed, m);
    assert computed[n].x - computed[m].x == (d - e) * X_STEP;
  }

  /**
   Of two new steps of one column, `k` rows apart, the upper one is drawn on top of
   the lower one exactly when kept boxes block every candidate row it has above the
   lower one's computed row; otherwise they do not overlap.
   */
  lemma NewStepsCollideExactlyWhen(upper: Position, lower: Position, k: nat, kept: seq<Position>, p: Position, q: Position)
    requires lower == Pushed(upper, k)
    requires IsFirstClear(upper, kept, p) && IsFirstClear(lower, kept, q)
    ensures Overlaps(p, q) <==> forall i: nat :: i < k ==> Blocked(Pushed(upper, i), kept)
    ensures Overlaps(p, q) <==> p == q
  {
    hide Blocked;
    var a: nat :| SlotAfter(upper, kept, p, a);
    var b: nat :| SlotAfter(lower, kept, q, b);
    assert q == Pushed(upper, k + b);
    if forall i: nat :: i < k ==> Blocked(Pushed(upper, i), kept) {
      forall i: nat | i < k + b
        ensures Blocked(Pushed(upper, i), kept)
      {
        if i >= k {
          assert Pushed(lower, i - k) == Pushed(upper, i);
        }
      }
      assert SlotAfter(upper, kept, q, k + b);
      FirstClearIsUnique(upper, kept, p, q);
    }
    assert Overlaps(p, q) ==> a == k + b;
  }

  /**
   In every layout: a document whose only stored position is another step's, on top
   of a new step with one right below, draws these two at the same place.
   */
  lemma StoredOverAStep<T>(ui: Ui<T>, steps: seq<Entry>, computed: map<Node, Position>, ids: seq<Node>,
                           kept: seq<Position>, out: Ui<T>, r: Node, n: Node, m: Node)
    requires computed.Keys == Ids(steps) && IsApplied(ui, steps, false, computed, ids, kept, out)
    requires r in computed && n in computed && m in computed && n != r && m != r
    requires computed[m] == Pushed(computed[n], 1)
    requires ui.nodes == Dict(map[r := AsStored(computed[n])])
    ensures out.nodes.nodes[n] == out.nodes.nodes[m] == AsStored(computed[m])
  {
    hide IsFirstClear, Blocked, Clear;
    assert Snapped(ui.nodes, r) == computed[n];
    forall box | box in kept
      ensures box == computed[n]
    {
    }
    OneBlocks(computed[n], kept);
    var p :| AsStored(p) == out.nodes.nodes[n] && PlacesStep(ui.nodes, false, computed, kept, n, p);
    var q :| AsStored(q) == out.nodes.nodes[m] && PlacesStep(ui.nodes, false, computed, kept, m, q);
    NewStepsCollideExactlyWhen(computed[n], computed[m], 1, kept, p, q);
    FirstClearIsUnique(computed[m], kept, q, computed[m]);
  }

  lemma OneBlocks(wanted: Position, kept: seq<Position>)
    requires wanted in kept && forall box :: box in kept ==> box == wanted
    ensures forall i: nat :: i < 1 ==> Blocked(Pushed(wanted, i), kept)
    ensures IsFirstClear(Pushed(wanted, 1), kept, Pushed(wanted, 1))
  {
    assert Pushed(wanted, 0) == wanted;
    assert Overlaps(wanted, wanted);
    assert SlotAfter(Pushed(wanted, 1), kept, Pushed(wanted, 1), 0);
  }
}
