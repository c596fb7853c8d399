/**
 Workflows in which merging with a stored arrangement draws two steps on top of each
 other: a parallel step over two branches, stored where the layout wants the upper
 branch (app/application/graph_layout.py:273-310).
 */
module Collision {
  import opened Graphs
  import opened StepNormalization
  import opened Layout
  import opened ApplyLayout
  import C = Components
  import D = Depths
  import F = ForwardEdges
  import R = Rounding

  /** Three usable step ids. */
  predicate Named(p: Node, a: Node, b: Node) {
    p != a && p != b && a != b && "" !in {p, a, b} && END_MARKER !in {p, a, b}
  }

  function FanOut(p: Node, a: Node, b: Node): seq<Entry> {
    [Step(p, Parallel, [Text(a), Text(b)], [], Missing),
     Step(a, Ordinary, [], [], Text(END_MARKER)),
     Step(b, Ordinary, [], [], Text(END_MARKER))]
  }

  /** The branches in the second column a row apart, the parallel step centred on them. */
  function Places(p: Node, a: Node, b: Node): map<Node, Position> {
    map[p := Position(40, 95), a := Position(320, 40), b := Position(320, 150)]
  }

  function Successors(p: Node, a: Node, b: Node): map<Node, seq<Node>> {
    map[p := [a, b], a := [], b := []]
  }

  function Predecessors(p: Node, a: Node, b: Node): map<Node, seq<Node>> {
    map[p := [], a := [p], b := [p]]
  }

  lemma FanOutSteps(p: Node, a: Node, b: Node)
    requires Named(p, a, b)
    ensures Ids(FanOut(p, a, b)) == {p, a, b} && Normalized(FanOut(p, a, b)) == FanOut(p, a, b)
    ensures forall x, y :: IsDeclaredEdge(FanOut(p, a, b), x, y) <==> (x, y) in {(p, a), (p, b)}
  {
    var steps := FanOut(p, a, b);
    assert steps[0] in steps && steps[1] in steps && steps[2] in steps;
    assert StatesEdge(steps[0], p, a) && StatesEdge(steps[0], p, b);
    forall x, y | IsDeclaredEdge(steps, x, y)
      ensures (x, y) in {(p, a), (p, b)}
    {
      var i :| 0 <= i < |steps| && StatesEdge(steps[i], x, y);
      assert i == 0 || i == 1 || i == 2;
    }
  }

  lemma FanOutConnected(links: set<Edge>, p: Node, a: Node, b: Node)
    requires (p, a) in links && (a, p) in links && (p, b) in links && (b, p) in links
    ensures forall x, y :: x in [p, a, b] && y in [p, a, b] ==> Reaches(links, x, y)
  {
    forall x, y | x in [p, a, b] && y in [p, a, b]
      ensures Reaches(links, x, y)
    {
      assert WalkBetween(links, if x == p then [x] else [x, p], x, p);
      assert WalkBetween(links, if y == p then [y] else [p, y], p, y);
      ReachesTransitive(links, x, p, y);
    }
  }

  lemma FanOutComponent(p: Node, a: Node, b: Node)
    requires p != a && p != b && a != b
    ensures C.IsGraph([p, a, b], Successors(p, a, b), Predecessors(p, a, b))
    ensures C.Partition(C.Links([p, a, b], Successors(p, a, b), Predecessors(p, a, b)), {p, a, b}, [[p, a, b]])
  {
    hide Reaches, Walk, WalkBetween;
    var ids, succ, pred := [p, a, b], Successors(p, a, b), Predecessors(p, a, b);
    var links := C.Links(ids, succ, pred);
    FanOutConnected(links, p, a, b);
    assert C.IsComponent(links, ids);
    assert [ids][0] == ids;
  }

  lemma FanOutGraph(p: Node, a: Node, b: Node)
    requires Named(p, a, b)
    ensures IsStepGraph(FanOut(p, a, b), [p, a, b], Successors(p, a, b), Predecessors(p, a, b), [[p, a, b]])
  {
    hide C.IsGraph, C.Partition, C.Links, IsDeclaredEdge, Normalized;
    FanOutSteps(p, a, b);
    FanOutComponent(p, a, b);
    FanOutOrder(p, a, b);
    assert Elements([p, a, b]) == {p, a, b};
  }

  lemma FanOutOrder(p: Node, a: Node, b: Node)
    requires Named(p, a, b)
    ensures InStepOrder(FanOut(p, a, b), [p, a, b]) && C.InTurn([p, a, b], [[p, a, b]])
  {
    assert [p, a, b][0] == p && [p, a, b][1] == a && [p, a, b][2] == b;
  }

  lemma FanOutDepths(p: Node, a: Node, b: Node)
    requires Named(p, a, b)
    ensures var kept := {(p, a), (p, b)};
            D.IsDepth(kept, p, 0) && D.IsDepth(kept, a, 1) && D.IsDepth(kept, b, 1)
  {
    var kept := {(p, a), (p, b)};
    var depth: map<Node, int> := map[p := 0, a := 1, b := 1];
    assert Walk(kept, [p]) && Walk(kept, [p, a]) && Walk(kept, [p, b]);
    assert [p, a][|[p, a]| - 1] == a && [p, b][|[p, b]| - 1] == b;
    forall q | Walk(kept, q) && q[|q| - 1] in depth
      ensures |q| - 1 <= depth[q[|q| - 1]]
    {
      D.LayeredBoundsWalks(kept, depth, q);
    }
  }

  lemma FanOutKeepsAll(p: Node, a: Node, b: Node)
    requires Named(p, a, b)
    ensures F.BreaksCycles([p, a, b], Successors(p, a, b), {(p, a), (p, b)}, [a, b, p])
  {
    var order: seq<Node> := [a, b, p];
    assert order[0] == a && order[1] == b && order[2] == p;
  }

  /** Nothing comes after the branches, and two steps after the parallel one. */
  lemma FanOutDoesNotMeet(p: Node, a: Node, b: Node)
    requires Named(p, a, b)
    ensures forall branches, join :: !Meet([p, a, b], Successors(p, a, b), Places(p, a, b), branches, join)
  {
  }

  lemma FanOutIsDrawn(p: Node, a: Node, b: Node)
    requires Named(p, a, b)
    ensures IsDrawn([p, a, b], Successors(p, a, b), Places(p, a, b))
  {
    hide F.BreaksCycles, D.IsDepth, Meet;
    FanOutDepths(p, a, b);
    FanOutKeepsAll(p, a, b);
    FanOutDoesNotMeet(p, a, b);
    var kept, group, placed, after := {(p, a), (p, b)}, [p, a, b], Places(p, a, b), Successors(p, a, b);
    assert CentredOn(p, after[p], placed) by {
      assert [a, b][..1] == [a] && [a][..0] == [];
      assert YSum([a], placed) == 40;
    }
    assert placed[b].x == placed[a].x;
    assert AtDepth(kept, p, placed[p]) && AtDepth(kept, a, placed[a]) && AtDepth(kept, b, placed[b]);
    assert DrawnFrom(group, kept, after, placed);
  }

  lemma FanOutStacked(p: Node, a: Node, b: Node)
    requires Named(p, a, b)
    ensures StackedInTurn([[p, a, b]], 1, Places(p, a, b))
  {
    assert a in [p, a, b] && Places(p, a, b)[a].y == ORIGIN_Y;
    assert TopAt([p, a, b], Places(p, a, b), ORIGIN_Y);
  }

  lemma FanOutComponentsDrawn(p: Node, a: Node, b: Node)
    requires Named(p, a, b)
    ensures ComponentsDrawn(FanOut(p, a, b), Places(p, a, b))
  {
    hide IsStepGraph, IsDrawn, IsDeclaredEdge, Normalized, FanOut, Places, Successors, Predecessors;
    FanOutGraph(p, a, b);
    FanOutIsDrawn(p, a, b);
    assert AreDrawn([[p, a, b]], 1, Successors(p, a, b), Places(p, a, b));
    FanOutStacked(p, a, b);
  }

  lemma FanOutIsLayout(p: Node, a: Node, b: Node)
    requires Named(p, a, b)
    ensures IsLayout(FanOut(p, a, b), Places(p, a, b))
  {
    hide ComponentsDrawn, IsDeclaredEdge, Normalized, FanOut, LeadsBack, Ids;
    FanOutSteps(p, a, b);
    FanOutComponentsDrawn(p, a, b);
  }

  // ---- Every layout of it ----

  /** The three steps are one component. */
  lemma FanOutTogether(p: Node, a: Node, b: Node, ids: seq<Node>, succ: map<Node, seq<Node>>, pred: map<Node, seq<Node>>,
                       groups: seq<seq<Node>>) returns (k: nat)
    requires Named(p, a, b) && IsStepGraph(FanOut(p, a, b), ids, succ, pred, groups)
    ensures k < |groups| && forall n :: n in groups[k] <==> n in {p, a, b}
    ensures forall x, y :: x in groups[k] ==> x in succ && (y in succ[x] <==> (x, y) in {(p, a), (p, b)})
  {
    hide Normalized, IsDeclaredEdge, FanOut;
    FanOutSteps(p, a, b);
    var links := C.Links(ids, succ, pred);
    assert forall n :: n in Elements(ids) <==> n in {p, a, b};
    assert p in Elements(ids);
    k :| 0 <= k < |groups| && p in groups[k];
    assert (p, a) in links && (p, b) in links;
    assert C.IsComponent(links, groups[k]);
    assert a in Elements(groups[k]) && b in Elements(groups[k]);
    forall n | n in groups[k]
      ensures n in {p, a, b}
    {
      assert n in Elements(ids);
    }
  }

  lemma WalkLeaves(edges: set<Edge>, walk: seq<Node>, n: Node, m: Node)
    requires WalkBetween(edges, walk, n, m) && n != m
    ensures exists x :: (n, x) in edges
  {
    assert (walk[0], walk[1]) in edges;
  }

  lemma FanOutKept(p: Node, a: Node, b: Node, group: seq<Node>, succ: map<Node, seq<Node>>, kept: set<Edge>, finish: seq<Node>)
    requires Named(p, a, b) && forall n :: n in group <==> n in {p, a, b}
    requires forall x, y :: x in group ==> x in succ && (y in succ[x] <==> (x, y) in {(p, a), (p, b)})
    requires F.BreaksCycles(group, succ, kept, finish)
    ensures kept == {(p, a), (p, b)}
  {
    forall e | e in kept
      ensures e in {(p, a), (p, b)}
    {
      assert (e.0, e.1) in kept;
      assert F.IsMemberEdge(group, succ, e.0, e.1);
    }
    forall n | n in {a, b}
      ensures (p, n) in kept
    {
      assert F.IsMemberEdge(group, succ, p, n) && F.Settled(group, succ, kept, p, n);
      if walk :| WalkBetween(kept, walk, n, p) {
        WalkLeaves(kept, walk, n, p);
      }
    }
  }

  lemma DepthIsOne(edges: set<Edge>, n: Node, d: int, e: int)
    requires D.IsDepth(edges, n, d) && D.IsDepth(edges, n, e)
    ensures d == e
  {
  }

  /** In every layout of the fan-out the parallel step stands left of its branches, in their middle to within a pixel. */
  lemma ParallelIsCentred(p: Node, a: Node, b: Node, positions: map<Node, Position>)
    requires Named(p, a, b) && IsLayout(FanOut(p, a, b), positions)
    ensures {p, a, b} <= positions.Keys
    ensures positions[p].x == ORIGIN_X && positions[a].x == positions[b].x == ORIGIN_X + X_STEP
    ensures -2 <= 2 * positions[p].y - (positions[a].y + positions[b].y) <= 2
  {
    hide IsStepGraph, F.BreaksCycles, D.IsDepth, FanOut, AllApart, Normalized, IsDeclaredEdge, Ids, LeadsBack;
    FanOutSteps(p, a, b);
    var ids, succ, pred, groups :|
      && IsStepGraph(FanOut(p, a, b), ids, succ, pred, groups) && AreDrawn(groups, |groups|, succ, positions)
      && StackedInTurn(groups, |groups|, positions);
    var k := FanOutTogether(p, a, b, ids, succ, pred, groups);
    var group := groups[k];
    assert IsDrawn(group, succ, positions);
    var kept, finish, after :| F.BreaksCycles(group, succ, kept, finish) && DrawnFrom(group, kept, after, positions);
    FanOutKept(p, a, b, group, succ, kept, finish);
    FanOutDrawn(p, a, b, group, kept, after, positions);
  }

  lemma FanOutDrawn(p: Node, a: Node, b: Node, group: seq<Node>, kept: set<Edge>, after: map<Node, seq<Node>>,
                    positions: map<Node, Position>)
    requires Named(p, a, b) && kept == {(p, a), (p, b)} && forall n :: n in group <==> n in {p, a, b}
    requires (forall n :: n in group ==> n in positions) && DrawnFrom(group, kept, after, positions)
    ensures positions[p].x == ORIGIN_X && positions[a].x == positions[b].x == ORIGIN_X + X_STEP
    ensures -2 <= 2 * positions[p].y - (positions[a].y + positions[b].y) <= 2
  {
    hide D.IsDepth, Meet;
    FanOutDepths(p, a, b);
    forall n, e: int | n in group && D.IsDepth(kept, n, e)
      ensures positions[n].x == ORIGIN_X + e * X_STEP
    {
      assert AtDepth(kept, n, positions[n]);
      var d :| D.IsDepth(kept, n, d) && positions[n].x == ORIGIN_X + d * X_STEP;
      DepthIsOne(kept, n, d, e);
    }
    assert AloneInColumn(group, p, positions);
    TwoNodes(after[p], a, b, positions);
    assert CentredOn(p, after[p], positions);
  }

  lemma TwoNodes(nodes: seq<Node>, a: Node, b: Node, positions: map<Node, Position>)
    requires a != b && a in positions && b in positions
    requires Distinct(nodes) && forall n :: n in nodes <==> n == a || n == b
    ensures |nodes| == 2 && YSum(nodes, positions) == positions[a].y + positions[b].y
  {
    assert a in nodes && b in nodes;
    var i :| 0 <= i < |nodes| && nodes[i] == a;
    var j :| 0 <= j < |nodes| && nodes[j] == b;
    DistinctFits([a, b], nodes);
    assert nodes == [nodes[0], nodes[1]];
    assert nodes[..1] == [nodes[0]] && nodes[..1][..0] == [];
    assert YSum(nodes[..1], positions) == positions[nodes[0]].y;
  }

  /**
   The layout wants the branches a row apart.  With the parallel step stored on the
   upper one's row, which is kept, both come out at the same place.
   */
  lemma BranchesCollide(p: Node, a: Node, b: Node)
    requires Named(p, a, b)
    ensures var stored := Dict(map[p := At(320.0, 40.0)]);
            var merged := Dict(map[p := At(320.0, 40.0), a := At(320.0, 150.0), b := At(320.0, 150.0)]);
            Applied(Ui(stored, ()), FanOut(p, a, b), false, Ui(merged, ()))
  {
    hide IsLayout, Normalized, IsDeclaredEdge, Ids, R.Round;
    var stored := Dict(map[p := At(320.0, 40.0)]);
    var merged := Dict(map[p := At(320.0, 40.0), a := At(320.0, 150.0), b := At(320.0, 150.0)]);
    var computed := Places(p, a, b);
    var kept := [Position(320, 40)];
    FanOutIsLayout(p, a, b);
    FanOutSteps(p, a, b);
    assert Snapped(stored, p) == kept[0] by {
      R.RoundIsNearestEven(320.0, 320);
      R.RoundIsNearestEven(40.0, 40);
    }
    BothAtTheSameRow(kept);
    assert PlacedAs(stored, false, computed, kept, p, AsStored(kept[0]));
    assert PlacedAs(stored, false, computed, kept, a, AsStored(Position(320, 150)));
    assert PlacedAs(stored, false, computed, kept, b, AsStored(Position(320, 150)));
    assert IsApplied(Ui(stored, ()), FanOut(p, a, b), false, computed, [p, a, b], kept, Ui(merged, ()));
  }

  lemma BothAtTheSameRow(kept: seq<Position>)
    requires kept == [Position(320, 40)]
    ensures IsFirstClear(Position(320, 40), kept, Position(320, 150))
    ensures IsFirstClear(Position(320, 150), kept, Position(320, 150))
  {
    var upper, lower := Position(320, 40), Position(320, 150);
    assert Overlaps(kept[0], upper);
    assert Pushed(upper, 0) == upper;
    assert SlotAfter(upper, kept, lower, 1);
    assert SlotAfter(lower, kept, lower, 0);
  }
}
