/**
 The smallest stack: two steps that lead nowhere are drawn below each other
 (app/application/graph_layout.py:248-260).
 */
module Loners {
  import opened Graphs
  import opened StepNormalization
  import opened Layout
  import C = Components
  import D = Depths
  import F = ForwardEdges

  function Two(a: Node, b: Node): seq<Entry> {
    [Step(a, Ordinary, [], [], Text(END_MARKER)), Step(b, Ordinary, [], [], Text(END_MARKER))]
  }

  predicate Named(a: Node, b: Node) {
    a != b && "" !in {a, b} && END_MARKER !in {a, b}
  }

  lemma TwoSteps(a: Node, b: Node)
    requires Named(a, b)
    ensures Ids(Two(a, b)) == {a, b} && Normalized(Two(a, b)) == Two(a, b)
    ensures forall x, y :: !IsDeclaredEdge(Two(a, b), x, y)
    ensures NamedFirst(Two(a, b), 0, a) && NamedFirst(Two(a, b), 1, b)
  {
    var steps := Two(a, b);
    assert steps[0] in steps && steps[1] in steps;
  }

  lemma LongWalkHasEdge(edges: set<Edge>, p: seq<Node>)
    ensures Walk(edges, p) && |p| > 1 ==> exists e :: e in edges
  {
    if Walk(edges, p) && |p| > 1 {
      assert (p[0], p[1]) in edges;
    }
  }

  lemma NoWay(links: set<Edge>, x: Node, y: Node)
    requires links == {} && Reaches(links, x, y)
    ensures x == y
  {
    var p :| WalkBetween(links, p, x, y);
    LongWalkHasEdge(links, p);
  }

  lemma AloneGroup(links: set<Edge>, group: seq<Node>)
    requires links == {} && C.IsComponent(links, group)
    ensures group == [group[0]]
  {
    forall i | 0 <= i < |group|
      ensures group[i] == group[0]
    {
      assert group[i] in group && group[0] in group;
      NoWay(links, group[i], group[0]);
    }
    DistinctFits([group[0]], group);
  }

  lemma TwoGroups(a: Node, b: Node, ids: seq<Node>, succ: map<Node, seq<Node>>, pred: map<Node, seq<Node>>, groups: seq<seq<Node>>)
    requires Named(a, b) && IsStepGraph(Two(a, b), ids, succ, pred, groups)
    ensures groups == [[a], [b]] && succ.Keys >= {a, b} && succ[a] == [] && succ[b] == []
  {
    hide Normalized, IsDeclaredEdge, Two, InStepOrder, C.InTurn;
    TwoSteps(a, b);
    assert forall n :: n in ids <==> n in {a, b};
    assert a in ids && b in ids;
    SomeNode(succ[a]);
    SomeNode(succ[b]);
    var links := C.Links(ids, succ, pred);
    assert links == {};
    forall g | 0 <= g < |groups|
      ensures groups[g] == [groups[g][0]] && groups[g][0] in {a, b}
    {
      assert C.IsComponent(links, groups[g]);
      AloneGroup(links, groups[g]);
      assert groups[g][0] in groups[g] && groups[g][0] in Elements(ids);
    }
    InOrderOfSteps(a, b, ids, groups);
  }

  lemma InOrderOfSteps(a: Node, b: Node, ids: seq<Node>, groups: seq<seq<Node>>)
    requires Named(a, b) && Distinct(ids) && InStepOrder(Two(a, b), ids) && C.InTurn(ids, groups)
    requires forall n :: n in ids <==> n in {a, b}
    requires forall g :: 0 <= g < |groups| ==> groups[g] == [groups[g][0]] && groups[g][0] in {a, b}
    requires forall n :: n in Elements(ids) <==> exists g :: 0 <= g < |groups| && n in groups[g]
    ensures groups == [[a], [b]]
  {
    TwoSteps(a, b);
    var i, j := IndexOf(ids, a), IndexOf(ids, b);
    assert ids[i] == a && ids[j] == b;
    assert i < j;
    assert a in Elements(ids) && b in Elements(ids);
    var g :| 0 <= g < |groups| && a in groups[g];
    var h :| 0 <= h < |groups| && b in groups[h];
    assert groups[g] == [a] && groups[h] == [b];
    assert groups[g][0] == a && groups[h][0] == b;
    OncePerGroup(ids, groups);
    OneAfterOther(ids, groups, g, h);
    assert g < h;
    assert forall k :: 0 <= k < |groups| ==> groups[k][0] == a || groups[k][0] == b;
    assert groups[0][0] == a;
    assert groups[1][0] == b;
    AtMostTwo(groups, a, b);
  }

  lemma AtMostTwo(groups: seq<seq<Node>>, a: Node, b: Node)
    requires forall k :: 0 <= k < |groups| ==> groups[k] != [] && (groups[k][0] == a || groups[k][0] == b)
    requires forall g, h :: 0 <= g < h < |groups| ==> groups[g][0] != groups[h][0]
    ensures |groups| <= 2
  {
    var firsts := seq(|groups|, k requires 0 <= k < |groups| => groups[k][0]);
    DistinctFits([a, b], firsts);
  }

  lemma OneAfterOther(ids: seq<Node>, groups: seq<seq<Node>>, g: nat, h: nat)
    requires C.InTurn(ids, groups) && g < |groups| && h < |groups|
    ensures g < h ==> IndexOf(ids, groups[g][0]) < IndexOf(ids, groups[h][0])
    ensures h < g ==> IndexOf(ids, groups[h][0]) < IndexOf(ids, groups[g][0])
  {
    assert groups[g][0] in groups[g] && groups[h][0] in groups[h];
  }

  lemma OncePerGroup(ids: seq<Node>, groups: seq<seq<Node>>)
    requires C.InTurn(ids, groups)
    ensures forall g, h :: 0 <= g < h < |groups| ==> groups[g][0] != groups[h][0]
  {
    forall g, h | 0 <= g < h < |groups|
      ensures groups[g][0] != groups[h][0]
    {
      OneAfterOther(ids, groups, g, h);
    }
  }

  lemma NoDepth(group: seq<Node>, succ: map<Node, seq<Node>>, positions: map<Node, Position>, n: Node)
    requires IsDrawn(group, succ, positions) && group == [n] && n in succ && succ[n] == []
    ensures positions[n].x == ORIGIN_X
  {
    hide D.IsDepth;
    var kept, finish, after :| F.BreaksCycles(group, succ, kept, finish) && DrawnFrom(group, kept, after, positions);
    assert forall e: Edge :: e in kept ==> F.IsMemberEdge(group, succ, e.0, e.1);
    assert kept == {};
    assert AtDepth(kept, n, positions[n]);
    var d :| D.IsDepth(kept, n, d) && positions[n].x == ORIGIN_X + d * X_STEP;
    DepthIsZero(kept, n, d);
  }

  lemma DepthIsZero(kept: set<Edge>, n: Node, d: int)
    requires D.IsDepth(kept, n, d) && kept == {}
    ensures d == 0
  {
    assert Walk(kept, [n]) && [n][|[n]| - 1] == n;
    var p :| Walk(kept, p) && p[|p| - 1] == n && |p| == d + 1;
    LongWalkHasEdge(kept, p);
  }

  /** Every layout of the two is this one. */
  lemma TwoAreStacked(a: Node, b: Node, positions: map<Node, Position>)
    requires Named(a, b) && IsLayout(Two(a, b), positions)
    ensures positions == map[a := Position(40, 40), b := Position(40, 260)]
  {
    hide IsStepGraph, IsDrawn, AllApart, Normalized, IsDeclaredEdge, Two, LeadsBack, Ids;
    TwoSteps(a, b);
    var ids, succ, pred, groups :|
      && IsStepGraph(Two(a, b), ids, succ, pred, groups) && AreDrawn(groups, |groups|, succ, positions)
      && StackedInTurn(groups, |groups|, positions);
    TwoGroups(a, b, ids, succ, pred, groups);
    assert IsDrawn(groups[0], succ, positions) && IsDrawn(groups[1], succ, positions);
    NoDepth(groups[0], succ, positions, a);
    NoDepth(groups[1], succ, positions, b);
    assert StandsAt(groups, 0, positions) && StandsAt(groups, 1, positions);
    var row :| BottomAt(groups, 1, positions, row) && TopAt(groups[1], positions, row + Y_STEP + COMPONENT_GAP);
    assert a in groups[0] && b in groups[1];
    assert positions[a].y == row;
  }
}
