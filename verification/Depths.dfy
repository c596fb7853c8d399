/**
 Layering: `_depths` of app/application/graph_layout.py:140-159, Kahn's
 algorithm computing longest-path depth over cycle-free edges.
 */
module Depths {
  import opened Graphs

  /** `fsucc` lists every edge once, under its source. */
  ghost predicate ListsEdges(group: seq<Node>, edges: set<Edge>, fsucc: map<Node, seq<Node>>) {
    && (forall n :: n in group <==> n in fsucc)
    && (forall a, b :: (a, b) in edges <==> a in fsucc && b in fsucc[a])
    && (forall a :: a in fsucc ==> Distinct(fsucc[a]))
  }

  ghost function Into(edges: set<Edge>, n: Node): set<Edge> {
    set e | e in edges && e.1 == n
  }

  /** `indeg` counts the edges into each node. */
  ghost predicate CountsInto(group: seq<Node>, edges: set<Edge>, indeg: map<Node, int>) {
    && (forall n :: n in group <==> n in indeg)
    && (forall n :: n in indeg ==> indeg[n] == |Into(edges, n)|)
  }

  ghost predicate Among(group: seq<Node>, edges: set<Edge>) {
    forall a, b :: (a, b) in edges ==> a in group && b in group
  }

  lemma IntoRemove(edges: set<Edge>, e: Edge, n: Node)
    requires e in edges
    ensures |Into(edges, n)| == |Into(edges - {e}, n)| + if e.1 == n then 1 else 0
  {
    if e.1 == n {
      assert Into(edges, n) == Into(edges - {e}, n) + {e};
    } else {
      assert Into(edges, n) == Into(edges - {e}, n);
    }
  }

  /** One more edge, one more on its target's count. */
  lemma CountsAdd(group: seq<Node>, edges: set<Edge>, indeg: map<Node, int>, e: Edge)
    requires CountsInto(group, edges, indeg) && e !in edges && e.1 in group
    ensures CountsInto(group, edges + {e}, indeg[e.1 := indeg[e.1] + 1])
  {
    var more := edges + {e};
    assert more - {e} == edges;
    forall n
      ensures |Into(more, n)| == |Into(edges, n)| + if e.1 == n then 1 else 0
    {
      IntoRemove(more, e, n);
    }
  }

  lemma CountsRemove(group: seq<Node>, edges: set<Edge>, indeg: map<Node, int>, e: Edge)
    requires CountsInto(group, edges, indeg) && e in edges && e.1 in group
    ensures CountsInto(group, edges - {e}, indeg[e.1 := indeg[e.1] - 1])
  {
    forall n
      ensures |Into(edges, n)| == |Into(edges - {e}, n)| + if e.1 == n then 1 else 0
    {
      IntoRemove(edges, e, n);
    }
  }

  lemma ListsAdd(group: seq<Node>, edges: set<Edge>, fsucc: map<Node, seq<Node>>, e: Edge)
    requires ListsEdges(group, edges, fsucc) && e !in edges && e.0 in group
    ensures ListsEdges(group, edges + {e}, fsucc[e.0 := fsucc[e.0] + [e.1]])
  {
    assert e == (e.0, e.1);
  }

  /**
   Successor lists and in-degrees, one edge at a time.  The source goes through
   the edges in sorted order; any order gives the same depths.
   */
  method SuccessorsAndDegrees(group: seq<Node>, forward: set<Edge>)
    returns (fsucc: map<Node, seq<Node>>, indeg: map<Node, int>)
    requires Among(group, forward)
    ensures ListsEdges(group, forward, fsucc) && CountsInto(group, forward, indeg)
  {
    hide CountsInto, ListsEdges;
    fsucc := map n | n in group :: [];
    indeg := map n | n in group :: 0;
    NoEdgesYet(group, fsucc, indeg);
    var rest := forward;
    assert forward - rest == {};
    while rest != {}
      invariant rest <= forward
      invariant forall n :: n in group ==> n in fsucc && n in indeg
      invariant ListsEdges(group, forward - rest, fsucc)
      invariant CountsInto(group, forward - rest, indeg)
      decreases |rest|
    {
      var e :| e in rest;
      ghost var seen := forward - rest;
      assert (e.0, e.1) in forward;
      CountsAdd(group, seen, indeg, e);
      ListsAdd(group, seen, fsucc, e);
      rest := rest - {e};
      assert forward - rest == seen + {e};
      fsucc := fsucc[e.0 := fsucc[e.0] + [e.1]];
      indeg := indeg[e.1 := indeg[e.1] + 1];
    }
    assert forward - rest == forward;
  }

  lemma NoEdgesYet(group: seq<Node>, fsucc: map<Node, seq<Node>>, indeg: map<Node, int>)
    requires fsucc == map n | n in group :: []
    requires indeg == map n | n in group :: 0
    ensures ListsEdges(group, {}, fsucc) && CountsInto(group, {}, indeg)
  {
    assert forall n :: Into({}, n) == {};
  }

  // ---- Longest-path depth ----

  /** A walk of `d` edges ends at `n`. */
  ghost predicate HasWalkOf(edges: set<Edge>, n: Node, d: int) {
    exists p :: Walk(edges, p) && p[|p| - 1] == n && |p| == d + 1
  }

  /** `d` is the number of edges on the longest walk ending at `n`. */
  ghost predicate IsDepth(edges: set<Edge>, n: Node, d: int) {
    && HasWalkOf(edges, n, d)
    && forall p :: Walk(edges, p) && p[|p| - 1] == n ==> |p| - 1 <= d
  }

  /** Depths grow by at least one along every edge. */
  ghost predicate Layered(edges: set<Edge>, depth: map<Node, int>) {
    forall a, b :: (a, b) in edges ==> a in depth && b in depth && depth[a] < depth[b]
  }

  lemma {:induction false} LayeredBoundsWalks(edges: set<Edge>, depth: map<Node, int>, p: seq<Node>)
    requires Layered(edges, depth) && Walk(edges, p) && p[|p| - 1] in depth
    requires forall n :: n in depth ==> depth[n] >= 0
    ensures |p| - 1 <= depth[p[|p| - 1]]
    decreases |p|
  {
    if |p| > 1 {
      var k := |p| - 1;
      assert (p[k - 1], p[k]) in edges;
      WalkFront(edges, p, k);
      LayeredBoundsWalks(edges, depth, p[..k]);
    }
  }

  lemma WalkOfGrows(edges: set<Edge>, a: Node, b: Node, d: int)
    requires HasWalkOf(edges, a, d) && (a, b) in edges
    ensures HasWalkOf(edges, b, d + 1)
  {
    var p :| Walk(edges, p) && p[|p| - 1] == a && |p| == d + 1;
    WalkExtends(edges, p, b);
    assert Walk(edges, p + [b]);
  }

  lemma WalkOfZero(edges: set<Edge>, n: Node)
    ensures HasWalkOf(edges, n, 0)
  {
    assert Walk(edges, [n]);
  }

  // ---- Kahn's algorithm ----

  /** Every depth so far is the length of some walk. */
  ghost predicate Witnessed(group: seq<Node>, edges: set<Edge>, depth: map<Node, int>) {
    && (forall n :: n in group <==> n in depth)
    && (forall n :: n in depth ==> depth[n] >= 0 && HasWalkOf(edges, n, depth[n]))
  }

  /** Consumed edges start at popped nodes and climb. */
  ghost predicate ConsumedClimb(consumed: set<Edge>, depth: map<Node, int>, order: seq<Node>) {
    forall a, b :: (a, b) in consumed ==> a in order && a in depth && b in depth && depth[a] < depth[b]
  }

  /** The popped and the queued nodes are those no edge is left into. */
  ghost predicate FreeListed(group: seq<Node>, indeg: map<Node, int>, listed: seq<Node>) {
    && (forall n :: n in group <==> n in indeg)
    && Distinct(listed)
    && forall n :: n in listed <==> n in group && indeg[n] == 0
  }

  /** The state between two consumed edges; `left` are the edges not consumed yet. */
  ghost predicate KahnState(group: seq<Node>, edges: set<Edge>, left: set<Edge>,
                            indeg: map<Node, int>, depth: map<Node, int>,
                            queue: seq<Node>, order: seq<Node>)
  {
    && left <= edges
    && CountsInto(group, left, indeg)
    && Witnessed(group, edges, depth)
    && ConsumedClimb(edges - left, depth, order)
    && FreeListed(group, indeg, order + queue)
  }

  function Deeper(depth: map<Node, int>, node: Node, dst: Node): map<Node, int>
    requires node in depth && dst in depth
  {
    depth[dst := if depth[dst] > depth[node] + 1 then depth[dst] else depth[node] + 1]
  }

  /** The target of an unconsumed edge has not been popped, and is in nobody's consumed source. */
  lemma TargetIsBusy(group: seq<Node>, left: set<Edge>, indeg: map<Node, int>, listed: seq<Node>, node: Node, dst: Node)
    requires CountsInto(group, left, indeg) && FreeListed(group, indeg, listed)
    requires (node, dst) in left && dst in group
    ensures dst !in listed && dst in indeg && indeg[dst] > 0
  {
    assert (node, dst) in Into(left, dst);
  }

  lemma ClimbKeeps(edges: set<Edge>, left: set<Edge>, depth: map<Node, int>, order: seq<Node>, node: Node, dst: Node)
    requires ConsumedClimb(edges - left, depth, order)
    requires node in depth && dst in depth && node in order && dst !in order
    ensures ConsumedClimb(edges - (left - {(node, dst)}), Deeper(depth, node, dst), order)
  {
    var depth' := Deeper(depth, node, dst);
    forall a, b | (a, b) in edges - (left - {(node, dst)})
      ensures a in order && a in depth' && b in depth' && depth'[a] < depth'[b]
    {
      if (a, b) != (node, dst) {
        assert (a, b) in edges - left;
      }
    }
  }

  lemma FreeKeeps(group: seq<Node>, indeg: map<Node, int>, listed: seq<Node>, dst: Node)
    requires FreeListed(group, indeg, listed) && dst in group && dst !in listed && indeg[dst] > 0
    ensures var indeg' := indeg[dst := indeg[dst] - 1];
            FreeListed(group, indeg', if indeg'[dst] == 0 then listed + [dst] else listed)
  {
  }

  /** Consuming the edge `(node, dst)`. */
  lemma ConsumeKeeps(group: seq<Node>, edges: set<Edge>, left: set<Edge>,
                     indeg: map<Node, int>, depth: map<Node, int>,
                     queue: seq<Node>, order: seq<Node>, node: Node, dst: Node)
    requires KahnState(group, edges, left, indeg, depth, queue, order)
    requires Among(group, edges) && (node, dst) in left && node in order
    ensures node in depth && dst in depth && dst in indeg
    ensures var indeg' := indeg[dst := indeg[dst] - 1];
            var queue' := if indeg'[dst] == 0 then queue + [dst] else queue;
            KahnState(group, edges, left - {(node, dst)}, indeg', Deeper(depth, node, dst), queue', order)
  {
    hide CountsInto, FreeListed, ConsumedClimb, HasWalkOf;
    TargetIsBusy(group, left, indeg, order + queue, node, dst);
    CountsRemove(group, left, indeg, (node, dst));
    WalkOfGrows(edges, node, dst, depth[node]);
    ClimbKeeps(edges, left, depth, order, node, dst);
    FreeKeeps(group, indeg, order + queue, dst);
    assert order + queue + [dst] == order + (queue + [dst]);
  }

  lemma PopKeeps(group: seq<Node>, edges: set<Edge>, left: set<Edge>,
                 indeg: map<Node, int>, depth: map<Node, int>, queue: seq<Node>, order: seq<Node>)
    requires KahnState(group, edges, left, indeg, depth, queue, order) && queue != []
    ensures queue[0] in group && queue[0] !in order
    ensures forall b :: (queue[0], b) in edges ==> (queue[0], b) in left
    ensures KahnState(group, edges, left, indeg, depth, queue[1..], order + [queue[0]])
    ensures |order| < |group|
  {
    var listed := order + queue;
    assert listed[|order|] == queue[0] && queue[0] in listed;
    assert forall i :: 0 <= i < |order| ==> order[i] == listed[i];
    DistinctFits(group, listed);
    assert forall b :: (queue[0], b) !in edges - left;

    assert order + queue == order + [queue[0]] + queue[1..];
    assert forall a :: a in order ==> a in order + [queue[0]];
  }

  /** Going down the reversing order: once nothing is left into a node unless it waits for a later one, all are popped. */
  lemma {:induction false} PoppedFrom(group: seq<Node>, edges: set<Edge>, left: set<Edge>,
                                      finish: seq<Node>, order: seq<Node>, k: nat)
    requires Among(group, edges) && left <= edges && Reverses(finish, edges)
    requires forall a, b :: (a, b) in left ==> a !in order
    requires forall n :: n in group && Into(left, n) == {} ==> n in order
    requires k <= |finish|
    ensures forall i :: k <= i < |finish| && finish[i] in group ==> finish[i] in order
    decreases |finish| - k
  {
    if k < |finish| {
      PoppedFrom(group, edges, left, finish, order, k + 1);
      var n := finish[k];
      forall a | (a, n) in edges
        ensures a in order
      {
        assert IndexOf(finish, n) == k;
        var j := IndexOf(finish, a);
        assert k < j && finish[j] == a;
      }
      assert forall e :: e in Into(left, n) ==> (e.0, n) in edges;
    }
  }

  /** When the queue runs dry every node has been popped. */
  lemma EmptyQueueMeansDone(group: seq<Node>, edges: set<Edge>, left: set<Edge>,
                            indeg: map<Node, int>, depth: map<Node, int>, order: seq<Node>, finish: seq<Node>)
    requires KahnState(group, edges, left, indeg, depth, [], order)
    requires Among(group, edges) && Reverses(finish, edges)
    requires forall n :: n in group ==> n in finish
    requires forall a, b :: (a, b) in left ==> a !in order
    ensures Layered(edges, depth)
    ensures forall n :: n in group <==> n in depth
    ensures forall n :: n in group ==> IsDepth(edges, n, depth[n])
  {
    assert order + [] == order;
    PoppedFrom(group, edges, left, finish, order, 0);
    forall n | n in group
      ensures n in order
    {
      assert finish[IndexOf(finish, n)] == n;
    }
    forall a, b | (a, b) in edges
      ensures a in depth && b in depth && depth[a] < depth[b]
    {
      assert (a, b) in edges - left;
    }
    forall n | n in group
      ensures IsDepth(edges, n, depth[n])
    {
      forall p | Walk(edges, p) && p[|p| - 1] == n
        ensures |p| - 1 <= depth[n]
      {
        LayeredBoundsWalks(edges, depth, p);
      }
    }
  }

  /**
   `_depths`: nodes are popped once every edge into them has been consumed.  The
   result is exactly the longest forward path ending at each node, so every
   forward edge goes to a strictly deeper layer.
   */
  method Depths(group: seq<Node>, forward: set<Edge>, ghost finish: seq<Node>) returns (depth: map<Node, int>)
    requires Distinct(group) && Among(group, forward) && Reverses(finish, forward)
    requires forall n :: n in group ==> n in finish
    ensures forall n :: n in group <==> n in depth
    ensures Layered(forward, depth)
    ensures forall n :: n in group ==> IsDepth(forward, n, depth[n])
  {
    hide KahnState, CountsInto, IsDepth, Layered, Distinct, HasWalkOf, Reverses;
    var fsucc, indeg := SuccessorsAndDegrees(group, forward);
    depth := map n | n in group :: 0;
    var queue := InitialQueue(group, forward, indeg);
    var order: seq<Node> := [];
    ghost var left := forward;
    KahnStarts(group, forward, indeg, depth, queue);
    while queue != []
      invariant KahnState(group, forward, left, indeg, depth, queue, order)
      invariant forall a, b :: (a, b) in left ==> a !in order
      decreases |group| - |order|
    {
      var node := queue[0];
      PopKeeps(group, forward, left, indeg, depth, queue, order);
      ghost var popped := order;
      queue := queue[1..];
      order := order + [node];
      var dsts := fsucc[node];
      for i := 0 to |dsts|
        invariant KahnState(group, forward, left, indeg, depth, queue, order)
        invariant forall a, b :: (a, b) in left ==> a !in popped
        invariant forall b :: (node, b) in left <==> b in dsts[i..]
      {
        var dst := dsts[i];
        HeadOnce(dsts, i);
        ConsumeKeeps(group, forward, left, indeg, depth, queue, order, node, dst);
        left := left - {(node, dst)};
        depth := Deeper(depth, node, dst);
        indeg := indeg[dst := indeg[dst] - 1];
        if indeg[dst] == 0 {
          queue := queue + [dst];
        }
      }
    }
    EmptyQueueMeansDone(group, forward, left, indeg, depth, order, finish);
  }

  lemma HeadOnce(s: seq<Node>, i: nat)
    requires Distinct(s) && i < |s|
    ensures forall b :: b in s[i..] <==> b == s[i] || b in s[i + 1..]
    ensures s[i] !in s[i + 1..]
  {
    assert s[i..] == [s[i]] + s[i + 1..];
  }

  lemma KahnStarts(group: seq<Node>, edges: set<Edge>, indeg: map<Node, int>, depth: map<Node, int>, queue: seq<Node>)
    requires CountsInto(group, edges, indeg) && FreeListed(group, indeg, queue)
    requires depth == map n | n in group :: 0
    ensures KahnState(group, edges, edges, indeg, depth, queue, [])
  {
    forall n | n in group
      ensures HasWalkOf(edges, n, 0)
    {
      WalkOfZero(edges, n);
    }
    assert [] + queue == queue;
  }

  method InitialQueue(group: seq<Node>, ghost edges: set<Edge>, indeg: map<Node, int>) returns (queue: seq<Node>)
    requires Distinct(group) && CountsInto(group, edges, indeg)
    ensures FreeListed(group, indeg, queue)
  {
    queue := [];
    for i := 0 to |group|
      invariant Distinct(queue)
      invariant forall n :: n in queue <==> n in group[..i] && indeg[n] == 0
    {
      assert group[..i + 1] == group[..i] + [group[i]];
      assert group[i] !in group[..i];
      if indeg[group[i]] == 0 {
        queue := queue + [group[i]];
      }
    }
    assert group[..|group|] == group;
  }
}
