/**
 Cycle breaking by depth-first search: `_forward_only` of
 app/application/graph_layout.py:98-137.
 */
module ForwardEdges {
  import opened Graphs

  /** Edges between different members of the group, as the successor lists give them. */
  ghost predicate IsMemberEdge(group: seq<Node>, succ: map<Node, seq<Node>>, a: Node, b: Node) {
    a in group && b in group && a != b && a in succ && b in succ[a]
  }

  /** A member edge is either kept, or closes a cycle of kept edges. */
  ghost predicate Settled(group: seq<Node>, succ: map<Node, seq<Node>>, kept: set<Edge>, a: Node, b: Node) {
    IsMemberEdge(group, succ, a, b) ==> (a, b) in kept || Reaches(kept, b, a)
  }

  lemma SettledGrows(group: seq<Node>, succ: map<Node, seq<Node>>, small: set<Edge>, big: set<Edge>, a: Node, b: Node)
    requires small <= big && Settled(group, succ, small, a, b)
    ensures Settled(group, succ, big, a, b)
  {
    if IsMemberEdge(group, succ, a, b) && (a, b) !in small {
      var p :| WalkBetween(small, p, b, a);
      WalkGrows(small, big, p);
      assert WalkBetween(big, p, b, a);
    }
  }

  lemma DoneStaysSettled(group: seq<Node>, succ: map<Node, seq<Node>>, small: set<Edge>, big: set<Edge>, done: set<Node>)
    requires small <= big
    requires forall a, b :: a in done ==> Settled(group, succ, small, a, b)
    ensures forall a, b :: a in done ==> Settled(group, succ, big, a, b)
  {
    forall a, b | a in done
      ensures Settled(group, succ, big, a, b)
    {
      SettledGrows(group, succ, small, big, a, b);
    }
  }

  /** Each entry of `order` comes after every target of its edges. */
  ghost predicate FinishedInOrder(order: seq<Node>, edges: set<Edge>) {
    forall k, b :: 0 <= k < |order| && (order[k], b) in edges ==> b in order[..k]
  }

  lemma FinishOne(order: seq<Node>, edges: set<Edge>, n: Node)
    requires FinishedInOrder(order, edges)
    requires forall b :: (n, b) in edges ==> b in order
    ensures FinishedInOrder(order + [n], edges)
  {
    var longer := order + [n];
    forall k, b | 0 <= k < |longer| && (longer[k], b) in edges
      ensures b in longer[..k]
    {
      assert longer[..k] == order[..k];
      if k == |order| {
        assert order[..k] == order;
      }
    }
  }

  /** Open node i's kept edges lead to finished nodes, or to the open node above it. */
  ghost predicate OpenTargetsDone(open: seq<Node>, edges: set<Edge>, done: set<Node>) {
    forall i, b {:trigger (open[i], b)} :: 0 <= i < |open| && (open[i], b) in edges ==> b in done || (i + 1 < |open| && b == open[i + 1])
  }

  lemma TopTargetsDone(open: seq<Node>, edges: set<Edge>, done: set<Node>)
    requires open != [] && OpenTargetsDone(open, edges, done)
    ensures forall b :: (open[|open| - 1], b) in edges ==> b in done
  {
  }

  /** Kept edges lead to every one of these nodes from a node the search entered at. */
  ghost predicate AllRooted(entered: set<Node>, nodes: set<Node>, edges: set<Edge>) {
    forall n :: n in nodes ==> IsRooted(entered, edges, n)
  }

  ghost predicate IsRooted(entered: set<Node>, edges: set<Edge>, n: Node) {
    exists r :: r in entered && Reaches(edges, r, n)
  }

  lemma RootedGrows(entered: set<Node>, nodes: set<Node>, small: set<Edge>, big: set<Edge>)
    requires AllRooted(entered, nodes, small) && small <= big
    ensures AllRooted(entered, nodes, big)
  {
    forall n | n in nodes ensures IsRooted(entered, big, n) {
      assert IsRooted(entered, small, n);
      var r :| r in entered && Reaches(small, r, n);
      var p :| WalkBetween(small, p, r, n);
      WalkGrows(small, big, p);
      assert WalkBetween(big, p, r, n);
    }
  }

  lemma TopIsRooted(entered: set<Node>, edges: set<Edge>, open: seq<Node>)
    requires open != [] && open[0] in entered && OpenIsWalk(open, edges)
    ensures IsRooted(entered, edges, open[|open| - 1])
  {
    assert WalkBetween(edges, open, open[0], open[|open| - 1]);
  }

  lemma OneMoreRooted(entered: set<Node>, nodes: set<Node>, edges: set<Edge>, n: Node)
    requires AllRooted(entered, nodes, edges) && IsRooted(entered, edges, n)
    ensures AllRooted(entered, nodes + {n}, edges)
  {
  }

  lemma EnteredGrows(entered: set<Node>, more: set<Node>, nodes: set<Node>, edges: set<Edge>)
    requires AllRooted(entered, nodes, edges) && entered <= more
    ensures AllRooted(more, nodes, edges)
  {
    forall n | n in nodes ensures IsRooted(more, edges, n) {
      assert IsRooted(entered, edges, n);
    }
  }

  /** Every member edge out of `done` ends in `done` or at an open node. */
  ghost predicate LeadsOn(group: seq<Node>, succ: map<Node, seq<Node>>, done: set<Node>, onStack: set<Node>) {
    forall a, b :: a in done && IsMemberEdge(group, succ, a, b) ==> b in done || b in onStack
  }

  lemma OpenedLeadsOn(group: seq<Node>, succ: map<Node, seq<Node>>, done: set<Node>, onStack: set<Node>, n: Node)
    requires LeadsOn(group, succ, done, onStack)
    ensures LeadsOn(group, succ, done, onStack + {n})
  {
  }

  ghost predicate NodeLeadsOn(group: seq<Node>, succ: map<Node, seq<Node>>, done: set<Node>, onStack: set<Node>, n: Node) {
    forall b :: IsMemberEdge(group, succ, n, b) ==> b in done || b in onStack
  }

  lemma NodeIsDone(group: seq<Node>, succ: map<Node, seq<Node>>, done: set<Node>, onStack: set<Node>, n: Node)
    requires LeadsOn(group, succ, done, onStack) && NodeLeadsOn(group, succ, done, onStack, n)
    ensures LeadsOn(group, succ, done + {n}, onStack - {n})
  {
  }

  lemma TargetsAfterVisit(open: seq<Node>, dst: Node, before: set<Edge>, done: set<Node>, edges: set<Edge>, more: set<Node>)
    requires OpenTargetsDone(open + [dst], before, done) && done <= more && dst in more
    requires forall i, b :: 0 <= i < |open| && (open[i], b) in edges ==> (open[i], b) in before
    ensures OpenTargetsDone(open, edges, more)
  {
    var longer := open + [dst];
    assert forall i :: 0 <= i < |open| ==> longer[i] == open[i];
  }

  ghost predicate OpenIsWalk(open: seq<Node>, edges: set<Edge>) {
    open != [] ==> Walk(edges, open)
  }

  lemma OpenReachesTop(open: seq<Node>, edges: set<Edge>, n: Node)
    requires OpenIsWalk(open, edges) && n in open
    ensures Reaches(edges, n, open[|open| - 1])
  {
    var k :| 0 <= k < |open| && open[k] == n;
    WalkTail(edges, open, k);
    assert WalkBetween(edges, open[k..], n, open[|open| - 1]);
  }

  /**
   The mutable state the nested `visit` closes over.  `Open` is the chain of
   calls in progress and `Finished` the order in which they returned.
   */
  class ForwardWalk {
    const group: seq<Node>
    const succ: map<Node, seq<Node>>
    var forward: set<Edge>
    var onStack: set<Node>
    var done: set<Node>
    ghost var Open: seq<Node>
    ghost var Finished: seq<Node>
    /** Where the search was entered. */
    ghost var Entered: set<Node>

    constructor (group: seq<Node>, succ: map<Node, seq<Node>>)
      requires forall n :: n in group ==> n in succ
      ensures this.group == group && this.succ == succ
      ensures Valid() && Rooted() && Open == [] && forward == {} && done == {} && Entered == {}
    {
      this.group, this.succ := group, succ;
      forward, onStack, done := {}, {}, {};
      Open, Finished, Entered := [], [], {};
    }

    ghost predicate Tracked()
      reads this
    {
      && (forall n :: n in group ==> n in succ)
      && (forall n :: n in onStack <==> n in Open)
      && (forall n :: n in done <==> n in Finished)
      && Distinct(Open) && Distinct(Finished)
      && onStack !! done
      && (forall n :: n in onStack || n in done ==> n in group)
    }

    ghost predicate KeepsMemberEdges()
      reads this
    {
      forall a, b :: (a, b) in forward ==> IsMemberEdge(group, succ, a, b) && (a in onStack || a in done)
    }

    ghost predicate DoneSettled()
      reads this
    {
      forall a, b :: a in done ==> Settled(group, succ, forward, a, b)
    }

    ghost predicate Valid()
      reads this
    {
      && Tracked()
      && KeepsMemberEdges()
      && FinishedInOrder(Finished, forward)
      && DoneSettled()
    }

    /** Finished nodes are reached from where the search was entered, and lead nowhere it has not been. */
    ghost predicate Rooted()
      reads this
    {
      && AllRooted(Entered, done, forward)
      && LeadsOn(group, succ, done, onStack)
      && (Open != [] ==> Open[0] in Entered)
    }

    ghost function Unseen(): set<Node>
      reads this
    {
      (set n | n in group) - onStack - done
    }

    /** Between two iterations of the loop in `visit`, with the visited node on top of `Open`. */
    ghost predicate Busy()
      reads this
    {
      Valid() && Open != [] && OpenIsWalk(Open, forward) && OpenTargetsDone(Open, forward, done)
    }

    /** The nested `visit`. */
    method Visit(node: Node)
      requires Valid() && node in group && node !in onStack && node !in done
      requires OpenIsWalk(Open + [node], forward) && OpenTargetsDone(Open + [node], forward, done)
      requires Rooted() && (Open + [node])[0] in Entered
      modifies this
      ensures Valid() && node in done
      ensures Rooted() && Entered == old(Entered)
      ensures Open == old(Open) && onStack == old(onStack)
      ensures old(done) <= done && old(forward) <= forward
      ensures forall a, b :: a in onStack && (a, b) in forward ==> (a, b) in old(forward)
      decreases Unseen(), 1
    {
      hide Settled, OpenIsWalk, OpenTargetsDone, FinishedInOrder, IsMemberEdge, AllRooted, IsRooted, LeadsOn, NodeLeadsOn;
      OpenedLeadsOn(group, succ, done, onStack, node);
      onStack := onStack + {node};
      Open := Open + [node];
      assert node in old(Unseen()) && node !in Unseen() && Unseen() <= old(Unseen());
      for i := 0 to |succ[node]|
        invariant Busy()
        invariant Rooted() && Entered == old(Entered)
        invariant forall k :: 0 <= k < i ==>
                    IsMemberEdge(group, succ, node, succ[node][k]) ==> succ[node][k] in done || succ[node][k] in onStack
        invariant Open == old(Open) + [node] && onStack == old(onStack) + {node}
        invariant old(done) <= done && old(forward) <= forward
        invariant forall a, b :: a in old(onStack) && (a, b) in forward ==> (a, b) in old(forward)
        invariant forall k :: 0 <= k < i ==> Settled(group, succ, forward, node, succ[node][k])
      {
        ghost var before := forward;
        assert node in old(Unseen()) && node !in Unseen() && Unseen() <= old(Unseen());
        Consider(node, succ[node][i]);
        forall k | 0 <= k < i
          ensures Settled(group, succ, forward, node, succ[node][k])
        {
          SettledGrows(group, succ, before, forward, node, succ[node][k]);
        }
      }
      AllSettled(node);
      assert Open[|Open| - 1] == node;
      TopTargetsDone(Open, forward, done);
      FinishOne(Finished, forward, node);
      TopIsRooted(Entered, forward, Open);
      OneMoreRooted(Entered, done, forward, node);
      AllLeadOn(node);
      NodeIsDone(group, succ, done, onStack, node);
      onStack := onStack - {node};
      Open := Open[..|Open| - 1];
      done := done + {node};
      Finished := Finished + [node];
    }

    lemma AllLeadOn(node: Node)
      requires node in succ
      requires forall k :: 0 <= k < |succ[node]| ==>
                 IsMemberEdge(group, succ, node, succ[node][k]) ==> succ[node][k] in done || succ[node][k] in onStack
      ensures NodeLeadsOn(group, succ, done, onStack, node)
    {
    }

    /** A visit made by the driver, with no other call in progress. */
    method Enter(root: Node)
      requires Valid() && Rooted() && Open == [] && root in group
      modifies this
      ensures Valid() && Rooted() && Open == [] && root in done && old(done) <= done && old(forward) <= forward
      ensures Entered <= old(Entered) + {root}
    {
      if root !in done {
        assert Open + [root] == [root] && onStack == {};
        EnteredGrows(Entered, Entered + {root}, done, forward);
        Entered := Entered + {root};
        Visit(root);
      }
    }

    /** Once every member is finished, the search has done what it promises. */
    lemma CompleteBreaksCycles()
      requires Valid() && Open == [] && forall n :: n in group ==> n in done
      ensures BreaksCycles(group, succ, forward, Finished)
    {
    }

    lemma AllSettled(node: Node)
      requires node in succ
      requires forall k :: 0 <= k < |succ[node]| ==> Settled(group, succ, forward, node, succ[node][k])
      ensures forall b :: Settled(group, succ, forward, node, b)
    {
      forall b
        ensures Settled(group, succ, forward, node, b)
      {
        if IsMemberEdge(group, succ, node, b) {
          var k :| 0 <= k < |succ[node]| && succ[node][k] == b;
          assert Settled(group, succ, forward, node, succ[node][k]);
        }
      }
    }

    /** One iteration of the loop in `visit`: the edge to `dst` is skipped, kept, or kept and followed. */
    method Consider(node: Node, dst: Node)
      requires Busy() && Rooted() && Open[|Open| - 1] == node && dst in succ[node]
      modifies this
      ensures Busy()
      ensures Rooted() && Entered == old(Entered)
      ensures IsMemberEdge(group, succ, node, dst) ==> dst in done || dst in onStack
      ensures Open == old(Open) && onStack == old(onStack)
      ensures old(done) <= done && old(forward) <= forward
      ensures forall a, b :: a in onStack && a != node && (a, b) in forward ==> (a, b) in old(forward)
      ensures Settled(group, succ, forward, node, dst)
      decreases Unseen(), 2
    {
      hide AllRooted, IsRooted, LeadsOn;
      if dst !in group || dst == node {
        return;
      }
      if dst in onStack {
        OpenReachesTop(Open, forward, dst);
        return;
      }
      ghost var before := forward;
      forward := forward + {(node, dst)};
      DoneStaysSettled(group, succ, before, forward, done);
      RootedGrows(Entered, done, before, forward);
      WalkGrows(before, forward, Open);
      WalkExtends(forward, Open, dst);
      if dst !in done {
        ghost var called, finished := forward, done;
        Visit(dst);
        WalkGrows(called, forward, Open);
        TargetsAfterVisit(Open, dst, called, finished, forward, done);
      } else {
        assert KeepsMemberEdges() && OpenTargetsDone(Open, forward, done);
      }
    }
  }

  // ---- The whole search ----

  function MemberEdges(group: seq<Node>, succ: map<Node, seq<Node>>): set<Edge>
    requires forall a :: a in group ==> a in succ
  {
    set a, b | a in group && b in succ[a] && b in group && a != b :: (a, b)
  }

  /** The search starts at the sources, or at the first node when there is none. */
  ghost predicate IsStart(group: seq<Node>, succ: map<Node, seq<Node>>, r: Node)
    requires forall a :: a in group ==> a in succ
  {
    && r in group
    && (IsSource(group, succ, r) || (r == group[0] && forall n :: n in group ==> !IsSource(group, succ, n)))
  }

  /** Leaving out the edges that close cycles cuts nothing off: what a start leads to, kept edges from a start lead to. */
  ghost predicate KeepsReach(group: seq<Node>, succ: map<Node, seq<Node>>, kept: set<Edge>)
    requires forall a :: a in group ==> a in succ
  {
    forall r, n :: IsStart(group, succ, r) && Reaches(MemberEdges(group, succ), r, n) ==>
      exists t :: IsStart(group, succ, t) && Reaches(kept, t, n)
  }

  lemma {:induction false} WalkStays(group: seq<Node>, succ: map<Node, seq<Node>>, done: set<Node>, p: seq<Node>)
    requires forall a :: a in group ==> a in succ
    requires LeadsOn(group, succ, done, {}) && Walk(MemberEdges(group, succ), p) && p[0] in done
    ensures p[|p| - 1] in done
    decreases |p|
  {
    if |p| > 1 {
      var k := |p| - 1;
      WalkFront(MemberEdges(group, succ), p, k);
      WalkStays(group, succ, done, p[..k]);
      assert (p[k - 1], p[k]) in MemberEdges(group, succ);
      assert IsMemberEdge(group, succ, p[k - 1], p[k]);
    }
  }

  /** The nodes finished once every start has been entered hold all that the starts lead to. */
  lemma DoneFromStarts(group: seq<Node>, succ: map<Node, seq<Node>>, done: set<Node>, entered: set<Node>, kept: set<Edge>)
    requires forall a :: a in group ==> a in succ
    requires LeadsOn(group, succ, done, {}) && AllRooted(entered, done, kept)
    requires forall r :: r in entered ==> IsStart(group, succ, r)
    requires forall r :: IsStart(group, succ, r) ==> r in done
    ensures KeepsReach(group, succ, kept)
  {
    hide LeadsOn, IsStart;
    forall r, n | IsStart(group, succ, r) && Reaches(MemberEdges(group, succ), r, n)
      ensures exists t :: IsStart(group, succ, t) && Reaches(kept, t, n)
    {
      var p :| WalkBetween(MemberEdges(group, succ), p, r, n);
      WalkStays(group, succ, done, p);
      assert IsRooted(entered, kept, n);
    }
  }

  /** What cycle breaking promises about the kept edges. */
  ghost predicate BreaksCycles(group: seq<Node>, succ: map<Node, seq<Node>>, kept: set<Edge>, order: seq<Node>) {
    && (forall a, b :: (a, b) in kept ==> IsMemberEdge(group, succ, a, b))
    && (forall n :: n in group <==> n in order)
    && Reverses(order, kept)
    && (forall a, b :: Settled(group, succ, kept, a, b))
  }

  /** No member edge, self-loops included, arrives at `n`. */
  ghost predicate IsSource(group: seq<Node>, succ: map<Node, seq<Node>>, n: Node)
    requires forall a :: a in group ==> a in succ
  {
    forall a :: a in group ==> n !in succ[a]
  }

  /** The search starts at the nodes nothing points to, or at the first node when there is none. */
  method Roots(group: seq<Node>, succ: map<Node, seq<Node>>) returns (roots: seq<Node>)
    requires group != [] && forall n :: n in group ==> n in succ
    ensures roots != [] && forall n :: n in roots ==> n in group
    ensures (forall n :: n in roots <==> n in group && IsSource(group, succ, n))
            || (roots == [group[0]] && forall n :: n in group ==> !IsSource(group, succ, n))
  {
    var incoming: map<Node, nat> := map n | n in group :: 0;
    for i := 0 to |group|
      invariant forall n :: n in group <==> n in incoming
      invariant forall n :: n in group ==> (incoming[n] == 0 <==> forall k :: 0 <= k < i ==> n !in succ[group[k]])
    {
      var dsts := succ[group[i]];
      for j := 0 to |dsts|
        invariant forall n :: n in group <==> n in incoming
        invariant forall n :: n in group ==>
                    (incoming[n] == 0 <==> n !in dsts[..j] && forall k :: 0 <= k < i ==> n !in succ[group[k]])
      {
        assert dsts[..j + 1] == dsts[..j] + [dsts[j]];
        if dsts[j] in group {
          incoming := incoming[dsts[j] := incoming[dsts[j]] + 1];
        }
      }
      assert dsts[..|dsts|] == dsts;
    }
    roots := [];
    for i := 0 to |group|
      invariant forall n :: n in roots <==> n in group[..i] && IsSource(group, succ, n)
    {
      assert group[..i + 1] == group[..i] + [group[i]];
      if incoming[group[i]] == 0 {
        roots := roots + [group[i]];
      }
    }
    assert group[..|group|] == group;
    if roots == [] {
      roots := [group[0]];
    }
  }

  /**
   `_forward_only`.  The kept edges have no cycle (the finish order reverses each
   of them), and every edge left out closes a cycle of kept ones.
   */
  method ForwardOnly(group: seq<Node>, succ: map<Node, seq<Node>>)
    returns (forward: set<Edge>, ghost order: seq<Node>)
    requires group != [] && forall n :: n in group ==> n in succ
    ensures Acyclic(forward)
    ensures forall a, b :: Settled(group, succ, forward, a, b)
    ensures BreaksCycles(group, succ, forward, order)
    ensures KeepsReach(group, succ, forward)
  {
    hide IsMemberEdge, Settled, FinishedInOrder, BreaksCycles, IsSource, AllRooted, LeadsOn, KeepsReach;
    var roots := Roots(group, succ);
    var walk := new ForwardWalk(group, succ);
    for i := 0 to |roots|
      invariant walk.Valid() && walk.Rooted() && walk.Open == []
      invariant walk.Entered <= Elements(roots)
      invariant forall k :: 0 <= k < i ==> roots[k] in walk.done
    {
      walk.Enter(roots[i]);
    }
    ghost var entered, done := walk.Entered, walk.done;
    assert walk.onStack == {} && roots[0] in roots;
    assert forall r :: r in roots ==> r in done;
    assert forall r :: IsStart(group, succ, r) <==> r in roots;
    for i := 0 to |group|
      invariant walk.Valid() && walk.Rooted() && walk.Open == []
      invariant AllRooted(entered, done, walk.forward)
      invariant forall k :: 0 <= k < i ==> group[k] in walk.done
    {
      ghost var before := walk.forward;
      walk.Enter(group[i]);
      RootedGrows(entered, done, before, walk.forward);
    }
    walk.CompleteBreaksCycles();
    forward, order := walk.forward, walk.Finished;
    DoneFromStarts(group, succ, done, entered, forward);
    BrokenHasNoCycle(group, succ, forward, order);
  }

  lemma {:induction false} BrokenHasNoCycle(group: seq<Node>, succ: map<Node, seq<Node>>, kept: set<Edge>, order: seq<Node>)
    requires BreaksCycles(group, succ, kept, order)
    ensures Acyclic(kept)
  {
    ReversedIsAcyclic(order, kept);
  }

  /** A graph that has no cycle loses no edge, and one that has a cycle loses some edge of it. */
  lemma KeepsAllExactlyWithoutCycles(group: seq<Node>, succ: map<Node, seq<Node>>,
                                     all: set<Edge>, kept: set<Edge>, order: seq<Node>)
    requires BreaksCycles(group, succ, kept, order)
    requires forall a, b :: (a, b) in all <==> IsMemberEdge(group, succ, a, b)
    ensures kept == all <==> Acyclic(all)
  {
    BrokenHasNoCycle(group, succ, kept, order);
    forall e | e in kept
      ensures e in all
    {
      assert (e.0, e.1) in kept;
    }
    if Acyclic(all) {
      forall a, b | (a, b) in all
        ensures (a, b) in kept
      {
        assert Settled(group, succ, kept, a, b);
        if (a, b) !in kept {
          var p :| WalkBetween(kept, p, b, a);
          WalkGrows(kept, all, p);
          WalkExtends(all, p, b);
        }
      }
      forall e | e in all
        ensures e in kept
      {
        assert (e.0, e.1) in all;
      }
    }
  }
}
