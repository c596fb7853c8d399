/**
 Weakly-connected components: `_components` of
 app/application/graph_layout.py:76-95.
 */
module Components {
  import opened Graphs

  /** The step graph: one successor and one predecessor list per id, mirror images of each other. */
  ghost predicate IsGraph(ids: seq<Node>, succ: map<Node, seq<Node>>, pred: map<Node, seq<Node>>) {
    && Distinct(ids)
    && (forall n :: n in ids ==> n in succ && n in pred)
    && (forall a, b :: a in ids && b in succ[a] ==> b in ids && a in pred[b])
    && (forall a, b :: a in ids && b in pred[a] ==> b in ids && a in succ[b])
  }

  /** Edges read in both directions. */
  ghost function Links(ids: seq<Node>, succ: map<Node, seq<Node>>, pred: map<Node, seq<Node>>): set<Edge>
    requires IsGraph(ids, succ, pred)
  {
    set a, b | a in ids && b in ids && (b in succ[a] || b in pred[a]) :: (a, b)
  }

  ghost predicate Symmetric(links: set<Edge>) {
    forall a, b :: (a, b) in links ==> (b, a) in links
  }

  ghost predicate ClosedUnder(links: set<Edge>, nodes: set<Node>) {
    forall a, b :: a in nodes && (a, b) in links ==> b in nodes
  }

  lemma {:induction false} SymmetricReach(links: set<Edge>, p: seq<Node>)
    requires Symmetric(links) && Walk(links, p)
    ensures Reaches(links, p[|p| - 1], p[0])
    decreases |p|
  {
    if |p| == 1 {
      assert WalkBetween(links, p, p[0], p[0]);
    } else {
      var k := |p| - 1;
      WalkFront(links, p, k);
      SymmetricReach(links, p[..k]);
      assert (p[k - 1], p[k]) in links;
      var q := [p[k], p[k - 1]];
      assert WalkBetween(links, q, p[k], p[k - 1]);
      ReachesTransitive(links, p[k], p[k - 1], p[0]);
    }
  }

  /** Everything reached from one start is mutually reachable. */
  lemma ReachedTogether(links: set<Edge>, start: Node, a: Node, b: Node)
    requires Symmetric(links) && Reaches(links, start, a) && Reaches(links, start, b)
    ensures Reaches(links, a, b)
  {
    var p :| WalkBetween(links, p, start, a);
    SymmetricReach(links, p);
    ReachesTransitive(links, a, start, b);
  }

  /** The members of `chosen`, in the order of `ids`: a sort on the unique position of each id. */
  function InOrder(ids: seq<Node>, chosen: set<Node>): (s: seq<Node>)
    ensures forall n :: n in s <==> n in ids && n in chosen
  {
    if ids == [] then []
    else
      var k := |ids| - 1;
      InOrder(ids[..k], chosen) + if ids[k] in chosen then [ids[k]] else []
  }

  lemma {:induction false} InOrderDistinct(ids: seq<Node>, chosen: set<Node>)
    requires Distinct(ids)
    ensures Distinct(InOrder(ids, chosen))
  {
    if ids != [] {
      var k := |ids| - 1;
      InOrderDistinct(ids[..k], chosen);
      assert ids[k] !in ids[..k];
    }
  }

  ghost predicate InIdOrder(ids: seq<Node>, s: seq<Node>) {
    && (forall n :: n in s ==> n in ids)
    && forall i, j :: 0 <= i < j < |s| ==> IndexOf(ids, s[i]) < IndexOf(ids, s[j])
  }

  /** It is in that order indeed. */
  lemma {:induction false} InOrderAscends(ids: seq<Node>, chosen: set<Node>)
    requires Distinct(ids)
    ensures InIdOrder(ids, InOrder(ids, chosen))
  {
    if ids != [] {
      var k := |ids| - 1;
      InOrderAscends(ids[..k], chosen);
      OrderGrows(ids, k, InOrder(ids[..k], chosen));
    }
  }

  lemma OrderGrows(ids: seq<Node>, k: nat, front: seq<Node>)
    requires Distinct(ids) && k == |ids| - 1 && InIdOrder(ids[..k], front)
    ensures InIdOrder(ids, front) && InIdOrder(ids, front + [ids[k]])
  {
    forall n | n in front
      ensures n in ids && IndexOf(ids, n) == IndexOf(ids[..k], n) < k
    {
      IndexInFront(ids, k, n);
    }
    assert ids[IndexOf(ids, ids[k])] == ids[k];
  }

  lemma IndexInFront(ids: seq<Node>, k: nat, n: Node)
    requires Distinct(ids) && k < |ids| && n in ids[..k]
    ensures n in ids && IndexOf(ids, n) == IndexOf(ids[..k], n) < k
  {
  }

  /** The first member is the one that comes first among the ids. */
  lemma InOrderFirst(ids: seq<Node>, chosen: set<Node>, i: nat)
    requires Distinct(ids) && i < |ids| && ids[i] in chosen
    requires forall k :: 0 <= k < i ==> ids[k] !in chosen
    ensures var s := InOrder(ids, chosen); s != [] && s[0] == ids[i]
  {
    var s := InOrder(ids, chosen);
    assert ids[i] in s;
    var j :| 0 <= j < |s| && s[j] == ids[i];
    InOrderAscends(ids, chosen);
    assert s[0] in s && s[0] in ids;
    assert IndexOf(ids, s[0]) >= i;
  }

  /** The groups come in the order of their first members. */
  ghost predicate InTurn(ids: seq<Node>, groups: seq<seq<Node>>) {
    && (forall g, n :: 0 <= g < |groups| && n in groups[g] ==> n in ids)
    && (forall g :: 0 <= g < |groups| ==> groups[g] != [])
    && forall g, h, n :: 0 <= g < h < |groups| && n in groups[h] ==> IndexOf(ids, groups[g][0]) < IndexOf(ids, n)
  }

  lemma InTurnAdd(ids: seq<Node>, groups: seq<seq<Node>>, group: seq<Node>, i: nat)
    requires Distinct(ids) && i < |ids| && InTurn(ids, groups)
    requires forall g :: 0 <= g < |groups| ==> IndexOf(ids, groups[g][0]) < i
    requires group != [] && group[0] == ids[i] && forall n :: n in group ==> n in ids && IndexOf(ids, n) >= i
    ensures InTurn(ids, groups + [group])
    ensures forall g :: 0 <= g <= |groups| ==> IndexOf(ids, (groups + [group])[g][0]) < i + 1
  {
  }

  /** One component: non-empty, duplicate-free, closed under links, and connected. */
  ghost predicate IsComponent(links: set<Edge>, group: seq<Node>) {
    && group != []
    && Distinct(group)
    && ClosedUnder(links, Elements(group))
    && forall a, b :: a in group && b in group ==> Reaches(links, a, b)
  }

  /** The groups are components, pairwise disjoint, and cover exactly `nodes`. */
  ghost predicate Partition(links: set<Edge>, nodes: set<Node>, groups: seq<seq<Node>>) {
    && (forall g :: 0 <= g < |groups| ==> IsComponent(links, groups[g]))
    && (forall g, h, n :: 0 <= g < h < |groups| && n in groups[g] ==> n !in groups[h])
    && (forall n :: n in nodes <==> exists g :: 0 <= g < |groups| && n in groups[g])
  }

  /** Nodes found so far from `start`: popped ones in `group`, waiting ones in `stack`. */
  ghost predicate Found(ids: seq<Node>, links: set<Edge>, before: set<Node>, start: Node,
                        seen: set<Node>, group: seq<Node>, stack: seq<Node>)
  {
    && Distinct(group) && Distinct(stack)
    && (forall n :: n in group ==> n !in stack)
    && (forall n :: n in group || n in stack ==> n in ids && n !in before && Reaches(links, start, n))
    && (forall n :: n in seen <==> n in before || n in group || n in stack)
    && start in seen
  }

  ghost predicate Covered(links: set<Edge>, nodes: seq<Node>, seen: set<Node>) {
    forall a, b :: a in nodes && (a, b) in links ==> b in seen
  }

  lemma FoundStarts(ids: seq<Node>, links: set<Edge>, before: set<Node>, start: Node)
    requires start in ids && start !in before
    ensures Found(ids, links, before, start, before + {start}, [], [start])
  {
    assert WalkBetween(links, [start], start, start);
  }

  lemma FoundPop(ids: seq<Node>, links: set<Edge>, before: set<Node>, start: Node,
                 seen: set<Node>, group: seq<Node>, stack: seq<Node>)
    requires Found(ids, links, before, start, seen, group, stack) && stack != []
    ensures var node := stack[|stack| - 1];
            && node in ids
            && Found(ids, links, before, start, seen, group + [node], stack[..|stack| - 1])
    ensures |group| < |ids|
  {
    var k := |stack| - 1;
    var rest := stack[..k];
    assert stack == rest + [stack[k]];
    assert stack[k] !in rest && stack[k] in stack;
    DistinctFits(ids, group + [stack[k]]);
  }

  lemma FoundPush(ids: seq<Node>, links: set<Edge>, before: set<Node>, start: Node,
                  seen: set<Node>, group: seq<Node>, stack: seq<Node>, node: Node, nb: Node)
    requires Found(ids, links, before, start, seen, group, stack)
    requires node in group && (node, nb) in links && nb in ids && nb !in seen
    ensures Found(ids, links, before, start, seen + {nb}, group, stack + [nb])
  {
    assert WalkBetween(links, [node, nb], node, nb);
    ReachesTransitive(links, start, node, nb);
  }

  lemma NeighboursAreLinks(ids: seq<Node>, succ: map<Node, seq<Node>>, pred: map<Node, seq<Node>>, n: Node)
    requires IsGraph(ids, succ, pred) && n in ids
    ensures n in succ && n in pred
    ensures forall b :: b in succ[n] + pred[n] <==> (n, b) in Links(ids, succ, pred)
    ensures forall b :: b in succ[n] + pred[n] ==> b in ids
  {
  }

  lemma LinksSymmetric(ids: seq<Node>, succ: map<Node, seq<Node>>, pred: map<Node, seq<Node>>)
    requires IsGraph(ids, succ, pred)
    ensures Symmetric(Links(ids, succ, pred))
  {
  }

  /** When nothing waits any more, the popped nodes are closed, and so is everything seen. */
  lemma FloodedIsClosed(ids: seq<Node>, links: set<Edge>, before: set<Node>, start: Node,
                        seen: set<Node>, group: seq<Node>)
    requires Found(ids, links, before, start, seen, group, []) && Covered(links, group, seen)
    requires ClosedUnder(links, before) && Symmetric(links) && start !in before
    ensures start in group
    ensures seen == before + Elements(group)
    ensures IsComponent(links, group)
    ensures ClosedUnder(links, seen)
  {
    forall a, b | a in group && (a, b) in links
      ensures b in group
    {
      assert (b, a) in links;
    }
    forall a, b | a in group && b in group
      ensures Reaches(links, a, b)
    {
      ReachedTogether(links, start, a, b);
    }
  }

  /** The inner loop of `_components`: everything linked to `start`, directly or not. */
  method Flood(ids: seq<Node>, succ: map<Node, seq<Node>>, pred: map<Node, seq<Node>>,
               ghost links: set<Edge>, start: Node, already: set<Node>)
    returns (seen: set<Node>, group: seq<Node>)
    requires IsGraph(ids, succ, pred) && links == Links(ids, succ, pred)
    requires start in ids && start !in already && ClosedUnder(links, already)
    ensures seen == already + Elements(group)
    ensures forall n :: n in group ==> n in ids && n !in already
    ensures start in group && IsComponent(links, group)
    ensures ClosedUnder(links, seen)
  {
    hide Links, IsGraph, ClosedUnder, IsComponent, Distinct, Reaches, Symmetric;
    var stack := [start];
    group := [];
    seen := already + {start};
    FoundStarts(ids, links, already, start);
    LinksSymmetric(ids, succ, pred);
    while stack != []
      invariant Found(ids, links, already, start, seen, group, stack)
      invariant Covered(links, group, seen)
      decreases |ids| - |group|
    {
      var node := stack[|stack| - 1];
      FoundPop(ids, links, already, start, seen, group, stack);
      ghost var popped := group;
      stack := stack[..|stack| - 1];
      group := group + [node];
      NeighboursAreLinks(ids, succ, pred, node);
      var neighbours := succ[node] + pred[node];
      for i := 0 to |neighbours|
        invariant Found(ids, links, already, start, seen, group, stack)
        invariant Covered(links, popped, seen)
        invariant forall k :: 0 <= k < i ==> neighbours[k] in seen
      {
        var nb := neighbours[i];
        if nb !in seen {
          FoundPush(ids, links, already, start, seen, group, stack, node, nb);
          seen := seen + {nb};
          stack := stack + [nb];
        }
      }
    }
    FloodedIsClosed(ids, links, already, start, seen, group);
  }

  lemma SortedGroup(ids: seq<Node>, links: set<Edge>, group: seq<Node>)
    requires Distinct(ids) && IsComponent(links, group) && forall n :: n in group ==> n in ids
    ensures var sorted := InOrder(ids, Elements(group));
            IsComponent(links, sorted) && forall n :: n in sorted <==> n in group
  {
    var sorted := InOrder(ids, Elements(group));
    InOrderDistinct(ids, Elements(group));
    assert group[0] in sorted;
    assert Elements(sorted) == Elements(group);
  }

  lemma PartitionAdd(links: set<Edge>, nodes: set<Node>, groups: seq<seq<Node>>, group: seq<Node>)
    requires Partition(links, nodes, groups) && IsComponent(links, group)
    requires forall n :: n in group ==> n !in nodes
    ensures Partition(links, nodes + Elements(group), groups + [group])
  {
    var more, all := groups + [group], nodes + Elements(group);
    forall n
      ensures n in all <==> exists g :: 0 <= g < |more| && n in more[g]
    {
      if n in nodes {
        var g :| 0 <= g < |groups| && n in groups[g];
        assert n in more[g];
      }
      if n in group {
        assert n in more[|groups|];
      }
    }
  }

  ghost predicate FirstsBefore(ids: seq<Node>, groups: seq<seq<Node>>, i: nat) {
    forall g :: 0 <= g < |groups| ==> groups[g] != [] && groups[g][0] in ids && IndexOf(ids, groups[g][0]) < i
  }

  lemma LeadsNext(ids: seq<Node>, chosen: set<Node>, groups: seq<seq<Node>>, seen: set<Node>, i: nat)
    requires Distinct(ids) && i < |ids| && ids[i] in chosen && InTurn(ids, groups) && FirstsBefore(ids, groups, i)
    requires forall k :: 0 <= k < i ==> ids[k] in seen
    requires forall n :: n in chosen ==> n in ids && n !in seen
    ensures InTurn(ids, groups + [InOrder(ids, chosen)]) && FirstsBefore(ids, groups + [InOrder(ids, chosen)], i + 1)
  {
    var group := InOrder(ids, chosen);
    InOrderFirst(ids, chosen, i);
    forall n | n in group
      ensures n in ids && IndexOf(ids, n) >= i
    {
      assert ids[IndexOf(ids, n)] == n;
    }
    InTurnAdd(ids, groups, group, i);
  }

  /** A flooded component, sorted, is the next group. */
  lemma NextGroup(ids: seq<Node>, links: set<Edge>, seen: set<Node>, groups: seq<seq<Node>>, group: seq<Node>, i: nat)
    requires Distinct(ids) && i < |ids| && ids[i] in group && IsComponent(links, group)
    requires forall n :: n in group ==> n in ids && n !in seen
    requires forall k :: 0 <= k < i ==> ids[k] in seen
    requires Partition(links, seen, groups) && InTurn(ids, groups) && FirstsBefore(ids, groups, i)
    ensures var sorted := InOrder(ids, Elements(group));
            && Elements(sorted) == Elements(group)
            && Partition(links, seen + Elements(group), groups + [sorted])
            && InTurn(ids, groups + [sorted]) && FirstsBefore(ids, groups + [sorted], i + 1)
  {
    hide IsComponent, Partition, InTurn, FirstsBefore, InOrder;
    var sorted := InOrder(ids, Elements(group));
    SortedGroup(ids, links, group);
    assert Elements(sorted) == Elements(group);
    PartitionAdd(links, seen, groups, sorted);
    LeadsNext(ids, Elements(group), groups, seen, i);
  }

  lemma FirstsStayBefore(ids: seq<Node>, groups: seq<seq<Node>>, i: nat)
    requires FirstsBefore(ids, groups, i)
    ensures FirstsBefore(ids, groups, i + 1)
  {
  }

  /** `_components`: the groups partition the ids, and each is one whole component in id order. */
  method Components(ids: seq<Node>, succ: map<Node, seq<Node>>, pred: map<Node, seq<Node>>)
    returns (out: seq<seq<Node>>)
    requires IsGraph(ids, succ, pred)
    ensures Partition(Links(ids, succ, pred), Elements(ids), out)
    ensures forall g :: 0 <= g < |out| ==> out[g] == InOrder(ids, Elements(out[g]))
    ensures InTurn(ids, out)
  {
    hide Links, ClosedUnder, IsComponent, Partition, InOrder, InTurn, FirstsBefore, Distinct;
    ghost var links := Links(ids, succ, pred);
    var seen: set<Node> := {};
    out := [];
    NothingSeenYet(links);
    NobodyInTurn(ids);
    for i := 0 to |ids|
      invariant Partition(links, seen, out) && ClosedUnder(links, seen)
      invariant forall n :: n in seen ==> n in ids
      invariant forall k :: 0 <= k < i ==> ids[k] in seen
      invariant forall g :: 0 <= g < |out| ==> out[g] == InOrder(ids, Elements(out[g]))
      invariant InTurn(ids, out) && FirstsBefore(ids, out, i)
    {
      if ids[i] !in seen {
        ghost var before := seen;
        var group: seq<Node>;
        seen, group := Flood(ids, succ, pred, links, ids[i], seen);
        var sorted := InOrder(ids, Elements(group));
        NextGroup(ids, links, before, out, group, i);
        out := out + [sorted];
      } else {
        FirstsStayBefore(ids, out, i);
      }
    }
    assert seen == Elements(ids);
  }

  lemma NobodyInTurn(ids: seq<Node>)
    ensures InTurn(ids, []) && FirstsBefore(ids, [], 0)
  {
  }

  lemma NothingSeenYet(links: set<Edge>)
    ensures Partition(links, {}, []) && ClosedUnder(links, {})
  {
  }
}
