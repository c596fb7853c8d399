/**
 Edge sets over step ids, walks along them, and the orders that rule cycles out.
 */
module Graphs {

  type Node = string
  type Edge = (Node, Node)

  /** A walk: every step follows an edge. One node alone is a walk. */
  ghost predicate Walk(edges: set<Edge>, p: seq<Node>) {
    p != [] && forall i, j :: 0 <= i < j < |p| && j == i + 1 ==> (p[i], p[j]) in edges
  }

  ghost predicate WalkBetween(edges: set<Edge>, p: seq<Node>, a: Node, b: Node) {
    Walk(edges, p) && p[0] == a && p[|p| - 1] == b
  }

  ghost predicate Reaches(edges: set<Edge>, a: Node, b: Node) {
    exists p :: WalkBetween(edges, p, a, b)
  }

  ghost predicate Distinct<T>(s: seq<T>) {
    forall i, j :: 0 <= i < j < |s| ==> s[i] != s[j]
  }

  function Elements(s: seq<Node>): set<Node> {
    set n | n in s
  }

  /** Where `n` sits in `order`. */
  ghost function IndexOf(order: seq<Node>, n: Node): (i: nat)
    requires n in order
    ensures i < |order| && order[i] == n
  {
    var i :| 0 <= i < |order| && order[i] == n;
    i
  }

  /** `order` lists every edge's target before its source, so no walk returns to where it started. */
  ghost predicate Reverses(order: seq<Node>, edges: set<Edge>) {
    && Distinct(order)
    && forall a, b :: (a, b) in edges ==> a in order && b in order && IndexOf(order, b) < IndexOf(order, a)
  }

  ghost predicate Acyclic(edges: set<Edge>) {
    forall p {:trigger Walk(edges, p)} :: Walk(edges, p) && |p| > 1 ==> p[0] != p[|p| - 1]
  }

  lemma {:induction false} WalkDescends(order: seq<Node>, edges: set<Edge>, p: seq<Node>)
    requires Reverses(order, edges) && Walk(edges, p) && |p| > 1
    ensures p[0] in order && p[|p| - 1] in order
    ensures IndexOf(order, p[|p| - 1]) < IndexOf(order, p[0])
    decreases |p|
  {
    assert (p[0], p[1]) in edges;
    if |p| > 2 {
      assert Walk(edges, p[1..]) by {
        forall i, j | 0 <= i < j < |p[1..]| && j == i + 1
          ensures (p[1..][i], p[1..][j]) in edges
        {
          assert (p[i + 1], p[j + 1]) in edges;
        }
      }
      WalkDescends(order, edges, p[1..]);
    }
  }

  lemma ReversedIsAcyclic(order: seq<Node>, edges: set<Edge>)
    requires Reverses(order, edges)
    ensures Acyclic(edges)
  {
    forall p | Walk(edges, p) && |p| > 1
      ensures p[0] != p[|p| - 1]
    {
      WalkDescends(order, edges, p);
    }
  }

  lemma {:induction false} WalkGrows(small: set<Edge>, big: set<Edge>, p: seq<Node>)
    requires small <= big && Walk(small, p)
    ensures Walk(big, p)
  {
    forall i, j | 0 <= i < j < |p| && j == i + 1
      ensures (p[i], p[j]) in big
    {
      assert (p[i], p[j]) in small;
    }
  }

  lemma WalkExtends(edges: set<Edge>, p: seq<Node>, b: Node)
    requires Walk(edges, p) && (p[|p| - 1], b) in edges
    ensures Walk(edges, p + [b])
  {
  }

  lemma WalkTail(edges: set<Edge>, p: seq<Node>, k: nat)
    requires Walk(edges, p) && k < |p|
    ensures Walk(edges, p[k..])
  {
    var q := p[k..];
    forall i, j | 0 <= i < j < |q| && j == i + 1
      ensures (q[i], q[j]) in edges
    {
      assert (p[k + i], p[k + j]) in edges;
    }
  }

  lemma WalkFront(edges: set<Edge>, p: seq<Node>, k: nat)
    requires Walk(edges, p) && 0 < k <= |p|
    ensures Walk(edges, p[..k])
  {
    var q := p[..k];
    forall i, j | 0 <= i < j < |q| && j == i + 1
      ensures (q[i], q[j]) in edges
    {
      assert (p[i], p[j]) in edges;
    }
  }

  lemma ReachesTransitive(edges: set<Edge>, a: Node, b: Node, c: Node)
    requires Reaches(edges, a, b) && Reaches(edges, b, c)
    ensures Reaches(edges, a, c)
  {
    var p :| WalkBetween(edges, p, a, b);
    var q :| WalkBetween(edges, q, b, c);
    var r := p + q[1..];
    forall i, j | 0 <= i < j < |r| && j == i + 1
      ensures (r[i], r[j]) in edges
    {
      if j < |p| {
        assert (p[i], p[j]) in edges;
      } else {
        assert r[i] == q[j - |p|] && r[j] == q[j - |p| + 1];
        assert (q[j - |p|], q[j - |p| + 1]) in edges;
      }
    }
    assert WalkBetween(edges, r, a, c);
  }

  // ---- Counting ----

  lemma {:induction false} DistinctFits(group: seq<Node>, part: seq<Node>)
    requires Distinct(part) && forall n :: n in part ==> n in group
    ensures |part| <= |group|
  {
    var a, b := Elements(part), Elements(group);
    DistinctCount(part);
    SetCount(group);
    assert a <= b;
    SubsetCount(a, b);
  }

  lemma {:induction false} DistinctCount(s: seq<Node>)
    requires Distinct(s)
    ensures |Elements(s)| == |s|
  {
    if s != [] {
      var k := |s| - 1;
      DistinctCount(s[..k]);
      assert Elements(s) == Elements(s[..k]) + {s[k]};
      assert s[k] !in s[..k];
    }
  }

  lemma {:induction false} SetCount(s: seq<Node>)
    ensures |Elements(s)| <= |s|
  {
    if s != [] {
      var k := |s| - 1;
      SetCount(s[..k]);
      assert Elements(s) == Elements(s[..k]) + {s[k]};
    }
  }

  lemma {:induction false} SubsetCount<T>(a: set<T>, b: set<T>)
    requires a <= b
    ensures |a| <= |b|
  {
    assert b == a + (b - a);
    assert |b| == |a| + |b - a|;
  }
}
