/**
 The order of the nodes within each layer: `_order_layers` of
 app/application/graph_layout.py:162-182.  The barycentre sweeps are a heuristic
 against crossing edges; the rest of the layout relies on their only permuting
 each layer.
 */
module LayerOrder {
  import opened Graphs

  const SWEEPS := 4

  /** Sort keys: the barycentre, then the current position. */
  type Key = (real, int)

  predicate KeyLess(a: Key, b: Key) {
    a.0 < b.0 || (a.0 == b.0 && a.1 < b.1)
  }

  ghost predicate SortedByKey(s: seq<Node>, key: map<Node, Key>)
    requires forall n :: n in s ==> n in key
  {
    forall i, j :: 0 <= i < j < |s| ==> !KeyLess(key[s[j]], key[s[i]])
  }

  ghost predicate Permutes(a: seq<Node>, b: seq<Node>) {
    multiset(a) == multiset(b)
  }

  lemma PermutesSame(a: seq<Node>, b: seq<Node>)
    requires Permutes(a, b)
    ensures |a| == |b|
    ensures forall n :: n in a <==> n in b
    ensures Distinct(b) ==> Distinct(a)
  {
    assert |multiset(a)| == |a| && |multiset(b)| == |b|;
    forall n
      ensures n in a <==> n in b
    {
      assert n in a <==> n in multiset(a);
      assert n in b <==> n in multiset(b);
    }
    if Distinct(b) {
      forall i, j | 0 <= i < j < |a|
        ensures a[i] != a[j]
      {
        OnceEach(b, a[i]);
        TwiceCounts(a, i, j);
      }
    }
  }

  lemma {:induction false} OnceEach(s: seq<Node>, n: Node)
    requires Distinct(s)
    ensures multiset(s)[n] <= 1
  {
    if s != [] {
      var k := |s| - 1;
      OnceEach(s[..k], n);
      assert s == s[..k] + [s[k]];
      if n == s[k] {
        assert n !in s[..k];
      }
    }
  }

  lemma TwiceCounts(s: seq<Node>, i: nat, j: nat)
    requires i < j < |s|
    ensures s[i] == s[j] ==> multiset(s)[s[i]] >= 2
  {
    assert s == s[..i] + [s[i]] + s[i + 1..j] + [s[j]] + s[j + 1..];
  }

  lemma KeyOrder(a: Key, b: Key, c: Key)
    ensures !KeyLess(b, a) && !KeyLess(c, b) ==> !KeyLess(c, a)
    ensures KeyLess(a, b) ==> !KeyLess(b, a)
  {
  }

  lemma InsertedIsSorted(sorted: seq<Node>, key: map<Node, Key>, n: Node, at: nat)
    requires n in key && forall m :: m in sorted ==> m in key
    requires SortedByKey(sorted, key) && at <= |sorted|
    requires at > 0 ==> !KeyLess(key[n], key[sorted[at - 1]])
    requires forall k :: at <= k < |sorted| ==> KeyLess(key[n], key[sorted[k]])
    ensures SortedByKey(sorted[..at] + [n] + sorted[at..], key)
  {
    hide KeyLess;
    var r := sorted[..at] + [n] + sorted[at..];
    forall i, j | 0 <= i < j < |r|
      ensures !KeyLess(key[r[j]], key[r[i]])
    {
      if j < at {
        assert r[i] == sorted[i] && r[j] == sorted[j];
      } else if i > at {
        assert r[i] == sorted[i - 1] && r[j] == sorted[j - 1];
      } else if i == at {
        assert r[i] == n && r[j] == sorted[j - 1];
        KeyOrder(key[n], key[r[j]], key[n]);
      } else {
        assert r[i] == sorted[i] && !KeyLess(key[sorted[at - 1]], key[r[i]]) by {
          KeyOrder(key[r[i]], key[r[i]], key[r[i]]);
        }
        KeyOrder(key[r[i]], key[sorted[at - 1]], key[n]);
        if j > at {
          assert r[j] == sorted[j - 1];
          KeyOrder(key[n], key[r[j]], key[n]);
          KeyOrder(key[r[i]], key[n], key[r[j]]);
        }
      }
    }
  }

  /** A sorted list with one more node put in its place. */
  method Insert(sorted: seq<Node>, key: map<Node, Key>, n: Node) returns (r: seq<Node>)
    requires n in key && forall m :: m in sorted ==> m in key
    requires SortedByKey(sorted, key)
    ensures Permutes(r, sorted + [n])
    ensures forall m :: m in r ==> m in key
    ensures SortedByKey(r, key)
  {
    hide KeyLess;
    var at := |sorted|;
    while at > 0 && KeyLess(key[n], key[sorted[at - 1]])
      invariant 0 <= at <= |sorted|
      invariant forall k :: at <= k < |sorted| ==> KeyLess(key[n], key[sorted[k]])
    {
      at := at - 1;
    }
    InsertedIsSorted(sorted, key, n, at);
    assert sorted == sorted[..at] + sorted[at..];
    r := sorted[..at] + [n] + sorted[at..];
  }

  /** `list.sort(key=...)` */
  method SortBy(nodes: seq<Node>, key: map<Node, Key>) returns (r: seq<Node>)
    requires forall n :: n in nodes ==> n in key
    ensures Permutes(r, nodes)
    ensures forall m :: m in r ==> m in key
    ensures SortedByKey(r, key)
  {
    r := [];
    for i := 0 to |nodes|
      invariant Permutes(r, nodes[..i])
      invariant forall m :: m in r ==> m in key
      invariant SortedByKey(r, key)
    {
      assert nodes[..i + 1] == nodes[..i] + [nodes[i]];
      r := Insert(r, key, nodes[i]);
    }
    assert nodes[..|nodes|] == nodes;
  }

  ghost predicate IsAt(layer: seq<Node>, n: Node, i: int) {
    0 <= i < |layer| && layer[i] == n
  }

  /** `{n: i for i, n in enumerate(layer)}` */
  method Enumerate(layer: seq<Node>) returns (rank: map<Node, int>)
    ensures forall n :: n in rank <==> n in layer
    ensures forall n :: n in rank ==> 0 <= rank[n] < |layer| && layer[rank[n]] == n
  {
    rank := map[];
    for i := 0 to |layer|
      invariant forall n :: n in rank <==> n in layer[..i]
      invariant forall n :: n in rank ==> 0 <= rank[n] < |layer| && layer[rank[n]] == n
    {
      assert layer[..i + 1] == layer[..i] + [layer[i]];
      rank := rank[layer[i] := i];
    }
    assert layer[..|layer|] == layer;
  }

  /** The positions of the nodes in the two layers next to layer k, the one after it counting first. */
  ghost predicate IsRanks(layers: seq<seq<Node>>, k: nat, rank: map<Node, int>)
    requires k < |layers|
  {
    && (forall n :: n in rank <==> (k > 0 && n in layers[k - 1]) || (k + 1 < |layers| && n in layers[k + 1]))
    && forall n :: n in rank ==>
         if k + 1 < |layers| && n in layers[k + 1] then 0 <= rank[n] < |layers[k + 1]| && layers[k + 1][rank[n]] == n
         else k > 0 && 0 <= rank[n] < |layers[k - 1]| && layers[k - 1][rank[n]] == n
  }

  /** Positions of the nodes in the two adjacent layers. */
  method Ranks(layers: seq<seq<Node>>, k: nat) returns (rank: map<Node, int>)
    requires k < |layers|
    ensures IsRanks(layers, k, rank)
  {
    rank := map[];
    if k > 0 {
      rank := Enumerate(layers[k - 1]);
    }
    if k + 1 < |layers| {
      var after := Enumerate(layers[k + 1]);
      rank := rank + after;
    }
  }

  /** The ranks of those neighbours that have one. */
  function Seen(neighbours: seq<Node>, rank: map<Node, int>): seq<int> {
    if neighbours == [] then []
    else
      var k := |neighbours| - 1;
      Seen(neighbours[..k], rank) + if neighbours[k] in rank then [rank[neighbours[k]]] else []
  }

  function Total(s: seq<int>): int {
    if s == [] then 0 else Total(s[..|s| - 1]) + s[|s| - 1]
  }

  /** The ranks seen are those of the neighbours in turn, and their total is their sum. */
  lemma {:induction false} SeenInTurn(neighbours: seq<Node>, more: seq<Node>, rank: map<Node, int>)
    ensures Seen(neighbours + more, rank) == Seen(neighbours, rank) + Seen(more, rank)
  {
    if more == [] {
      assert neighbours + more == neighbours;
      SeenFew(neighbours, rank);
    } else {
      var k := |more| - 1;
      SeenInTurn(neighbours, more[..k], rank);
      assert (neighbours + more)[..|neighbours + more| - 1] == neighbours + more[..k];
      SeenLast(neighbours + more, rank);
      SeenLast(more, rank);
    }
  }

  lemma SeenLast(neighbours: seq<Node>, rank: map<Node, int>)
    requires neighbours != []
    ensures var n := neighbours[|neighbours| - 1];
            Seen(neighbours, rank) == Seen(neighbours[..|neighbours| - 1], rank) + if n in rank then [rank[n]] else []
  {
  }

  lemma SeenFew(neighbours: seq<Node>, rank: map<Node, int>)
    ensures Seen([], rank) == []
    ensures |neighbours| == 1 ==> Seen(neighbours, rank) == if neighbours[0] in rank then [rank[neighbours[0]]] else []
  {
  }

  lemma {:induction false} TotalIsSum(s: seq<int>, t: seq<int>)
    ensures Total(s + t) == Total(s) + Total(t)
    ensures forall i: int :: Total([i]) == i
  {
    assert forall i: int :: [i][..0] == [];
    if t == [] {
      assert s + t == s;
    } else {
      var k := |t| - 1;
      TotalIsSum(s, t[..k]);
      assert (s + t)[..|s| + k] == s + t[..k];
    }
  }

  /** The average rank of the neighbours that have one, or where the node is now. */
  method Barycentre(neighbours: seq<Node>, rank: map<Node, int>, current: int) returns (b: real)
    ensures IsBarycentre(b, neighbours, rank, current)
  {
    var total, count := 0, 0;
    for i := 0 to |neighbours|
      invariant count == |Seen(neighbours[..i], rank)| && total == Total(Seen(neighbours[..i], rank))
    {
      ghost var before := Seen(neighbours[..i], rank);
      assert neighbours[..i + 1][..i] == neighbours[..i];
      if neighbours[i] in rank {
        assert (before + [rank[neighbours[i]]])[..|before|] == before;
        total := total + rank[neighbours[i]];
        count := count + 1;
      } else {
        assert before + [] == before;
      }
    }
    assert neighbours[..|neighbours|] == neighbours;
    b := if count > 0 then total as real / count as real else current as real;
  }

  ghost predicate IsBarycentre(b: real, neighbours: seq<Node>, rank: map<Node, int>, current: int) {
    var seen := Seen(neighbours, rank);
    if seen == [] then b == current as real else b == Total(seen) as real / |seen| as real
  }

  /** Each node of the layer is keyed by its barycentre and its position. */
  ghost predicate IsKeys(key: map<Node, Key>, nodes: seq<Node>, rank: map<Node, int>, neighbours: map<Node, seq<Node>>)
    requires forall n :: n in nodes ==> n in neighbours
  {
    && (forall n :: n in key <==> n in nodes)
    && (forall n :: n in key ==> IsBarycentre(key[n].0, neighbours[n], rank, key[n].1))
    && (forall n :: n in key ==> 0 <= key[n].1 < |nodes| && nodes[key[n].1] == n)
  }

  /** By barycentre, equal ones by position; a node that comes again comes next. */
  ghost predicate InKeyOrder(r: seq<Node>, key: map<Node, Key>) {
    && (forall n :: n in r ==> n in key)
    && forall i, j :: 0 <= i < j < |r| && r[i] != r[j] ==>
         key[r[i]].0 < key[r[j]].0 || (key[r[i]].0 == key[r[j]].0 && key[r[i]].1 < key[r[j]].1)
  }

  lemma SortedStrictly(r: seq<Node>, key: map<Node, Key>)
    requires (forall n :: n in r ==> n in key) && SortedByKey(r, key) && OnePerPlace(key)
    ensures InKeyOrder(r, key)
  {
  }

  /** A layer sorted by barycentre, equal ones staying in the order they had. */
  method ReorderLayer(nodes: seq<Node>, rank: map<Node, int>, neighbours: map<Node, seq<Node>>)
    returns (r: seq<Node>, ghost key: map<Node, Key>)
    requires forall n :: n in nodes ==> n in neighbours
    ensures Permutes(r, nodes)
    ensures IsKeys(key, nodes, rank, neighbours) && InKeyOrder(r, key) && OnePerPlace(key)
    ensures (forall n :: n in r ==> n in key) && SortedByKey(r, key)
  {
    hide IsBarycentre;
    var keys: map<Node, Key> := map[];
    for i := 0 to |nodes|
      invariant forall n :: n in keys <==> n in nodes[..i]
      invariant forall n :: n in keys ==> IsBarycentre(keys[n].0, neighbours[n], rank, keys[n].1)
      invariant forall n :: n in keys ==> 0 <= keys[n].1 < |nodes| && nodes[keys[n].1] == n
    {
      assert nodes[..i + 1] == nodes[..i] + [nodes[i]];
      var b := Barycentre(neighbours[nodes[i]], rank, i);
      keys := keys[nodes[i] := (b, i)];
    }
    assert nodes[..|nodes|] == nodes;
    key := keys;
    r := SortBy(nodes, keys);
    SortedStrictly(r, key);
  }

  ghost predicate OnePerPlace(key: map<Node, Key>) {
    forall n, m :: n in key && m in key && n != m ==> key[n].1 != key[m].1
  }

  /** Keys with different positions leave one way to sort a layer. */
  lemma {:induction false} SortedIsUnique(a: seq<Node>, b: seq<Node>, key: map<Node, Key>)
    requires Permutes(a, b) && (forall n :: n in a ==> n in key) && (forall n :: n in b ==> n in key)
    requires OnePerPlace(key)
    requires SortedByKey(a, key) && SortedByKey(b, key)
    ensures a == b
    decreases |a|
  {
    assert |multiset(a)| == |a| && |multiset(b)| == |b|;
    if a != [] {
      var k := |a| - 1;
      LastSame(a, b, key);
      SameFronts(a, b);
      hide Permutes, KeyLess, OnePerPlace;
      assert (forall n :: n in a[..k] ==> n in a) && (forall n :: n in b[..k] ==> n in b);
      SortedIsUnique(a[..k], b[..k], key);
      assert a == a[..k] + [a[k]] && b == b[..k] + [b[k]];
    }
  }

  lemma SameFronts(a: seq<Node>, b: seq<Node>)
    requires Permutes(a, b) && a != [] && |a| == |b| && a[|a| - 1] == b[|b| - 1]
    ensures Permutes(a[..|a| - 1], b[..|b| - 1])
  {
    var k := |a| - 1;
    assert a == a[..k] + [a[k]] && b == b[..k] + [a[k]];
    assert multiset(a) == multiset(a[..k]) + multiset{a[k]};
    assert multiset(b) == multiset(b[..k]) + multiset{a[k]};
    assert multiset(a[..k]) == multiset(a) - multiset{a[k]};
    assert multiset(b[..k]) == multiset(b) - multiset{a[k]};
  }

  lemma LastSame(a: seq<Node>, b: seq<Node>, key: map<Node, Key>)
    requires Permutes(a, b) && a != [] && |a| == |b|
    requires (forall n :: n in a ==> n in key) && (forall n :: n in b ==> n in key)
    requires OnePerPlace(key)
    requires SortedByKey(a, key) && SortedByKey(b, key)
    ensures a[|a| - 1] == b[|b| - 1]
  {
    LastIsGreatest(a, b, key);
    LastIsGreatest(b, a, key);
  }

  lemma LastIsGreatest(s: seq<Node>, t: seq<Node>, key: map<Node, Key>)
    requires Permutes(s, t) && s != [] && |s| == |t|
    requires (forall m :: m in s ==> m in key) && (forall m :: m in t ==> m in key) && SortedByKey(s, key)
    ensures !KeyLess(key[s[|s| - 1]], key[t[|t| - 1]])
  {
    var n := t[|t| - 1];
    assert n in multiset(t);
    assert n in multiset(s);
    var i :| 0 <= i < |s| && s[i] == n;
    KeyOrder(key[n], key[n], key[n]);
  }

  /** From one state to the next, layer k is put into the order of its barycentres, and the others stay. */
  ghost predicate Reordered(before: seq<seq<Node>>, after: seq<seq<Node>>, k: int, neighbours: map<Node, seq<Node>>) {
    && 0 <= k < |before| == |after| && after == before[k := after[k]]
    && (forall n :: n in before[k] ==> n in neighbours)
    && Permutes(after[k], before[k])
    && exists rank, key ::
         IsRanks(before, k, rank) && IsKeys(key, before[k], rank, neighbours) && InKeyOrder(after[k], key)
  }

  /** Which layer a sweep comes to after t others: odd sweeps go backwards. */
  ghost function Turn(layers: nat, sweep: nat, t: nat): int {
    if sweep % 2 == 0 then t else layers - 1 - t
  }

  /** `states` are the layers before, during and after one sweep. */
  ghost predicate IsSweep(states: seq<seq<seq<Node>>>, sweep: nat, fpred: map<Node, seq<Node>>, fsucc: map<Node, seq<Node>>) {
    states != [] && forall t :: 0 <= t < |states| - 1 ==> SweepStep(states, sweep, fpred, fsucc, t)
  }

  ghost predicate SweepStep(states: seq<seq<seq<Node>>>, sweep: nat, fpred: map<Node, seq<Node>>, fsucc: map<Node, seq<Node>>, t: nat)
    requires t + 1 < |states|
  {
    && |states[t]| == |states[0]|
    && Reordered(states[t], states[t + 1], Turn(|states[0]|, sweep, t), if sweep % 2 == 0 then fpred else fsucc)
  }

  /** `sweeps` starts from the layers, and each next state comes from the one before by one sweep over all of them. */
  ghost predicate AreSweeps(sweeps: seq<seq<seq<Node>>>, layers: seq<seq<Node>>, fpred: map<Node, seq<Node>>, fsucc: map<Node, seq<Node>>) {
    && sweeps != [] && sweeps[0] == layers
    && forall i :: 0 <= i < |sweeps| - 1 ==> Swept(sweeps, layers, fpred, fsucc, i)
  }

  ghost predicate Swept(sweeps: seq<seq<seq<Node>>>, layers: seq<seq<Node>>, fpred: map<Node, seq<Node>>, fsucc: map<Node, seq<Node>>, i: nat)
    requires i + 1 < |sweeps|
  {
    exists states :: |states| == |layers| + 1 && states[0] == sweeps[i] && states[|layers|] == sweeps[i + 1]
                     && |sweeps[i]| == |layers| && IsSweep(states, i, fpred, fsucc)
  }

  lemma SweepGoesOn(states: seq<seq<seq<Node>>>, sweep: nat, fpred: map<Node, seq<Node>>, fsucc: map<Node, seq<Node>>, after: seq<seq<Node>>)
    requires IsSweep(states, sweep, fpred, fsucc) && |states[|states| - 1]| == |states[0]|
    requires Reordered(states[|states| - 1], after, Turn(|states[0]|, sweep, |states| - 1), if sweep % 2 == 0 then fpred else fsucc)
    ensures IsSweep(states + [after], sweep, fpred, fsucc)
  {
    hide Reordered;
    var more := states + [after];
    forall t | 0 <= t < |more| - 1 ensures SweepStep(more, sweep, fpred, fsucc, t) {
      assert more[t] == states[t];
      if t + 1 < |states| {
        assert SweepStep(states, sweep, fpred, fsucc, t);
      }
    }
  }

  lemma SweepsGoOn(sweeps: seq<seq<seq<Node>>>, layers: seq<seq<Node>>, fpred: map<Node, seq<Node>>, fsucc: map<Node, seq<Node>>,
                   states: seq<seq<seq<Node>>>)
    requires AreSweeps(sweeps, layers, fpred, fsucc)
    requires |states| == |layers| + 1 && states[0] == sweeps[|sweeps| - 1] && |states[0]| == |layers|
    requires IsSweep(states, |sweeps| - 1, fpred, fsucc)
    ensures AreSweeps(sweeps + [states[|layers|]], layers, fpred, fsucc)
  {
    hide IsSweep;
    var more := sweeps + [states[|layers|]];
    forall i | 0 <= i < |more| - 1 ensures Swept(more, layers, fpred, fsucc, i) {
      assert more[i] == sweeps[i];
      if i + 1 < |sweeps| {
        assert Swept(sweeps, layers, fpred, fsucc, i);
      }
    }
  }

  /** `_order_layers`: alternating sweeps, each reordering every layer in place. */
  method OrderLayers(layers: seq<seq<Node>>, fpred: map<Node, seq<Node>>, fsucc: map<Node, seq<Node>>)
    returns (out: seq<seq<Node>>, ghost sweeps: seq<seq<seq<Node>>>)
    requires forall k, n :: 0 <= k < |layers| && n in layers[k] ==> n in fpred && n in fsucc
    ensures |out| == |layers|
    ensures forall k :: 0 <= k < |out| ==> Permutes(out[k], layers[k])
    ensures AreSweeps(sweeps, layers, fpred, fsucc) && |sweeps| == SWEEPS + 1 && out == sweeps[SWEEPS]
  {
    hide IsSweep, Swept, Reordered, IsRanks, IsKeys, InKeyOrder, SortedByKey;
    out := layers;
    sweeps := [layers];
    for sweep := 0 to SWEEPS
      invariant |out| == |layers|
      invariant forall k :: 0 <= k < |out| ==> Permutes(out[k], layers[k])
      invariant AreSweeps(sweeps, layers, fpred, fsucc) && |sweeps| == sweep + 1 && out == sweeps[sweep]
    {
      ghost var states := [out];
      NoSteps(out, sweep, fpred, fsucc);
      for t := 0 to |out|
        invariant |out| == |layers|
        invariant forall k :: 0 <= k < |out| ==> Permutes(out[k], layers[k])
        invariant |states| == t + 1 && states[0] == sweeps[sweep] && out == states[t] && IsSweep(states, sweep, fpred, fsucc)
      {
        var k := if sweep % 2 == 1 then |out| - 1 - t else t;
        PermutesSame(out[k], layers[k]);
        var neighbours := if sweep % 2 == 0 then fpred else fsucc;
        var rank := Ranks(out, k);
        var reordered, key := ReorderLayer(out[k], rank, neighbours);
        ReorderedBy(out, k, reordered, rank, key, neighbours);
        SweepGoesOn(states, sweep, fpred, fsucc, out[k := reordered]);
        out := out[k := reordered];
        states := states + [out];
      }
      SweepsGoOn(sweeps, layers, fpred, fsucc, states);
      sweeps := sweeps + [out];
    }
  }

  lemma NoSteps(layers: seq<seq<Node>>, sweep: nat, fpred: map<Node, seq<Node>>, fsucc: map<Node, seq<Node>>)
    ensures IsSweep([layers], sweep, fpred, fsucc)
  {
  }

  lemma ReorderedBy(layers: seq<seq<Node>>, k: nat, r: seq<Node>, rank: map<Node, int>, key: map<Node, Key>,
                    neighbours: map<Node, seq<Node>>)
    requires k < |layers| && (forall n :: n in layers[k] ==> n in neighbours) && Permutes(r, layers[k])
    requires IsRanks(layers, k, rank) && IsKeys(key, layers[k], rank, neighbours) && InKeyOrder(r, key)
    ensures Reordered(layers, layers[k := r], k, neighbours)
  {
    hide IsRanks, IsKeys, InKeyOrder, Permutes;
  }

  // ---- The order is determined ----

  ghost predicate AllDistinct(layers: seq<seq<Node>>) {
    forall k :: 0 <= k < |layers| ==> Distinct(layers[k])
  }

  lemma RanksAreUnique(layers: seq<seq<Node>>, k: nat, a: map<Node, int>, b: map<Node, int>)
    requires k < |layers| && AllDistinct(layers) && IsRanks(layers, k, a) && IsRanks(layers, k, b)
    ensures a == b
  {
    assert a.Keys == b.Keys;
    forall n | n in a ensures a[n] == b[n] {
      assert n in b;
    }
  }

  lemma KeysAreUnique(a: map<Node, Key>, b: map<Node, Key>, nodes: seq<Node>, rank: map<Node, int>, neighbours: map<Node, seq<Node>>)
    requires Distinct(nodes) && forall n :: n in nodes ==> n in neighbours
    requires IsKeys(a, nodes, rank, neighbours) && IsKeys(b, nodes, rank, neighbours)
    ensures a == b && OnePerPlace(a)
  {
    assert a.Keys == b.Keys;
    forall n | n in a ensures a[n] == b[n] {
      assert n in b && a[n].1 == b[n].1;
      assert a[n] == (a[n].0, a[n].1) && b[n] == (b[n].0, b[n].1);
    }
  }

  lemma InOrderIsSorted(r: seq<Node>, key: map<Node, Key>)
    requires InKeyOrder(r, key)
    ensures SortedByKey(r, key)
  {
  }

  lemma ReorderedIsUnique(before: seq<seq<Node>>, a: seq<seq<Node>>, b: seq<seq<Node>>, k: int, neighbours: map<Node, seq<Node>>)
    requires AllDistinct(before) && Reordered(before, a, k, neighbours) && Reordered(before, b, k, neighbours)
    ensures a == b && AllDistinct(a)
  {
    var r1, k1 :| IsRanks(before, k, r1) && IsKeys(k1, before[k], r1, neighbours) && InKeyOrder(a[k], k1);
    var r2, k2 :| IsRanks(before, k, r2) && IsKeys(k2, before[k], r2, neighbours) && InKeyOrder(b[k], k2);
    RanksAreUnique(before, k, r1, r2);
    KeysAreUnique(k1, k2, before[k], r1, neighbours);
    hide IsRanks, IsKeys;
    InOrderIsSorted(a[k], k1);
    InOrderIsSorted(b[k], k1);
    PermutesSame(a[k], before[k]);
    PermutesSame(b[k], before[k]);
    assert Permutes(a[k], b[k]);
    SortedIsUnique(a[k], b[k], k1);
  }

  lemma {:induction false} SweepIsUnique(a: seq<seq<seq<Node>>>, b: seq<seq<seq<Node>>>, sweep: nat,
                                         fpred: map<Node, seq<Node>>, fsucc: map<Node, seq<Node>>, t: nat)
    requires IsSweep(a, sweep, fpred, fsucc) && IsSweep(b, sweep, fpred, fsucc) && t < |a| && t < |b|
    requires a[0] == b[0] && AllDistinct(a[0])
    ensures a[t] == b[t] && AllDistinct(a[t])
  {
    hide Reordered, AllDistinct;
    if t > 0 {
      SweepIsUnique(a, b, sweep, fpred, fsucc, t - 1);
      assert SweepStep(a, sweep, fpred, fsucc, t - 1) && SweepStep(b, sweep, fpred, fsucc, t - 1);
      ReorderedIsUnique(a[t - 1], a[t], b[t], Turn(|a[0]|, sweep, t - 1), if sweep % 2 == 0 then fpred else fsucc);
    }
  }

  /** With no node twice in a layer, the sweeps can go only one way: the order is a function of the layers and the edges. */
  lemma {:induction false} OrderIsDetermined(a: seq<seq<seq<Node>>>, b: seq<seq<seq<Node>>>, layers: seq<seq<Node>>,
                                             fpred: map<Node, seq<Node>>, fsucc: map<Node, seq<Node>>, i: nat)
    requires AreSweeps(a, layers, fpred, fsucc) && AreSweeps(b, layers, fpred, fsucc) && AllDistinct(layers)
    requires i < |a| && i < |b|
    ensures a[i] == b[i] && AllDistinct(a[i])
  {
    hide IsSweep, AllDistinct;
    if i > 0 {
      OrderIsDetermined(a, b, layers, fpred, fsucc, i - 1);
      assert Swept(a, layers, fpred, fsucc, i - 1) && Swept(b, layers, fpred, fsucc, i - 1);
      var s :| |s| == |layers| + 1 && s[0] == a[i - 1] && s[|layers|] == a[i] && IsSweep(s, i - 1, fpred, fsucc);
      var t :| |t| == |layers| + 1 && t[0] == b[i - 1] && t[|layers|] == b[i] && IsSweep(t, i - 1, fpred, fsucc);
      SweepIsUnique(s, t, i - 1, fpred, fsucc, |layers|);
    }
  }
}
