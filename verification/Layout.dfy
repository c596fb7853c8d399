/**
 Canvas coordinates computed from the graph: `_graph`, `_component_layout` and
 `layout_positions` of app/application/graph_layout.py:53-73, 207-260.
 */
module Layout {
  import opened Graphs
  import opened StepNormalization
  import C = Components
  import D = Depths
  import F = ForwardEdges
  import O = LayerOrder
  import P = Pack
  import R = Rounding

  const NODE_W := 176
  const NODE_H := 44
  const X_STEP := 280
  const Y_STEP := 110
  const ORIGIN_X := 40
  const ORIGIN_Y := 40
  const COMPONENT_GAP := Y_STEP
  const ITERATIONS := 6

  datatype Position = Position(x: int, y: int)

  /** The boxes drawn at the two positions do not overlap. */
  predicate Clear(p: Position, q: Position) {
    p.x - q.x >= NODE_W || q.x - p.x >= NODE_W || p.y - q.y >= NODE_H || q.y - p.y >= NODE_H
  }

  /** What layout actually gives: a full column or a full row apart. */
  predicate Apart(p: Position, q: Position) {
    p.x - q.x >= X_STEP || q.x - p.x >= X_STEP || p.y - q.y >= Y_STEP || q.y - p.y >= Y_STEP
  }

  // ---- The graph ----

  /** `b` is listed after `a` exactly when the normalised steps declare the edge. */
  ghost predicate MirrorsSteps(steps: seq<Entry>, ids: seq<Node>, succ: map<Node, seq<Node>>) {
    && (forall n :: n in ids <==> n in Ids(steps))
    && (forall a :: a in ids ==> a in succ)
    && (forall a, b :: a in ids ==> (b in succ[a] <==> IsDeclaredEdge(Normalized(steps), a, b)))
  }

  /** Step k is the first one with the id. */
  ghost predicate NamedFirst(steps: seq<Entry>, k: nat, n: Node) {
    && k < |steps| && HasId(steps[k]) && steps[k].id == n
    && forall m :: 0 <= m < k && HasId(steps[m]) ==> steps[m].id != n
  }

  /** The ids come in the order of the steps that first have them. */
  ghost predicate InStepOrder(steps: seq<Entry>, ids: seq<Node>) {
    forall i, j, k: nat, l: nat ::
      0 <= i < j < |ids| && NamedFirst(steps, k, ids[i]) && NamedFirst(steps, l, ids[j]) ==> k < l
  }

  lemma SameStepOrder(steps: seq<Entry>, others: seq<Entry>, ids: seq<Node>)
    requires |others| == |steps| && InStepOrder(others, ids)
    requires forall k :: 0 <= k < |steps| ==>
               HasId(others[k]) == HasId(steps[k]) && (HasId(steps[k]) ==> others[k].id == steps[k].id)
    ensures InStepOrder(steps, ids)
  {
    assert forall k: nat, n :: NamedFirst(steps, k, n) ==> NamedFirst(others, k, n);
  }

  lemma NoStepsYet(steps: seq<Entry>)
    ensures InStepOrder(steps, [])
  {
  }

  /** Every id listed so far has its step before i. */
  lemma StepOrderGrows(steps: seq<Entry>, ids: seq<Node>, i: nat)
    requires i < |steps| && HasId(steps[i]) && steps[i].id !in ids && InStepOrder(steps, ids)
    requires forall n :: n in ids <==> exists k :: 0 <= k < i && HasId(steps[k]) && steps[k].id == n
    ensures InStepOrder(steps, ids + [steps[i].id])
  {
    var more := ids + [steps[i].id];
    forall a, b, k: nat, l: nat | 0 <= a < b < |more| && NamedFirst(steps, k, more[a]) && NamedFirst(steps, l, more[b])
      ensures k < l
    {
      if b == |ids| {
        assert more[a] in ids;
        var m :| 0 <= m < i && HasId(steps[m]) && steps[m].id == more[a];
        assert k <= m;
        assert l >= i;
      }
    }
  }

  /** Step ids in array order, first occurrences only. */
  method OrderedIds(steps: seq<Entry>) returns (ids: seq<Node>)
    ensures Distinct(ids) && InStepOrder(steps, ids)
    ensures forall n :: n in ids <==> n in Ids(steps)
  {
    hide InStepOrder;
    NoStepsYet(steps);
    ids := [];
    for i := 0 to |steps|
      invariant Distinct(ids) && InStepOrder(steps, ids)
      invariant forall n :: n in ids <==> exists k :: 0 <= k < i && HasId(steps[k]) && steps[k].id == n
    {
      ghost var before := ids;
      if HasId(steps[i]) && steps[i].id !in ids {
        StepOrderGrows(steps, ids, i);
        ids := ids + [steps[i].id];
      }
      forall n
        ensures n in ids <==> exists k :: 0 <= k < i + 1 && HasId(steps[k]) && steps[k].id == n
      {
        assert n in ids <==> n in before || (HasId(steps[i]) && steps[i].id == n);
      }
    }
    forall n
      ensures n in ids <==> n in Ids(steps)
    {
      if n in Ids(steps) {
        var e :| e in steps && HasId(e) && e.id == n;
        var k :| 0 <= k < |steps| && steps[k] == e;
      }
      if n in ids {
        var k :| 0 <= k < |steps| && HasId(steps[k]) && steps[k].id == n;
        assert steps[k] in steps;
      }
    }
  }

  /** Successor and predecessor lists hold each of the edges seen so far. */
  ghost predicate Listed(ids: seq<Node>, edges: set<Edge>, succ: map<Node, seq<Node>>, pred: map<Node, seq<Node>>) {
    && (forall n :: n in ids ==> n in succ && n in pred)
    && (forall a, b :: a in ids ==> (b in succ[a] <==> (a, b) in edges))
    && (forall a, b :: b in ids ==> (a in pred[b] <==> (a, b) in edges))
  }

  /** No list of a node names another one twice. */
  ghost predicate EachOnce(ids: seq<Node>, lists: map<Node, seq<Node>>) {
    forall n :: n in ids ==> n in lists && Distinct(lists[n])
  }

  lemma OnceMore(ids: seq<Node>, lists: map<Node, seq<Node>>, a: Node, b: Node)
    requires EachOnce(ids, lists) && a in ids && b !in lists[a]
    ensures EachOnce(ids, lists[a := lists[a] + [b]])
  {
  }

  lemma ListOneMore(ids: seq<Node>, edges: set<Edge>, succ: map<Node, seq<Node>>, pred: map<Node, seq<Node>>, a: Node, b: Node)
    requires Listed(ids, edges, succ, pred) && a in ids && b in ids
    ensures Listed(ids, edges + {(a, b)}, succ[a := succ[a] + [b]], pred[b := pred[b] + [a]])
  {
  }

  /** Successor and predecessor lists of an edge set, in whatever order the edges are taken. */
  method NeighbourLists(ids: seq<Node>, edges: set<Edge>) returns (succ: map<Node, seq<Node>>, pred: map<Node, seq<Node>>)
    requires forall a, b :: (a, b) in edges ==> a in ids && b in ids
    ensures Listed(ids, edges, succ, pred) && EachOnce(ids, succ) && EachOnce(ids, pred)
  {
    succ := map n | n in ids :: [];
    pred := map n | n in ids :: [];
    var rest := edges;
    assert edges - rest == {};
    while rest != {}
      invariant rest <= edges
      invariant Listed(ids, edges - rest, succ, pred) && EachOnce(ids, succ) && EachOnce(ids, pred)
      decreases |rest|
    {
      var e :| e in rest;
      assert (e.0, e.1) in edges && (e.0, e.1) !in edges - rest;
      OnceMore(ids, succ, e.0, e.1);
      OnceMore(ids, pred, e.1, e.0);
      ListOneMore(ids, edges - rest, succ, pred, e.0, e.1);
      hide EachOnce, Listed;
      assert edges - (rest - {e}) == edges - rest + {(e.0, e.1)};
      rest := rest - {e};
      succ := succ[e.0 := succ[e.0] + [e.1]];
      pred := pred[e.1 := pred[e.1] + [e.0]];
    }
    assert edges - rest == edges;
  }

  /** `_graph` */
  method Graph(steps: seq<Entry>) returns (ids: seq<Node>, succ: map<Node, seq<Node>>, pred: map<Node, seq<Node>>)
    ensures C.IsGraph(ids, succ, pred)
    ensures MirrorsSteps(steps, ids, succ) && InStepOrder(steps, ids)
  {
    hide InStepOrder;
    var normalized := NormalizeEdges(steps);
    NormalizedKeepsIds(steps);
    ids := OrderedIds(normalized);
    SameStepOrder(steps, normalized, ids);
    var edges := DeclaredEdges(normalized);
    forall a, b | (a, b) in edges
      ensures a in ids && b in ids
    {
    }
    succ, pred := NeighbourLists(ids, edges);
  }

  // ---- One component ----

  /** `layers[d]` holds the nodes of depth d, once each. */
  ghost predicate Layers(layers: seq<seq<Node>>, group: seq<Node>, depth: map<Node, int>) {
    && (forall n :: n in group ==> n in depth && 0 <= depth[n] < |layers|)
    && (forall d, n :: 0 <= d < |layers| ==> (n in layers[d] <==> n in group && depth[n] == d))
    && (forall d :: 0 <= d < |layers| ==> Distinct(layers[d]))
  }

  /** Consecutive nodes of the layer are a full row apart. */
  ghost predicate Spaced(y: map<Node, real>, nodes: seq<Node>)
    requires forall n :: n in nodes ==> n in y
  {
    forall i, j :: 0 <= i < j < |nodes| && j == i + 1 ==> y[nodes[j]] - y[nodes[i]] >= Y_STEP as real
  }

  ghost predicate AllSpaced(y: map<Node, real>, layers: seq<seq<Node>>, group: seq<Node>, depth: map<Node, int>)
    requires Layers(layers, group, depth)
    requires forall n :: n in group ==> n in y
  {
    forall d :: 0 <= d < |layers| ==> Spaced(y, layers[d])
  }

  lemma {:induction false} SpacedApart(y: map<Node, real>, nodes: seq<Node>, i: nat, j: nat)
    requires forall n :: n in nodes ==> n in y
    requires Spaced(y, nodes) && i < j < |nodes|
    ensures y[nodes[j]] - y[nodes[i]] >= Y_STEP as real
    decreases j
  {
    assert y[nodes[j]] - y[nodes[j - 1]] >= Y_STEP as real;
    if i < j - 1 {
      SpacedApart(y, nodes, i, j - 1);
    }
  }

  /** Nodes collected by depth; a missing layer is an empty one until it gets its first node. */
  method CollectLayers(group: seq<Node>, depth: map<Node, int>) returns (layers: seq<seq<Node>>)
    requires Distinct(group)
    requires forall n :: n in group ==> n in depth && depth[n] >= 0
    ensures Layers(layers, group, depth)
  {
    hide Layers;
    layers := [];
    NoLayersYet(depth);
    assert group[..0] == [];
    for i := 0 to |group|
      invariant Layers(layers, group[..i], depth)
    {
      var n := group[i];
      while |layers| <= depth[n]
        invariant Layers(layers, group[..i], depth)
      {
        LayersGrow(layers, group[..i], depth);
        layers := layers + [[]];
      }
      assert group[..i + 1] == group[..i] + [n];
      assert n !in group[..i];
      LayersPut(layers, group[..i], depth, n);
      layers := layers[depth[n] := layers[depth[n]] + [n]];
    }
    assert group[..|group|] == group;
  }

  lemma NoLayersYet(depth: map<Node, int>)
    ensures Layers([], [], depth)
  {
  }

  lemma LayersGrow(layers: seq<seq<Node>>, group: seq<Node>, depth: map<Node, int>)
    requires Layers(layers, group, depth)
    ensures Layers(layers + [[]], group, depth)
  {
  }

  lemma LayersPut(layers: seq<seq<Node>>, group: seq<Node>, depth: map<Node, int>, n: Node)
    requires Layers(layers, group, depth) && n !in group
    requires n in depth && 0 <= depth[n] < |layers|
    ensures Layers(layers[depth[n] := layers[depth[n]] + [n]], group + [n], depth)
  {
  }

  lemma PermutedLayers(layers: seq<seq<Node>>, reordered: seq<seq<Node>>, group: seq<Node>, depth: map<Node, int>)
    requires Layers(layers, group, depth) && |reordered| == |layers|
    requires forall k :: 0 <= k < |reordered| ==> O.Permutes(reordered[k], layers[k])
    ensures Layers(reordered, group, depth)
  {
    forall k | 0 <= k < |reordered|
      ensures Distinct(reordered[k]) && forall n :: n in reordered[k] <==> n in layers[k]
    {
      O.PermutesSame(reordered[k], layers[k]);
    }
  }

  lemma LayersApart(layers: seq<seq<Node>>, group: seq<Node>, depth: map<Node, int>, k: nat, d: nat)
    requires Layers(layers, group, depth) && k < |layers| && d < |layers| && k != d
    ensures forall n :: n in layers[k] ==> n in group && n !in layers[d]
  {
    forall n | n in layers[k]
      ensures n in group && n !in layers[d]
    {
      assert depth[n] == k;
    }
  }

  /** Initial rows: the i-th node of a layer starts on row i. */
  method InitialRows(layers: seq<seq<Node>>, group: seq<Node>, depth: map<Node, int>) returns (y: map<Node, real>)
    requires Layers(layers, group, depth)
    ensures forall n :: n in group ==> n in y
    ensures AllSpaced(y, layers, group, depth)
    ensures forall k :: 0 <= k < |layers| ==> OnRows(layers[k], y)
  {
    y := map n | n in group :: 0.0;
    for d := 0 to |layers|
      invariant forall n :: n in group ==> n in y
      invariant forall k :: 0 <= k < d ==> Spaced(y, layers[k]) && OnRows(layers[k], y)
    {
      var rows := seq(|layers[d]|, i => i as real * Y_STEP as real);
      assert forall i, j :: 0 <= i < j < |rows| && j == i + 1 ==> rows[j] - rows[i] >= Y_STEP as real;
      ghost var before := y;
      y := PlaceLayer(layers, group, depth, y, d, rows);
      forall k | 0 <= k < d
        ensures OnRows(layers[k], y)
      {
        LayersApart(layers, group, depth, k, d);
        assert OnRows(layers[k], before);
      }
    }
  }

  /** The i-th node is on row i. */
  ghost predicate OnRows(nodes: seq<Node>, y: map<Node, real>) {
    forall i :: 0 <= i < |nodes| ==> nodes[i] in y && y[nodes[i]] == i as real * Y_STEP as real
  }

  /** `for node, value in zip(nodes, ...): y[node] = value`: the other layers stay where they are. */
  method PlaceLayer(layers: seq<seq<Node>>, group: seq<Node>, depth: map<Node, int>,
                    y: map<Node, real>, d: nat, rows: seq<real>) returns (y': map<Node, real>)
    requires Layers(layers, group, depth) && d < |layers| && |rows| == |layers[d]|
    requires forall n :: n in group ==> n in y
    requires P.Separated(rows, Y_STEP as real)
    ensures forall n :: n in group ==> n in y'
    ensures Spaced(y', layers[d])
    ensures forall i :: 0 <= i < |rows| ==> y'[layers[d][i]] == rows[i]
    ensures forall n :: n in group && n !in layers[d] ==> y'[n] == y[n]
    ensures forall k :: 0 <= k < |layers| && k != d && Spaced(y, layers[k]) ==> Spaced(y', layers[k])
  {
    y' := y;
    var nodes := layers[d];
    for i := 0 to |nodes|
      invariant forall n :: n in group ==> n in y'
      invariant forall k :: 0 <= k < i ==> y'[nodes[k]] == rows[k]
      invariant forall n :: n in group && n !in nodes ==> y'[n] == y[n]
    {
      assert nodes[i] in nodes;
      y' := y'[nodes[i] := rows[i]];
    }
    forall k | 0 <= k < |layers| && k != d && Spaced(y, layers[k])
      ensures Spaced(y', layers[k])
    {
      LayersApart(layers, group, depth, k, d);
    }
  }

  function RowSum(nodes: seq<Node>, y: map<Node, real>): real
    requires forall n :: n in nodes ==> n in y
  {
    if nodes == [] then 0.0 else RowSum(nodes[..|nodes| - 1], y) + y[nodes[|nodes| - 1]]
  }

  function Average(nodes: seq<Node>, y: map<Node, real>): real
    requires nodes != [] && forall n :: n in nodes ==> n in y
  {
    RowSum(nodes, y) / |nodes| as real
  }

  /** The average of the neighbours' rows, or the node's own row when it has none. */
  method Anchor(node: Node, neighbours: seq<Node>, y: map<Node, real>) returns (want: real)
    requires node in y && forall n :: n in neighbours ==> n in y
    ensures want == if neighbours != [] then Average(neighbours, y) else y[node]
  {
    var total := 0.0;
    for i := 0 to |neighbours|
      invariant total == RowSum(neighbours[..i], y)
    {
      assert neighbours[..i + 1][..i] == neighbours[..i];
      total := total + y[neighbours[i]];
    }
    assert neighbours[..|neighbours|] == neighbours;
    want := if neighbours != [] then total / |neighbours| as real else y[node];
  }

  function Rows(nodes: seq<Node>, y: map<Node, real>): (rows: seq<real>)
    requires forall n :: n in nodes ==> n in y
    ensures |rows| == |nodes| && forall i :: 0 <= i < |rows| ==> rows[i] == y[nodes[i]]
  {
    seq(|nodes|, i requires 0 <= i < |nodes| => y[nodes[i]])
  }

  /** The average of the neighbours' rows in `y`, or the row a node without any has in `own`. */
  function Wish(n: Node, neighbours: seq<Node>, y: map<Node, real>, own: map<Node, real>): real
    requires n in own && forall m :: m in neighbours ==> m in y
  {
    if neighbours != [] then Average(neighbours, y) else own[n]
  }

  ghost predicate WishesFor(nodes: seq<Node>, fsucc: map<Node, seq<Node>>, y: map<Node, real>, own: map<Node, real>,
                            desired: seq<real>)
    requires forall n :: n in nodes ==> n in own && n in fsucc && forall m :: m in fsucc[n] ==> m in y
  {
    |desired| == |nodes| && forall i :: 0 <= i < |nodes| ==> desired[i] == Wish(nodes[i], fsucc[nodes[i]], y, own)
  }

  /** The layer is the closest separated arrangement to its successors' averages, and to their own rows for the others. */
  ghost predicate Centred(nodes: seq<Node>, fsucc: map<Node, seq<Node>>, y: map<Node, real>, own: map<Node, real>)
    requires forall n :: n in nodes ==> n in y && n in own && n in fsucc && forall m :: m in fsucc[n] ==> m in y
  {
    exists desired :: WishesFor(nodes, fsucc, y, own, desired) && P.ClosestSeparated(Rows(nodes, y), desired, Y_STEP as real)
  }

  lemma {:induction false} RowSumSame(nodes: seq<Node>, y: map<Node, real>, y': map<Node, real>)
    requires forall n :: n in nodes ==> n in y && n in y' && y[n] == y'[n]
    ensures RowSum(nodes, y) == RowSum(nodes, y')
  {
    if nodes != [] {
      RowSumSame(nodes[..|nodes| - 1], y, y');
    }
  }

  /** Rows pass between layers along the neighbour lists, which stay in the group and go one way in depth. */
  ghost predicate NeighboursFit(group: seq<Node>, depth: map<Node, int>,
                                fpred: map<Node, seq<Node>>, fsucc: map<Node, seq<Node>>)
  {
    && (forall n :: n in group ==> n in fpred && n in fsucc && n in depth)
    && (forall n, m :: n in group && (m in fpred[n] || m in fsucc[n]) ==> m in group)
    && (forall n, m :: n in group && m in fsucc[n] ==> depth[n] < depth[m])
    && (forall n, m :: n in group && m in fpred[n] ==> depth[m] < depth[n])
  }

  /** The neighbours of the group's nodes are in it, and none is in its node's own layer. */
  ghost predicate Across(group: seq<Node>, depth: map<Node, int>, neighbours: map<Node, seq<Node>>) {
    && (forall n :: n in group ==> n in depth && n in neighbours)
    && (forall n, m :: n in group && m in neighbours[n] ==> m in group && depth[n] != depth[m])
  }

  /** The layers from `lo` up to `hi` are packed towards `neighbours`, from the rows in `own`. */
  ghost predicate Packed(layers: seq<seq<Node>>, group: seq<Node>, depth: map<Node, int>, neighbours: map<Node, seq<Node>>,
                         own: map<Node, real>, y: map<Node, real>, lo: int, hi: int)
    requires Layers(layers, group, depth) && Across(group, depth, neighbours)
    requires forall n :: n in group ==> n in y && n in own
  {
    forall k :: 0 <= lo <= k < hi <= |layers| ==> Centred(layers[k], neighbours, y, own)
  }

  /** The neighbours a pass looks at: predecessors in even passes, successors in odd ones. */
  function Facing(step: nat, fpred: map<Node, seq<Node>>, fsucc: map<Node, seq<Node>>): map<Node, seq<Node>> {
    if step % 2 == 0 then fpred else fsucc
  }

  lemma FitsAcross(group: seq<Node>, depth: map<Node, int>, fpred: map<Node, seq<Node>>, fsucc: map<Node, seq<Node>>, step: nat)
    requires NeighboursFit(group, depth, fpred, fsucc)
    ensures Across(group, depth, Facing(step, fpred, fsucc))
  {
  }

  /** The rows after each pass, beginning with the initial ones. */
  ghost predicate Passes(layers: seq<seq<Node>>, group: seq<Node>, depth: map<Node, int>,
                         fpred: map<Node, seq<Node>>, fsucc: map<Node, seq<Node>>, passes: seq<map<Node, real>>)
    requires Layers(layers, group, depth)
    requires Across(group, depth, fpred) && Across(group, depth, fsucc)
  {
    && passes != []
    && (forall i, n :: 0 <= i < |passes| && n in group ==> n in passes[i])
    && (forall k :: 0 <= k < |layers| ==> OnRows(layers[k], passes[0]))
    && forall i, j :: 0 <= i < j < |passes| && j == i + 1 ==>
         Packed(layers, group, depth, Facing(i, fpred, fsucc), passes[i], passes[j], 0, |layers|)
  }

  /** One layer packed towards its neighbours' averages, a node without any towards where it is; all other rows stay. */
  method PackLayer(layers: seq<seq<Node>>, group: seq<Node>, depth: map<Node, int>, neighbours: map<Node, seq<Node>>,
                   y: map<Node, real>, d: nat) returns (y': map<Node, real>, ghost desired: seq<real>)
    requires Layers(layers, group, depth) && d < |layers|
    requires forall n :: n in group ==> n in y && n in neighbours
    requires forall n, m :: n in group && m in neighbours[n] ==> m in group
    requires AllSpaced(y, layers, group, depth)
    ensures forall n :: n in group ==> n in y'
    ensures AllSpaced(y', layers, group, depth)
    ensures forall n :: n in group && n !in layers[d] ==> y'[n] == y[n]
    ensures WishesFor(layers[d], neighbours, y, y, desired)
    ensures P.ClosestSeparated(Rows(layers[d], y'), desired, Y_STEP as real)
  {
    var wants: seq<real> := [];
    for i := 0 to |layers[d]|
      invariant |wants| == i
      invariant forall k :: 0 <= k < i ==> wants[k] == Wish(layers[d][k], neighbours[layers[d][k]], y, y)
    {
      var node := layers[d][i];
      assert node in layers[d];
      var want := Anchor(node, neighbours[node], y);
      wants := wants + [want];
    }
    var rows := P.Pack(wants, Y_STEP as real);
    y' := PlaceLayer(layers, group, depth, y, d, rows);
    assert Rows(layers[d], y') == rows;
    desired := wants;
  }

  lemma PackedLayerIsCentred(layers: seq<seq<Node>>, group: seq<Node>, depth: map<Node, int>, neighbours: map<Node, seq<Node>>,
                             own: map<Node, real>, y: map<Node, real>, y': map<Node, real>,
                             d: nat, lo: nat, hi: nat, desired: seq<real>)
    requires Layers(layers, group, depth) && Across(group, depth, neighbours) && d < |layers|
    requires forall n :: n in group ==> n in y && n in y' && n in own
    requires forall n :: n in group && n !in layers[d] ==> y'[n] == y[n]
    requires forall n :: n in layers[d] ==> y[n] == own[n]
    requires WishesFor(layers[d], neighbours, y, y, desired)
    requires P.ClosestSeparated(Rows(layers[d], y'), desired, Y_STEP as real)
    requires lo <= hi <= |layers| && (d == hi || d == lo - 1)
    requires forall n, m :: n in group && m in neighbours[n] && lo <= depth[n] < hi ==> depth[m] != d
    requires Packed(layers, group, depth, neighbours, own, y, lo, hi)
    ensures Packed(layers, group, depth, neighbours, own, y', if d == hi then lo else d, if d == hi then hi + 1 else hi)
  {
    hide P.ClosestSeparated;
    forall k | lo <= k < hi
      ensures Centred(layers[k], neighbours, y', own)
    {
      CentredRestricted(layers[k], group, neighbours, y, y', own);
    }
    WishesRestricted(layers[d], neighbours, y, y', y, own, desired);
  }

  /** Wishes depend on the rows of the neighbours and the nodes' own rows only. */
  lemma WishesRestricted(nodes: seq<Node>, fsucc: map<Node, seq<Node>>, y: map<Node, real>, y': map<Node, real>,
                         own: map<Node, real>, own': map<Node, real>, desired: seq<real>)
    requires forall n :: n in nodes ==> n in own && n in own' && n in fsucc && own[n] == own'[n]
    requires forall n, m :: n in nodes && m in fsucc[n] ==> m in y && m in y' && y[m] == y'[m]
    requires WishesFor(nodes, fsucc, y, own, desired)
    ensures WishesFor(nodes, fsucc, y', own', desired)
  {
    forall i | 0 <= i < |nodes|
      ensures desired[i] == Wish(nodes[i], fsucc[nodes[i]], y', own')
    {
      RowSumSame(fsucc[nodes[i]], y, y');
    }
  }

  lemma CentredRestricted(nodes: seq<Node>, group: seq<Node>, fsucc: map<Node, seq<Node>>, y: map<Node, real>,
                          y': map<Node, real>, own: map<Node, real>)
    requires forall n :: n in group ==> n in y && n in y' && n in own
    requires forall n :: n in nodes ==> n in group && n in fsucc && forall m :: m in fsucc[n] ==> m in group
    requires Centred(nodes, fsucc, y, own)
    requires forall n :: n in nodes ==> y[n] == y'[n]
    requires forall n, m :: n in nodes && m in fsucc[n] ==> y[m] == y'[m]
    ensures Centred(nodes, fsucc, y', own)
  {
    hide P.ClosestSeparated;
    var desired :| WishesFor(nodes, fsucc, y, own, desired) && P.ClosestSeparated(Rows(nodes, y), desired, Y_STEP as real);
    assert Rows(nodes, y') == Rows(nodes, y);
    WishesRestricted(nodes, fsucc, y, y', own, own, desired);
  }

  /** The layers outside of `lo` to `hi` are where they were. */
  ghost predicate Unpacked(layers: seq<seq<Node>>, group: seq<Node>, depth: map<Node, int>,
                           own: map<Node, real>, y: map<Node, real>, lo: int, hi: int)
    requires Layers(layers, group, depth)
    requires forall n :: n in group ==> n in y && n in own
  {
    forall n :: n in group && !(lo <= depth[n] < hi) ==> y[n] == own[n]
  }

  lemma NothingPacked(layers: seq<seq<Node>>, group: seq<Node>, depth: map<Node, int>, neighbours: map<Node, seq<Node>>,
                      own: map<Node, real>)
    requires Layers(layers, group, depth) && Across(group, depth, neighbours)
    requires forall n :: n in group ==> n in own
    ensures forall k :: Packed(layers, group, depth, neighbours, own, own, k, k)
    ensures forall k :: Unpacked(layers, group, depth, own, own, k, k)
  {
  }

  lemma AsBefore(layers: seq<seq<Node>>, group: seq<Node>, depth: map<Node, int>,
                 own: map<Node, real>, y: map<Node, real>, d: nat, lo: int, hi: int)
    requires Layers(layers, group, depth) && d < |layers| && !(lo <= d < hi)
    requires forall n :: n in group ==> n in y && n in own
    requires Unpacked(layers, group, depth, own, y, lo, hi)
    ensures forall n :: n in layers[d] ==> y[n] == own[n]
  {
  }

  lemma StaysUnpacked(layers: seq<seq<Node>>, group: seq<Node>, depth: map<Node, int>,
                      own: map<Node, real>, y: map<Node, real>, y': map<Node, real>, d: nat, lo: int, hi: int)
    requires Layers(layers, group, depth) && d < |layers| && lo <= hi && (d == hi || d == lo - 1)
    requires forall n :: n in group ==> n in y && n in y' && n in own
    requires forall n :: n in group && n !in layers[d] ==> y'[n] == y[n]
    requires Unpacked(layers, group, depth, own, y, lo, hi)
    ensures Unpacked(layers, group, depth, own, y', if d == hi then lo else d, if d == hi then hi + 1 else hi)
  {
  }

  /** One pass over all layers: left to right over the predecessors, or right to left over the successors. */
  method SettlePass(layers: seq<seq<Node>>, group: seq<Node>, depth: map<Node, int>,
                    fpred: map<Node, seq<Node>>, fsucc: map<Node, seq<Node>>, own: map<Node, real>, step: nat)
    returns (y: map<Node, real>)
    requires Layers(layers, group, depth) && NeighboursFit(group, depth, fpred, fsucc)
    requires Across(group, depth, Facing(step, fpred, fsucc))
    requires forall n :: n in group ==> n in own
    requires AllSpaced(own, layers, group, depth)
    ensures forall n :: n in group ==> n in y
    ensures AllSpaced(y, layers, group, depth)
    ensures Packed(layers, group, depth, Facing(step, fpred, fsucc), own, y, 0, |layers|)
  {
    hide AllSpaced, Packed, Unpacked, P.ClosestSeparated, WishesFor;
    var neighbours := Facing(step, fpred, fsucc);
    NothingPacked(layers, group, depth, neighbours, own);
    y := own;
    for t := 0 to |layers|
      invariant forall n :: n in group ==> n in y
      invariant AllSpaced(y, layers, group, depth)
      invariant var (lo, hi) := if step % 2 == 0 then (0, t) else (|layers| - t, |layers|);
                && Unpacked(layers, group, depth, own, y, lo, hi)
                && Packed(layers, group, depth, neighbours, own, y, lo, hi)
    {
      var d := if step % 2 == 1 then |layers| - 1 - t else t;
      ghost var before := y;
      ghost var desired;
      AsBefore(layers, group, depth, own, y, d, if step % 2 == 0 then 0 else d + 1, if step % 2 == 0 then d else |layers|);
      y, desired := PackLayer(layers, group, depth, neighbours, y, d);
      StaysUnpacked(layers, group, depth, own, before, y, d,
                    if step % 2 == 0 then 0 else d + 1, if step % 2 == 0 then d else |layers|);
      if step % 2 == 0 {
        PackedLayerIsCentred(layers, group, depth, neighbours, own, before, y, d, 0, t, desired);
      } else {
        PackedLayerIsCentred(layers, group, depth, neighbours, own, before, y, d, |layers| - t, |layers|, desired);
      }
    }
  }

  /**
   Six alternating passes, each packing every layer towards its neighbours'
   averages.  The last pass runs right to left over the successors, so it leaves
   every layer centred on the final rows of its successors.
   */
  method SettleRows(layers: seq<seq<Node>>, group: seq<Node>, depth: map<Node, int>,
                    fpred: map<Node, seq<Node>>, fsucc: map<Node, seq<Node>>)
    returns (y: map<Node, real>, ghost passes: seq<map<Node, real>>)
    requires Layers(layers, group, depth) && NeighboursFit(group, depth, fpred, fsucc)
    requires Across(group, depth, fpred) && Across(group, depth, fsucc)
    ensures forall n :: n in group ==> n in y
    ensures AllSpaced(y, layers, group, depth)
    ensures Passes(layers, group, depth, fpred, fsucc, passes) && |passes| == ITERATIONS + 1 && passes[ITERATIONS] == y
  {
    hide Packed, AllSpaced, OnRows;
    y := InitialRows(layers, group, depth);
    passes := [y];
    for step := 0 to ITERATIONS
      invariant forall n :: n in group ==> n in y
      invariant AllSpaced(y, layers, group, depth)
      invariant Passes(layers, group, depth, fpred, fsucc, passes) && |passes| == step + 1 && passes[step] == y
    {
      FitsAcross(group, depth, fpred, fsucc, step);
      y := SettlePass(layers, group, depth, fpred, fsucc, y, step);
      passes := passes + [y];
    }
  }

  // ---- The rows are determined ----

  /** Two arrangements of a layer for the same wishes are the same. */
  lemma LayerIsUnique(nodes: seq<Node>, neighbours: map<Node, seq<Node>>, own: map<Node, real>, own': map<Node, real>,
                      a: map<Node, real>, b: map<Node, real>)
    requires forall n :: n in nodes ==> n in a && n in b && n in own && n in own' && own[n] == own'[n] && n in neighbours
    requires forall n, m :: n in nodes && m in neighbours[n] ==> m in a && m in b && a[m] == b[m]
    requires Centred(nodes, neighbours, a, own) && Centred(nodes, neighbours, b, own')
    ensures forall n :: n in nodes ==> a[n] == b[n]
  {
    hide P.ClosestSeparated;
    var da :| WishesFor(nodes, neighbours, a, own, da) && P.ClosestSeparated(Rows(nodes, a), da, Y_STEP as real);
    var db :| WishesFor(nodes, neighbours, b, own', db) && P.ClosestSeparated(Rows(nodes, b), db, Y_STEP as real);
    WishesRestricted(nodes, neighbours, a, b, own, own', da);
    assert da == db;
    P.ClosestIsUnique(Rows(nodes, a), Rows(nodes, b), da, Y_STEP as real);
    forall n | n in nodes
      ensures a[n] == b[n]
    {
      var i :| 0 <= i < |nodes| && nodes[i] == n;
      assert Rows(nodes, a)[i] == Rows(nodes, b)[i];
    }
  }

  /** The first t layers of a pass, in the order the pass takes them, depend on the rows before it only. */
  lemma {:induction false} PassIsUnique(layers: seq<seq<Node>>, group: seq<Node>, depth: map<Node, int>,
                                        fpred: map<Node, seq<Node>>, fsucc: map<Node, seq<Node>>, step: nat,
                                        own: map<Node, real>, own': map<Node, real>,
                                        a: map<Node, real>, b: map<Node, real>, t: nat)
    requires Layers(layers, group, depth) && NeighboursFit(group, depth, fpred, fsucc) && t <= |layers|
    requires Across(group, depth, Facing(step, fpred, fsucc))
    requires forall n :: n in group ==> n in a && n in b && n in own && n in own' && own[n] == own'[n]
    requires Packed(layers, group, depth, Facing(step, fpred, fsucc), own, a, 0, |layers|)
    requires Packed(layers, group, depth, Facing(step, fpred, fsucc), own', b, 0, |layers|)
    ensures forall n :: n in group && (if step % 2 == 0 then depth[n] < t else depth[n] >= |layers| - t) ==> a[n] == b[n]
  {
    hide Centred;
    if t > 0 {
      PassIsUnique(layers, group, depth, fpred, fsucc, step, own, own', a, b, t - 1);
      var d := if step % 2 == 0 then t - 1 else |layers| - t;
      LayerIsUnique(layers[d], Facing(step, fpred, fsucc), own, own', a, b);
      assert forall n :: n in group && depth[n] == d ==> n in layers[d];
    }
  }

  /** So the rows after every pass, and with them the layout, are a function of the ordered layers. */
  lemma {:induction false} RowsAreDetermined(layers: seq<seq<Node>>, group: seq<Node>, depth: map<Node, int>,
                                             fpred: map<Node, seq<Node>>, fsucc: map<Node, seq<Node>>,
                                             passes: seq<map<Node, real>>, others: seq<map<Node, real>>, i: nat)
    requires Layers(layers, group, depth) && NeighboursFit(group, depth, fpred, fsucc)
    requires Across(group, depth, fpred) && Across(group, depth, fsucc)
    requires Passes(layers, group, depth, fpred, fsucc, passes) && Passes(layers, group, depth, fpred, fsucc, others)
    requires i < |passes| && i < |others|
    ensures forall n :: n in group ==> passes[i][n] == others[i][n]
  {
    hide Packed;
    if i == 0 {
      forall n | n in group
        ensures passes[0][n] == others[0][n]
      {
        var nodes := layers[depth[n]];
        assert OnRows(nodes, passes[0]) && OnRows(nodes, others[0]);
        assert n in nodes;
        var k :| 0 <= k < |nodes| && nodes[k] == n;
      }
    } else {
      RowsAreDetermined(layers, group, depth, fpred, fsucc, passes, others, i - 1);
      PassIsUnique(layers, group, depth, fpred, fsucc, i - 1, passes[i - 1], others[i - 1], passes[i], others[i], |layers|);
    }
  }

  /** `min(y.values())` */
  method Top(group: seq<Node>, y: map<Node, real>) returns (top: real)
    requires group != [] && forall n :: n in group ==> n in y
    ensures forall n :: n in group ==> top <= y[n]
    ensures exists n :: n in group && y[n] == top
  {
    top := y[group[0]];
    for i := 1 to |group|
      invariant forall k :: 0 <= k < i ==> top <= y[group[k]]
      invariant exists k :: 0 <= k < i && y[group[k]] == top
    {
      if y[group[i]] < top {
        top := y[group[i]];
      }
    }
    var k :| 0 <= k < |group| && y[group[k]] == top;
    assert group[k] in group;
  }

  /** Two nodes of one component end up in different columns, or at least a row apart. */
  lemma RowsKeepApart(layers: seq<seq<Node>>, group: seq<Node>, depth: map<Node, int>, y: map<Node, real>, top: real,
                      n: Node, m: Node)
    requires Layers(layers, group, depth) && n in group && m in group && n != m
    requires forall k :: k in group ==> k in y
    requires AllSpaced(y, layers, group, depth) && depth[n] == depth[m]
    ensures R.Round(y[n] - top) - R.Round(y[m] - top) >= Y_STEP || R.Round(y[m] - top) - R.Round(y[n] - top) >= Y_STEP
  {
    var nodes := layers[depth[n]];
    assert n in nodes && m in nodes && Spaced(y, nodes);
    var i :| 0 <= i < |nodes| && nodes[i] == n;
    var j :| 0 <= j < |nodes| && nodes[j] == m;
    if i < j {
      SpacedApart(y, nodes, i, j);
      R.RoundKeepsEvenGap(y[n] - top, y[m] - top, Y_STEP);
    } else {
      SpacedApart(y, nodes, j, i);
      R.RoundKeepsEvenGap(y[m] - top, y[n] - top, Y_STEP);
    }
  }

  ghost predicate AllApart(nodes: set<Node>, placed: map<Node, Position>)
    requires forall n :: n in nodes ==> n in placed
  {
    forall n, m :: n in nodes && m in nodes && n != m ==> Apart(placed[n], placed[m])
  }

  /** Every edge goes at least one column to the right, except those that close a cycle. */
  ghost predicate FlowsRight(nodes: set<Node>, succ: map<Node, seq<Node>>, placed: map<Node, Position>)
    requires forall n :: n in nodes ==> n in placed && n in succ
  {
    forall a, b :: a in nodes && b in succ[a] && b in nodes && a != b ==>
      placed[b].x - placed[a].x >= X_STEP || LoopsBack(nodes, succ, a, b)
  }

  /** The edge `a -> b` is part of a cycle: some walk along step edges leads back from `b` to `a`. */
  ghost predicate LoopsBack(nodes: set<Node>, succ: map<Node, seq<Node>>, a: Node, b: Node)
    requires forall n :: n in nodes ==> n in succ
  {
    exists p :: IsStepWalk(nodes, succ, p) && p[0] == b && p[|p| - 1] == a
  }

  ghost predicate IsStepWalk(nodes: set<Node>, succ: map<Node, seq<Node>>, p: seq<Node>)
    requires forall n :: n in nodes ==> n in succ
  {
    && p != []
    && (forall n :: n in p ==> n in nodes)
    && forall i, j :: 0 <= i < j < |p| && j == i + 1 ==> p[j] in succ[p[i]]
  }

  /** Where one component is drawn, relative to its own top. */
  ghost predicate ComponentPlaced(group: seq<Node>, succ: map<Node, seq<Node>>, placed: map<Node, Position>)
    requires forall n :: n in group ==> n in succ
  {
    && (forall n :: n in group <==> n in placed)
    && (forall n :: n in placed ==> placed[n].x >= ORIGIN_X && placed[n].y >= 0)
    && (exists n :: n in placed && placed[n].y == 0)
    && AllApart(Elements(group), placed)
    && FlowsRight(Elements(group), succ, placed)
    && DrawnByDepth(group, succ, placed)
  }

  /**
   A step's column is the length of the longest walk that ends at it once cycles
   are broken.  A step alone in its column is centred on the steps after it, and a
   step that all steps of a column lead to, and to nothing else, is centred on them.
   */
  ghost predicate DrawnByDepth(group: seq<Node>, succ: map<Node, seq<Node>>, placed: map<Node, Position>)
    requires forall n :: n in group ==> n in placed
  {
    exists kept: set<Edge>, finish: seq<Node>, after: map<Node, seq<Node>> ::
      F.BreaksCycles(group, succ, kept, finish) && DrawnFrom(group, kept, after, placed)
  }

  ghost predicate DrawnFrom(group: seq<Node>, kept: set<Edge>, after: map<Node, seq<Node>>, placed: map<Node, Position>)
    requires forall n :: n in group ==> n in placed
  {
    && ListsAfter(group, kept, after)
    && (forall n :: n in group ==> AtDepth(kept, n, placed[n]))
    && (forall n :: n in group && AloneInColumn(group, n, placed) ==> CentredOn(n, after[n], placed))
    && forall branches, join :: Meet(group, after, placed, branches, join) ==> CentredOn(join, branches, placed)
  }

  /** The nodes each node's kept edges lead to, each once. */
  ghost predicate ListsAfter(group: seq<Node>, kept: set<Edge>, after: map<Node, seq<Node>>) {
    forall n :: n in group ==>
      n in after && Distinct(after[n]) && forall b :: b in after[n] <==> b in group && (n, b) in kept
  }

  /** `branches` are all the nodes of one column, and `join` is all that comes after each of them. */
  ghost predicate Meet(group: seq<Node>, after: map<Node, seq<Node>>, placed: map<Node, Position>,
                       branches: seq<Node>, join: Node)
    requires forall n :: n in group ==> n in placed && n in after
  {
    && branches != [] && Distinct(branches) && join in group && branches[0] in group
    && (forall n :: n in branches <==> n in group && placed[n].x == placed[branches[0]].x)
    && (forall n :: n in branches ==> after[n] == [join])
  }

  ghost predicate AloneInColumn(group: seq<Node>, n: Node, placed: map<Node, Position>)
    requires n in group && forall m :: m in group ==> m in placed
  {
    forall m :: m in group && m != n ==> placed[m].x != placed[n].x
  }

  function YSum(nodes: seq<Node>, placed: map<Node, Position>): int
    requires forall n :: n in nodes ==> n in placed
  {
    if nodes == [] then 0 else YSum(nodes[..|nodes| - 1], placed) + placed[nodes[|nodes| - 1]].y
  }

  /** The y coordinate is within one pixel of the average of `nodes`. */
  ghost predicate CentredOn(n: Node, nodes: seq<Node>, placed: map<Node, Position>)
    requires n in placed && forall m :: m in nodes ==> m in placed
  {
    -|nodes| <= |nodes| * placed[n].y - YSum(nodes, placed) <= |nodes|
  }

  ghost predicate AtDepth(kept: set<Edge>, n: Node, p: Position) {
    exists d :: D.IsDepth(kept, n, d) && p.x == ORIGIN_X + d * X_STEP
  }

  lemma KeptEdgesFlowRight(group: seq<Node>, succ: map<Node, seq<Node>>, forward: set<Edge>, finish: seq<Node>,
                           depth: map<Node, int>, placed: map<Node, Position>)
    requires forall n :: n in group ==> n in succ && n in placed && n in depth
    requires F.BreaksCycles(group, succ, forward, finish)
    requires D.Layered(forward, depth)
    requires forall n :: n in group ==> placed[n].x == ORIGIN_X + depth[n] * X_STEP
    ensures FlowsRight(Elements(group), succ, placed)
  {
    var nodes := Elements(group);
    forall a, b | a in nodes && b in succ[a] && b in nodes && a != b
      ensures placed[b].x - placed[a].x >= X_STEP || LoopsBack(nodes, succ, a, b)
    {
      assert F.IsMemberEdge(group, succ, a, b);
      assert F.Settled(group, succ, forward, a, b);
      if (a, b) !in forward {
        var p :| WalkBetween(forward, p, b, a);
        KeptWalkIsStepWalk(group, succ, forward, finish, p);
      }
    }
  }

  lemma KeptWalkIsStepWalk(group: seq<Node>, succ: map<Node, seq<Node>>, forward: set<Edge>, finish: seq<Node>, p: seq<Node>)
    requires forall n :: n in group ==> n in succ
    requires F.BreaksCycles(group, succ, forward, finish)
    requires Walk(forward, p) && p[0] in group
    ensures IsStepWalk(Elements(group), succ, p)
  {
    forall n | n in p
      ensures n in group
    {
      var i :| 0 <= i < |p| && p[i] == n;
      if i > 0 {
        assert (p[i - 1], p[i]) in forward;
        assert F.IsMemberEdge(group, succ, p[i - 1], p[i]);
      }
    }
    forall i, j | 0 <= i < j < |p| && j == i + 1
      ensures p[j] in succ[p[i]]
    {
      assert (p[i], p[j]) in forward;
      assert F.IsMemberEdge(group, succ, p[i], p[j]);
    }
  }

  /** `_component_layout` */
  method ComponentLayout(group: seq<Node>, succ: map<Node, seq<Node>>) returns (placed: map<Node, Position>)
    requires group != [] && Distinct(group)
    requires forall n :: n in group ==> n in succ
    ensures ComponentPlaced(group, succ, placed)
  {
    hide F.BreaksCycles, D.IsDepth, D.Layered, Layers, AllSpaced, Listed, EachOnce, Passes, Packed, NeighboursFit, Across, DrawnFrom;
    hide ComponentPlaced, Reverses, Distinct, R.Round;
    var forward, finish := F.ForwardOnly(group, succ);
    BrokenIsAmong(group, succ, forward, finish);
    var depth := D.Depths(group, forward, finish);
    DepthsAreNatural(group, forward, depth);
    var fsucc, fpred := NeighbourLists(group, forward);
    NeighboursInGroup(group, forward, depth, fsucc, fpred);
    var collected := CollectLayers(group, depth);
    LayersInGroup(collected, group, depth);
    var layers, sweeps := O.OrderLayers(collected, fpred, fsucc);
    PermutedLayers(collected, layers, group, depth);
    var y, passes := SettleRows(layers, group, depth, fpred, fsucc);
    var top := Top(group, y);
    placed := map n | n in group :: Position(ORIGIN_X + depth[n] * X_STEP, R.Round(y[n] - top));
    LastPass(layers, group, depth, fpred, fsucc, passes);
    LayeredRowsDrawn(group, forward, fpred, fsucc, layers, depth, y, passes[ITERATIONS - 1], top, placed);
    PlacedWell(group, succ, forward, finish, layers, depth, y, top, fsucc, placed);
  }

  lemma PlacedWell(group: seq<Node>, succ: map<Node, seq<Node>>, forward: set<Edge>, finish: seq<Node>,
                   layers: seq<seq<Node>>, depth: map<Node, int>, y: map<Node, real>, top: real,
                   fsucc: map<Node, seq<Node>>, placed: map<Node, Position>)
    requires forall n :: n in group ==> n in succ && n in depth && depth[n] >= 0 && n in y && top <= y[n]
    requires F.BreaksCycles(group, succ, forward, finish)
    requires D.Layered(forward, depth)
    requires Layers(layers, group, depth) && AllSpaced(y, layers, group, depth)
    requires exists n :: n in group && y[n] == top
    requires placed == map n | n in group :: Position(ORIGIN_X + depth[n] * X_STEP, R.Round(y[n] - top))
    requires DrawnFrom(group, forward, fsucc, placed)
    ensures ComponentPlaced(group, succ, placed)
  {
    hide F.BreaksCycles, D.Layered, Layers, AllSpaced, AllApart, FlowsRight, DrawnFrom;
    PlacedApart(group, layers, depth, y, top, placed);
    KeptEdgesFlowRight(group, succ, forward, finish, depth, placed);
  }

  /** A layer of one node has the row its successors average to. */
  lemma LoneRow(n: Node, fsucc: map<Node, seq<Node>>, y: map<Node, real>, own: map<Node, real>)
    requires n in y && n in fsucc && forall m :: m in fsucc[n] ==> m in y
    requires n in own && Centred([n], fsucc, y, own) && fsucc[n] != []
    ensures y[n] == Average(fsucc[n], y)
  {
    hide P.ClosestSeparated;
    var desired :| WishesFor([n], fsucc, y, own, desired) && P.ClosestSeparated(Rows([n], y), desired, Y_STEP as real);
    assert desired[0] == Average(fsucc[[n][0]], y);
    P.SeparatedStaysPut(Rows([n], y), desired, Y_STEP as real);
  }

  lemma {:induction false} RoundedSum(nodes: seq<Node>, y: map<Node, real>, top: real, placed: map<Node, Position>)
    requires forall n :: n in nodes ==> n in y && n in placed && placed[n].y == R.Round(y[n] - top)
    ensures var error := YSum(nodes, placed) as real - (RowSum(nodes, y) - P.Scale(top, |nodes|));
            -P.Scale(0.5, |nodes|) <= error <= P.Scale(0.5, |nodes|)
  {
    if nodes != [] {
      var k := |nodes| - 1;
      RoundedSum(nodes[..k], y, top, placed);
      R.RoundIsNearestEven(y[nodes[k]] - top, placed[nodes[k]].y);
    }
  }

  lemma {:induction false} RepeatedError(r: int, v: real, top: real, count: nat)
    requires -0.5 <= r as real - (v - top) <= 0.5
    ensures var error := (count * r) as real - (P.Scale(v, count) - P.Scale(top, count));
            -P.Scale(0.5, count) <= error <= P.Scale(0.5, count)
  {
    if count > 0 {
      RepeatedError(r, v, top, count - 1);
      assert count * r == (count - 1) * r + r;
    }
  }

  lemma {:induction false} HalfScale(count: nat)
    ensures P.Scale(0.5, count) + P.Scale(0.5, count) == count as real
  {
    if count > 0 {
      HalfScale(count - 1);
    }
  }

  lemma LoneIsCentred(n: Node, nodes: seq<Node>, y: map<Node, real>, top: real, placed: map<Node, Position>)
    requires n in y && n in placed && placed[n].y == R.Round(y[n] - top)
    requires forall m :: m in nodes ==> m in y && m in placed && placed[m].y == R.Round(y[m] - top)
    requires nodes != [] ==> y[n] == Average(nodes, y)
    ensures CentredOn(n, nodes, placed)
  {
    hide R.Round;
    if nodes != [] {
      var k := |nodes|;
      RoundedSum(nodes, y, top, placed);
      R.RoundIsNearestEven(y[n] - top, placed[n].y);
      RepeatedError(placed[n].y, y[n], top, k);
      P.DivideBack(RowSum(nodes, y), k as real);
      P.ScaleIsProduct(y[n], k);
      HalfScale(k);
      assert P.Scale(y[n], k) == RowSum(nodes, y);
      var gap := k * placed[n].y - YSum(nodes, placed);
      assert gap as real == (k * placed[n].y) as real - YSum(nodes, placed) as real;
    } else {
      assert |nodes| * placed[n].y == 0;
    }
  }

  lemma LoneLayer(layers: seq<seq<Node>>, group: seq<Node>, depth: map<Node, int>, n: Node)
    requires Layers(layers, group, depth) && n in group
    requires forall m :: m in group && m != n ==> depth[m] != depth[n]
    ensures layers[depth[n]] == [n]
  {
    var nodes := layers[depth[n]];
    assert n in nodes && Distinct(nodes);
    assert |nodes| > 1 ==> nodes[0] != nodes[1];
    forall i | 0 <= i < |nodes|
      ensures nodes[i] == n
    {
      var m := nodes[i];
      assert m in layers[depth[n]];
      assert m in group && depth[m] == depth[n];
    }
  }

  // ---- Branches that meet ----

  lemma {:induction false} RowSumWithout(nodes: seq<Node>, y: map<Node, real>, i: nat)
    requires i < |nodes| && forall n :: n in nodes ==> n in y
    ensures RowSum(nodes, y) == RowSum(nodes[..i] + nodes[i + 1..], y) + y[nodes[i]]
  {
    var k := |nodes| - 1;
    var rest := nodes[..i] + nodes[i + 1..];
    if i == k {
      assert rest == nodes[..k];
    } else {
      RowSumWithout(nodes[..k], y, i);
      assert rest[..|rest| - 1] == nodes[..k][..i] + nodes[..k][i + 1..];
    }
  }

  lemma SomeNode(nodes: seq<Node>)
    ensures nodes == [] || exists n :: n in nodes
  {
    if nodes != [] {
      assert nodes[0] in nodes;
    }
  }

  /** The sum does not depend on the order. */
  lemma {:induction false} SameRowSum(a: seq<Node>, b: seq<Node>, y: map<Node, real>)
    requires Distinct(a) && Distinct(b) && forall n :: n in a <==> n in b
    requires forall n :: n in a ==> n in y
    ensures |a| == |b| && RowSum(a, y) == RowSum(b, y)
    decreases |a|
  {
    if a == [] {
      SomeNode(b);
    } else {
      var k := |a| - 1;
      assert a[k] in a && a[k] in b;
      var i :| 0 <= i < |b| && b[i] == a[k];
      var rest := b[..i] + b[i + 1..];
      forall n
        ensures n in a[..k] <==> n in rest
      {
        assert n in a <==> n in a[..k] || n == a[k];
        assert n in b <==> n in rest || n == b[i];
        assert b[i] !in rest;
      }
      SameRowSum(a[..k], rest, y);
      RowSumWithout(b, y, i);
    }
  }

  lemma {:induction false} RowsSum(nodes: seq<Node>, y: map<Node, real>)
    requires forall n :: n in nodes ==> n in y
    ensures P.Sum(Rows(nodes, y)) == RowSum(nodes, y)
  {
    if nodes != [] {
      var k := |nodes| - 1;
      RowsSum(nodes[..k], y);
      assert Rows(nodes, y)[..k] == Rows(nodes[..k], y);
    }
  }

  lemma {:induction false} AlikeSum(s: seq<real>, v: real)
    requires forall i :: 0 <= i < |s| ==> s[i] == v
    ensures P.Sum(s) == P.Scale(v, |s|)
  {
    if s != [] {
      AlikeSum(s[..|s| - 1], v);
    }
  }

  /** A layer whose nodes all lead to one node is packed around that node's row. */
  lemma MeetingRows(nodes: seq<Node>, join: Node, fsucc: map<Node, seq<Node>>, y: map<Node, real>, own: map<Node, real>)
    requires nodes != [] && join in y
    requires forall n :: n in nodes ==> n in y && n in own && n in fsucc && fsucc[n] == [join]
    requires Centred(nodes, fsucc, y, own)
    ensures Average(nodes, y) == y[join]
  {
    hide P.ClosestSeparated;
    var desired :| WishesFor(nodes, fsucc, y, own, desired) && P.ClosestSeparated(Rows(nodes, y), desired, Y_STEP as real);
    var k := |nodes|;
    forall i | 0 <= i < k
      ensures desired[i] == y[join]
    {
      assert nodes[i] in nodes;
      assert [join][..0] == [];
      assert RowSum([join], y) == y[join];
    }
    P.CentreKept(Rows(nodes, y), desired, Y_STEP as real);
    RowsSum(nodes, y);
    AlikeSum(desired, y[join]);
    P.ScaleIsProduct(y[join], k);
    AverageOf(RowSum(nodes, y), k, y[join]);
  }

  lemma AverageOf(total: real, k: nat, v: real)
    requires k > 0 && total == P.Times(v, k as real)
    ensures total / k as real == v
  {
  }

  lemma BranchesMeet(group: seq<Node>, fsucc: map<Node, seq<Node>>, layers: seq<seq<Node>>, depth: map<Node, int>,
                     y: map<Node, real>, own: map<Node, real>, top: real, placed: map<Node, Position>,
                     branches: seq<Node>, join: Node)
    requires Layers(layers, group, depth) && Across(group, depth, fsucc)
    requires forall n :: n in group ==> n in y && n in own
    requires Packed(layers, group, depth, fsucc, own, y, 0, |layers|)
    requires placed == map n | n in group :: Position(ORIGIN_X + depth[n] * X_STEP, R.Round(y[n] - top))
    requires Meet(group, fsucc, placed, branches, join)
    ensures CentredOn(join, branches, placed)
  {
    hide R.Round, Centred, CentredOn;
    var d := depth[branches[0]];
    forall n
      ensures n in branches <==> n in layers[d]
    {
      assert n in group ==> placed[n].x == ORIGIN_X + depth[n] * X_STEP;
    }
    assert Centred(layers[d], fsucc, y, own);
    assert branches[0] in layers[d];
    MeetingRows(layers[d], join, fsucc, y, own);
    SameRowSum(branches, layers[d], y);
    LoneIsCentred(join, branches, y, top, placed);
  }

  lemma LoneDrawn(group: seq<Node>, fsucc: map<Node, seq<Node>>, layers: seq<seq<Node>>, depth: map<Node, int>,
                  y: map<Node, real>, own: map<Node, real>, top: real, placed: map<Node, Position>, n: Node)
    requires Layers(layers, group, depth) && Across(group, depth, fsucc) && n in group
    requires forall m :: m in group ==> m in y && m in own
    requires Packed(layers, group, depth, fsucc, own, y, 0, |layers|)
    requires placed == map m | m in group :: Position(ORIGIN_X + depth[m] * X_STEP, R.Round(y[m] - top))
    requires AloneInColumn(group, n, placed)
    ensures CentredOn(n, fsucc[n], placed)
  {
    hide R.Round, Centred, CentredOn;
    LoneLayer(layers, group, depth, n) by {
      assert forall m :: m in group && m != n ==> placed[m].x != placed[n].x;
    }
    assert Centred(layers[depth[n]], fsucc, y, own);
    if fsucc[n] != [] {
      LoneRow(n, fsucc, y, own);
    }
    LoneIsCentred(n, fsucc[n], y, top, placed);
  }

  lemma LayeredRowsDrawn(group: seq<Node>, forward: set<Edge>, fpred: map<Node, seq<Node>>, fsucc: map<Node, seq<Node>>,
                         layers: seq<seq<Node>>, depth: map<Node, int>, y: map<Node, real>, own: map<Node, real>,
                         top: real, placed: map<Node, Position>)
    requires Layers(layers, group, depth) && Across(group, depth, fsucc)
    requires Listed(group, forward, fsucc, fpred) && EachOnce(group, fsucc)
    requires forall n :: n in group ==> n in y && n in own && D.IsDepth(forward, n, depth[n])
    requires Packed(layers, group, depth, fsucc, own, y, 0, |layers|)
    requires placed == map n | n in group :: Position(ORIGIN_X + depth[n] * X_STEP, R.Round(y[n] - top))
    ensures DrawnFrom(group, forward, fsucc, placed)
  {
    hide D.IsDepth, R.Round, Layers, Packed, CentredOn, AtDepth, AloneInColumn;
    forall n | n in group
      ensures AtDepth(forward, n, placed[n])
      ensures AloneInColumn(group, n, placed) ==> CentredOn(n, fsucc[n], placed)
    {
      DepthIsColumn(forward, n, depth[n], placed[n]);
      if AloneInColumn(group, n, placed) {
        LoneDrawn(group, fsucc, layers, depth, y, own, top, placed, n);
      }
    }
    forall branches, join | Meet(group, fsucc, placed, branches, join)
      ensures CentredOn(join, branches, placed)
    {
      BranchesMeet(group, fsucc, layers, depth, y, own, top, placed, branches, join);
    }
  }

  lemma LastPass(layers: seq<seq<Node>>, group: seq<Node>, depth: map<Node, int>,
                 fpred: map<Node, seq<Node>>, fsucc: map<Node, seq<Node>>, passes: seq<map<Node, real>>)
    requires Layers(layers, group, depth) && Across(group, depth, fpred) && Across(group, depth, fsucc)
    requires Passes(layers, group, depth, fpred, fsucc, passes) && |passes| == ITERATIONS + 1
    ensures var (own, y) := (passes[ITERATIONS - 1], passes[ITERATIONS]);
            && (forall n :: n in group ==> n in y && n in own)
            && Packed(layers, group, depth, fsucc, own, y, 0, |layers|)
  {
  }

  lemma BrokenIsAmong(group: seq<Node>, succ: map<Node, seq<Node>>, forward: set<Edge>, finish: seq<Node>)
    requires F.BreaksCycles(group, succ, forward, finish)
    ensures D.Among(group, forward) && Reverses(finish, forward)
    ensures forall n :: n in group ==> n in finish
  {
    assert forall a, b :: (a, b) in forward ==> F.IsMemberEdge(group, succ, a, b);
  }

  lemma DepthsAreNatural(group: seq<Node>, forward: set<Edge>, depth: map<Node, int>)
    requires forall n :: n in group ==> n in depth && D.IsDepth(forward, n, depth[n])
    ensures forall n :: n in group ==> depth[n] >= 0
  {
    forall n | n in group
      ensures depth[n] >= 0
    {
      assert Walk(forward, [n]);
    }
  }

  lemma DepthIsColumn(forward: set<Edge>, n: Node, d: int, p: Position)
    requires D.IsDepth(forward, n, d) && p.x == ORIGIN_X + d * X_STEP
    ensures AtDepth(forward, n, p)
  {
  }

  lemma NeighboursInGroup(group: seq<Node>, forward: set<Edge>, depth: map<Node, int>,
                          fsucc: map<Node, seq<Node>>, fpred: map<Node, seq<Node>>)
    requires D.Among(group, forward) && Listed(group, forward, fsucc, fpred) && D.Layered(forward, depth)
    requires forall n :: n in group ==> n in depth
    ensures NeighboursFit(group, depth, fpred, fsucc) && Across(group, depth, fpred) && Across(group, depth, fsucc)
  {
    forall n, m | n in group && m in fpred[n]
      ensures m in group && depth[m] < depth[n]
    {
      assert (m, n) in forward;
    }
  }

  lemma LayersInGroup(layers: seq<seq<Node>>, group: seq<Node>, depth: map<Node, int>)
    requires Layers(layers, group, depth)
    ensures forall k, n :: 0 <= k < |layers| && n in layers[k] ==> n in group
  {
  }

  lemma PlacedApart(group: seq<Node>, layers: seq<seq<Node>>, depth: map<Node, int>, y: map<Node, real>, top: real,
                    placed: map<Node, Position>)
    requires Layers(layers, group, depth)
    requires forall n :: n in group ==> n in y && n in placed
    requires AllSpaced(y, layers, group, depth)
    requires forall n :: n in group ==> placed[n] == Position(ORIGIN_X + depth[n] * X_STEP, R.Round(y[n] - top))
    ensures AllApart(Elements(group), placed)
  {
    forall n, m | n in group && m in group && n != m
      ensures Apart(placed[n], placed[m])
    {
      if depth[n] == depth[m] {
        RowsKeepApart(layers, group, depth, y, top, n, m);
      }
    }
  }

  // ---- The whole canvas ----

  ghost predicate IsDeclaredWalk(steps: seq<Entry>, p: seq<Node>) {
    p != [] && forall i, j :: 0 <= i < j < |p| && j == i + 1 ==> IsDeclaredEdge(steps, p[i], p[j])
  }

  /** Declared edges lead from `b` back to `a`. */
  ghost predicate LeadsBack(steps: seq<Entry>, a: Node, b: Node) {
    exists p :: IsDeclaredWalk(steps, p) && p[0] == b && p[|p| - 1] == a
  }

  ghost predicate IsDrawn(group: seq<Node>, succ: map<Node, seq<Node>>, positions: map<Node, Position>) {
    (forall n :: n in group ==> n in positions) && DrawnByDepth(group, succ, positions)
  }

  /** The first `upTo` groups are drawn. */
  ghost predicate AreDrawn(groups: seq<seq<Node>>, upTo: nat, succ: map<Node, seq<Node>>, positions: map<Node, Position>)
    requires upTo <= |groups|
  {
    forall k :: 0 <= k < upTo ==> IsDrawn(groups[k], succ, positions)
  }

  /** The graph of the steps, and its components. */
  ghost predicate IsStepGraph(steps: seq<Entry>, ids: seq<Node>, succ: map<Node, seq<Node>>, pred: map<Node, seq<Node>>,
                              groups: seq<seq<Node>>)
  {
    && C.IsGraph(ids, succ, pred)
    && MirrorsSteps(steps, ids, succ) && InStepOrder(steps, ids)
    && C.Partition(C.Links(ids, succ, pred), Elements(ids), groups) && C.InTurn(ids, groups)
  }

  /** The topmost box of the group is at `row`. */
  ghost predicate TopAt(group: seq<Node>, positions: map<Node, Position>, row: int) {
    && (forall n :: n in group ==> n in positions && positions[n].y >= row)
    && exists n :: n in group && n in positions && positions[n].y == row
  }

  /** The lowest box of the first k groups is at `row`. */
  ghost predicate BottomAt(groups: seq<seq<Node>>, k: nat, positions: map<Node, Position>, row: int)
    requires k <= |groups|
  {
    && (forall j, n :: 0 <= j < k && n in groups[j] ==> n in positions && positions[n].y <= row)
    && exists j, n :: 0 <= j < k && n in groups[j] && n in positions && positions[n].y == row
  }

  /** The first group starts on the first row, and a later one a row and a gap below everything before it. */
  ghost predicate StandsAt(groups: seq<seq<Node>>, k: nat, positions: map<Node, Position>)
    requires k < |groups|
  {
    if k == 0 then TopAt(groups[0], positions, ORIGIN_Y)
    else exists row :: BottomAt(groups, k, positions, row) && TopAt(groups[k], positions, row + Y_STEP + COMPONENT_GAP)
  }

  ghost predicate StackedInTurn(groups: seq<seq<Node>>, upTo: nat, positions: map<Node, Position>)
    requires upTo <= |groups|
  {
    forall k :: 0 <= k < upTo ==> StandsAt(groups, k, positions)
  }

  /**
   In each component columns are longest-path depths, and a step alone in its column
   is centred; the components stand below each other in the order of their steps.
   */
  ghost predicate ComponentsDrawn(steps: seq<Entry>, positions: map<Node, Position>) {
    exists ids, succ, pred, groups ::
      && IsStepGraph(steps, ids, succ, pred, groups) && AreDrawn(groups, |groups|, succ, positions)
      && StackedInTurn(groups, |groups|, positions)
  }

  /** Where the canvas draws every step. */
  ghost predicate IsLayout(steps: seq<Entry>, positions: map<Node, Position>) {
    && positions.Keys == Ids(steps)
    && AllApart(Ids(steps), positions)
    && ComponentsDrawn(steps, positions)
    && (forall n :: n in positions ==> positions[n].x >= ORIGIN_X && positions[n].y >= ORIGIN_Y)
    && forall a, b :: a in positions && b in positions && a != b && IsDeclaredEdge(Normalized(steps), a, b) ==>
         positions[b].x - positions[a].x >= X_STEP || LeadsBack(Normalized(steps), a, b)
  }

  /** `max(p["y"] for p in positions.values())` */
  method Lowest(positions: map<Node, Position>) returns (y: int)
    requires positions != map[]
    ensures forall n :: n in positions ==> positions[n].y <= y
    ensures exists n :: n in positions && positions[n].y == y
  {
    var rest := positions.Keys;
    var first :| first in rest;
    y := positions[first].y;
    rest := rest - {first};
    while rest != {}
      invariant rest <= positions.Keys
      invariant forall n :: n in positions && n !in rest ==> positions[n].y <= y
      invariant exists n :: n in positions && positions[n].y == y
      decreases |rest|
    {
      var n :| n in rest;
      if positions[n].y > y {
        y := positions[n].y;
      }
      rest := rest - {n};
    }
  }

  /** Positions of the components placed so far, all above `offset` by at least two rows. */
  ghost predicate Stacked(nodes: set<Node>, succ: map<Node, seq<Node>>, positions: map<Node, Position>, offset: int)
    requires forall n :: n in nodes ==> n in succ
  {
    && positions.Keys == nodes
    && offset >= ORIGIN_Y
    && (forall n :: n in positions ==> positions[n].x >= ORIGIN_X && ORIGIN_Y <= positions[n].y <= offset - Y_STEP - COMPONENT_GAP)
    && AllApart(nodes, positions)
    && FlowsRight(nodes, succ, positions)
  }

  lemma {:induction false} YSumShift(nodes: seq<Node>, placed: map<Node, Position>, positions: map<Node, Position>, offset: int)
    requires forall n :: n in nodes ==> n in placed && n in positions && positions[n].y == placed[n].y + offset
    ensures YSum(nodes, positions) == YSum(nodes, placed) + |nodes| * offset
  {
    if nodes != [] {
      YSumShift(nodes[..|nodes| - 1], placed, positions, offset);
    }
  }

  lemma CentredElsewhere(group: seq<Node>, n: Node, nodes: seq<Node>, placed: map<Node, Position>,
                         positions: map<Node, Position>, offset: int)
    requires n in group && forall m :: m in nodes ==> m in group
    requires forall m :: m in group ==>
               m in placed && m in positions && positions[m] == Position(placed[m].x, placed[m].y + offset)
    requires CentredOn(n, nodes, placed)
    ensures CentredOn(n, nodes, positions)
  {
    YSumShift(nodes, placed, positions, offset);
    assert |nodes| * positions[n].y == |nodes| * placed[n].y + |nodes| * offset;
  }

  /** A component moved down as a whole is drawn alike. */
  lemma DrawnElsewhere(group: seq<Node>, succ: map<Node, seq<Node>>, placed: map<Node, Position>,
                       positions: map<Node, Position>, offset: int)
    requires IsDrawn(group, succ, placed)
    requires forall n :: n in group ==> n in positions && positions[n] == Position(placed[n].x, placed[n].y + offset)
    ensures IsDrawn(group, succ, positions)
  {
    hide F.BreaksCycles, D.IsDepth, CentredOn;
    var kept, finish, after :| F.BreaksCycles(group, succ, kept, finish) && DrawnFrom(group, kept, after, placed);
    forall n | n in group
      ensures AtDepth(kept, n, positions[n])
      ensures AloneInColumn(group, n, positions) ==> CentredOn(n, after[n], positions)
    {
      assert AtDepth(kept, n, placed[n]);
      if AloneInColumn(group, n, positions) {
        assert AloneInColumn(group, n, placed);
        CentredElsewhere(group, n, after[n], placed, positions, offset);
      }
    }
    forall branches, join | Meet(group, after, positions, branches, join)
      ensures CentredOn(join, branches, positions)
    {
      assert Meet(group, after, placed, branches, join);
      CentredElsewhere(group, join, branches, placed, positions, offset);
    }
    assert DrawnFrom(group, kept, after, positions);
  }

  /** Placing the next component below leaves the earlier ones where they are. */
  lemma DrawnAdd(groups: seq<seq<Node>>, g: nat, succ: map<Node, seq<Node>>, above: map<Node, Position>,
                 placed: map<Node, Position>, offset: int)
    requires g < |groups| && AreDrawn(groups, g, succ, above) && IsDrawn(groups[g], succ, placed)
    requires forall n :: n in placed <==> n in groups[g]
    requires forall k, n :: 0 <= k < g && n in groups[k] ==> n !in groups[g]
    ensures AreDrawn(groups, g + 1, succ, above + Shift(placed, offset))
  {
    hide DrawnByDepth;
    var positions := above + Shift(placed, offset);
    forall k | 0 <= k < g
      ensures IsDrawn(groups[k], succ, positions)
    {
      DrawnElsewhere(groups[k], succ, above, positions, 0);
    }
    DrawnElsewhere(groups[g], succ, placed, positions, offset);
  }

  function Shift(placed: map<Node, Position>, offset: int): map<Node, Position> {
    map n | n in placed :: Position(placed[n].x, placed[n].y + offset)
  }

  lemma ApartAdd(nodes: set<Node>, group: set<Node>, above: map<Node, Position>, below: map<Node, Position>, gap: int)
    requires above.Keys == nodes && below.Keys == group && nodes !! group
    requires AllApart(nodes, above) && AllApart(group, below)
    requires forall n :: n in nodes ==> above[n].y <= gap - Y_STEP
    requires forall n :: n in group ==> gap <= below[n].y
    ensures AllApart(nodes + group, above + below)
  {
  }

  lemma ShiftKeepsApart(placed: map<Node, Position>, offset: int)
    requires AllApart(placed.Keys, placed)
    ensures AllApart(placed.Keys, Shift(placed, offset))
  {
    forall n, m | n in placed && m in placed && n != m
      ensures Apart(Shift(placed, offset)[n], Shift(placed, offset)[m])
    {
      assert Apart(placed[n], placed[m]);
    }
  }

  lemma FlowsAdd(nodes: set<Node>, group: set<Node>, succ: map<Node, seq<Node>>,
                 above: map<Node, Position>, below: map<Node, Position>)
    requires forall n :: n in nodes || n in group ==> n in succ
    requires above.Keys == nodes && below.Keys == group && nodes !! group
    requires FlowsRight(nodes, succ, above) && FlowsRight(group, succ, below)
    requires forall a, b :: a in nodes && b in succ[a] ==> b !in group
    requires forall a, b :: a in group && b in succ[a] ==> b !in nodes
    ensures FlowsRight(nodes + group, succ, above + below)
  {
    var all, merged := nodes + group, above + below;
    forall a, b | a in all && b in succ[a] && b in all && a != b
      ensures merged[b].x - merged[a].x >= X_STEP || LoopsBack(all, succ, a, b)
    {
      var part := if a in group then group else nodes;
      if LoopsBack(part, succ, a, b) {
      }
    }
  }

  lemma ShiftKeepsFlow(nodes: set<Node>, succ: map<Node, seq<Node>>, placed: map<Node, Position>, offset: int)
    requires placed.Keys == nodes && forall n :: n in nodes ==> n in succ
    requires FlowsRight(nodes, succ, placed)
    ensures FlowsRight(nodes, succ, Shift(placed, offset))
  {
    hide LoopsBack;
  }

  lemma StackedAdd(nodes: set<Node>, group: seq<Node>, succ: map<Node, seq<Node>>,
                   positions: map<Node, Position>, placed: map<Node, Position>, offset: int, lowest: int)
    requires forall n :: n in nodes || n in group ==> n in succ
    requires Stacked(nodes, succ, positions, offset) && ComponentPlaced(group, succ, placed)
    requires forall n :: n in group ==> n !in nodes
    requires forall a, b :: a in nodes && b in succ[a] ==> b !in group
    requires forall a, b :: a in group && b in succ[a] ==> b !in nodes
    requires forall n :: n in positions + Shift(placed, offset) ==> (positions + Shift(placed, offset))[n].y <= lowest
    ensures Stacked(nodes + Elements(group), succ, positions + Shift(placed, offset), lowest + Y_STEP + COMPONENT_GAP)
  {
    hide AllApart, FlowsRight, DrawnByDepth;
    var below := Shift(placed, offset);
    assert placed.Keys == Elements(group);
    ShiftKeepsApart(placed, offset);
    ShiftKeepsFlow(Elements(group), succ, placed, offset);
    ApartAdd(nodes, Elements(group), positions, below, offset);
    FlowsAdd(nodes, Elements(group), succ, positions, below);
    var n :| n in placed && placed[n].y == 0;
    assert (positions + below)[n].y == offset;
  }

  lemma StackedIsLayout(steps: seq<Entry>, ids: seq<Node>, succ: map<Node, seq<Node>>, pred: map<Node, seq<Node>>,
                        groups: seq<seq<Node>>, positions: map<Node, Position>, offset: int)
    requires IsStepGraph(steps, ids, succ, pred, groups) && AreDrawn(groups, |groups|, succ, positions)
    requires StackedInTurn(groups, |groups|, positions)
    requires Stacked(Elements(ids), succ, positions, offset)
    ensures IsLayout(steps, positions)
  {
    hide IsStepGraph, AreDrawn, StackedInTurn, C.IsGraph, C.Partition;
    StepGraphMirrors(steps, ids, succ, pred, groups);
    assert ComponentsDrawn(steps, positions);
    var nodes := Elements(ids);
    assert nodes == Ids(steps);
    forall a, b | a in positions && b in positions && a != b && IsDeclaredEdge(Normalized(steps), a, b)
      ensures positions[b].x - positions[a].x >= X_STEP || LeadsBack(Normalized(steps), a, b)
    {
      assert b in succ[a];
      if LoopsBack(nodes, succ, a, b) {
        var p :| IsStepWalk(nodes, succ, p) && p[0] == b && p[|p| - 1] == a;
        assert IsDeclaredWalk(Normalized(steps), p);
      }
    }
  }

  lemma StepGraphMirrors(steps: seq<Entry>, ids: seq<Node>, succ: map<Node, seq<Node>>, pred: map<Node, seq<Node>>,
                         groups: seq<seq<Node>>)
    requires IsStepGraph(steps, ids, succ, pred, groups)
    ensures MirrorsSteps(steps, ids, succ)
  {
  }

  lemma OtherGroupsUnlinked(ids: seq<Node>, succ: map<Node, seq<Node>>, pred: map<Node, seq<Node>>,
                            groups: seq<seq<Node>>, g: nat, nodes: set<Node>)
    requires C.IsGraph(ids, succ, pred) && g < |groups|
    requires C.Partition(C.Links(ids, succ, pred), Elements(ids), groups)
    requires forall n :: n in nodes <==> exists k :: 0 <= k < g && n in groups[k]
    ensures forall n :: n in nodes || n in groups[g] ==> n in ids && n in succ
    ensures groups[g] != [] && Distinct(groups[g])
    ensures forall n :: n in groups[g] ==> n !in nodes
    ensures forall k, n :: 0 <= k < g && n in groups[k] ==> n !in groups[g]
    ensures forall a, b :: a in nodes && b in succ[a] ==> b !in groups[g]
    ensures forall a, b :: a in groups[g] && b in succ[a] ==> b !in nodes
  {
    var links := C.Links(ids, succ, pred);
    forall n | n in nodes || n in groups[g]
      ensures n in ids
    {
      assert n in Elements(ids);
    }
    C.LinksSymmetric(ids, succ, pred);
    assert C.IsComponent(links, groups[g]);
    forall a, b | a in nodes && b in succ[a]
      ensures b !in groups[g]
    {
      assert (a, b) in links && (b, a) in links;
    }
    forall a, b | a in groups[g] && b in succ[a]
      ensures b !in nodes
    {
      assert (a, b) in links;
    }
  }

  /** One more component, placed below the others. */
  lemma PlacedBelow(ids: seq<Node>, succ: map<Node, seq<Node>>, pred: map<Node, seq<Node>>, groups: seq<seq<Node>>, g: nat,
                    nodes: set<Node>, above: map<Node, Position>, placed: map<Node, Position>, offset: int, lowest: int)
    requires C.IsGraph(ids, succ, pred) && g < |groups|
    requires C.Partition(C.Links(ids, succ, pred), Elements(ids), groups)
    requires PlacedUpTo(succ, groups, g, nodes, above, offset)
    requires forall n :: n in groups[g] ==> n in succ
    requires ComponentPlaced(groups[g], succ, placed)
    requires var all := above + Shift(placed, offset);
             (forall n :: n in all ==> all[n].y <= lowest) && exists n :: n in all && all[n].y == lowest
    ensures PlacedUpTo(succ, groups, g + 1, nodes + Elements(groups[g]), above + Shift(placed, offset),
                       lowest + Y_STEP + COMPONENT_GAP)
  {
    hide C.IsGraph, C.Partition, C.Links, Stacked, ComponentPlaced, AreDrawn, StackedInTurn, BottomAt, IsDrawn, Distinct;
    OtherGroupsUnlinked(ids, succ, pred, groups, g, nodes);
    PlacedSomewhere(groups[g], succ, placed);
    StackedAdd(nodes, groups[g], succ, above, placed, offset, lowest);
    DrawnAdd(groups, g, succ, above, placed, offset);
    PlacedInTurn(groups, g, succ, nodes, above, placed, offset, lowest);
  }

  /**
   `layout_positions`: every step id gets exactly one position, no two boxes
   overlap (they are a full column or row apart), every edge the engine follows
   goes right unless it is part of a cycle, and each component is drawn by its
   depths.
   */
  method LayoutPositions(steps: seq<Entry>) returns (positions: map<Node, Position>)
    ensures IsLayout(steps, positions)
  {
    hide C.IsGraph, C.Partition, C.Links, C.InTurn, InStepOrder, Stacked, ComponentPlaced, IsLayout, MirrorsSteps, IsDrawn,
         Distinct, PlacedUpTo;
    var ids, succ, pred := Graph(steps);
    positions := map[];
    NothingStackedYet(succ);
    if ids == [] {
      NoComponents(ids, succ, pred);
      StackedIsLayout(steps, ids, succ, pred, [], positions, ORIGIN_Y);
      return;
    }
    var groups := C.Components(ids, succ, pred);
    var offset := ORIGIN_Y;
    ghost var nodes: set<Node> := {};
    NothingPlacedYet(succ, groups);
    for g := 0 to |groups|
      invariant PlacedUpTo(succ, groups, g, nodes, positions, offset)
    {
      ghost var above := positions;
      NextIsApart(ids, succ, pred, groups, g, nodes, positions, offset);
      var placed := ComponentLayout(groups[g], succ);
      PlacedSomewhere(groups[g], succ, placed);
      positions := positions + Shift(placed, offset);
      var lowest := Lowest(positions);
      PlacedBelow(ids, succ, pred, groups, g, nodes, above, placed, offset, lowest);
      offset := lowest + Y_STEP + COMPONENT_GAP;
      nodes := nodes + Elements(groups[g]);
    }
    AllPlaced(steps, ids, succ, pred, groups, nodes, positions, offset);
  }

  /** What holds once the first g components are placed: the next one starts at `offset`. */
  ghost predicate PlacedUpTo(succ: map<Node, seq<Node>>, groups: seq<seq<Node>>, g: nat, nodes: set<Node>,
                             positions: map<Node, Position>, offset: int)
  {
    && g <= |groups|
    && (forall n :: n in nodes <==> exists k :: 0 <= k < g && n in groups[k])
    && (forall n :: n in nodes ==> n in succ)
    && positions.Keys == nodes
    && Stacked(nodes, succ, positions, offset)
    && AreDrawn(groups, g, succ, positions) && StackedInTurn(groups, g, positions)
    && if g == 0 then offset == ORIGIN_Y else BottomAt(groups, g, positions, offset - Y_STEP - COMPONENT_GAP)
  }

  lemma NothingPlacedYet(succ: map<Node, seq<Node>>, groups: seq<seq<Node>>)
    ensures PlacedUpTo(succ, groups, 0, {}, map[], ORIGIN_Y)
  {
  }

  lemma NextIsApart(ids: seq<Node>, succ: map<Node, seq<Node>>, pred: map<Node, seq<Node>>, groups: seq<seq<Node>>, g: nat,
                    nodes: set<Node>, positions: map<Node, Position>, offset: int)
    requires C.IsGraph(ids, succ, pred) && g < |groups|
    requires C.Partition(C.Links(ids, succ, pred), Elements(ids), groups)
    requires PlacedUpTo(succ, groups, g, nodes, positions, offset)
    ensures groups[g] != [] && Distinct(groups[g])
    ensures forall n :: n in groups[g] ==> n in succ && n !in nodes
  {
    hide C.IsGraph, C.Partition, C.Links, Stacked, AreDrawn, StackedInTurn, BottomAt, Distinct;
    OtherGroupsUnlinked(ids, succ, pred, groups, g, nodes);
  }

  lemma AllPlaced(steps: seq<Entry>, ids: seq<Node>, succ: map<Node, seq<Node>>, pred: map<Node, seq<Node>>,
                  groups: seq<seq<Node>>, nodes: set<Node>, positions: map<Node, Position>, offset: int)
    requires IsStepGraph(steps, ids, succ, pred, groups)
    requires PlacedUpTo(succ, groups, |groups|, nodes, positions, offset)
    ensures IsLayout(steps, positions)
  {
    hide C.IsGraph, C.Partition, C.Links, Stacked, AreDrawn, StackedInTurn, BottomAt, IsLayout;
    AllGroupsAreAllIds(ids, succ, pred, groups, nodes);
    StackedIsLayout(steps, ids, succ, pred, groups, positions, offset);
  }

  lemma PlacedInTurn(groups: seq<seq<Node>>, g: nat, succ: map<Node, seq<Node>>, nodes: set<Node>, above: map<Node, Position>,
                     placed: map<Node, Position>, offset: int, lowest: int)
    requires g < |groups| && forall n :: n in groups[g] ==> n in succ && n !in nodes
    requires above.Keys == nodes && forall n :: n in nodes <==> exists k :: 0 <= k < g && n in groups[k]
    requires ComponentPlaced(groups[g], succ, placed) && StackedInTurn(groups, g, above)
    requires if g == 0 then offset == ORIGIN_Y else BottomAt(groups, g, above, offset - Y_STEP - COMPONENT_GAP)
    requires var all := above + Shift(placed, offset);
             (forall n :: n in all ==> all[n].y <= lowest) && exists n :: n in all && all[n].y == lowest
    ensures StackedInTurn(groups, g + 1, above + Shift(placed, offset))
    ensures BottomAt(groups, g + 1, above + Shift(placed, offset), lowest)
  {
    var all := above + Shift(placed, offset);
    PlacedAtTop(groups[g], succ, placed);
    hide ComponentPlaced, StackedInTurn, BottomAt;
    forall k, n | 0 <= k < g && n in groups[k]
      ensures n in above && all[n] == above[n]
    {
      assert n in nodes;
    }
    ShiftedTop(groups[g], placed, above, offset);
    TurnTaken(groups, g, above, all, offset);
    LowestOfAll(groups, g, nodes, above, placed, all, lowest);
  }

  lemma ShiftedTop(group: seq<Node>, placed: map<Node, Position>, above: map<Node, Position>, offset: int)
    requires forall n :: n in placed <==> n in group
    requires (forall n :: n in placed ==> placed[n].y >= 0) && exists n :: n in placed && placed[n].y == 0
    ensures TopAt(group, above + Shift(placed, offset), offset)
  {
    var all := above + Shift(placed, offset);
    var top :| top in placed && placed[top].y == 0;
    assert top in group && top in all && all[top].y == offset;
  }

  lemma TurnTaken(groups: seq<seq<Node>>, g: nat, above: map<Node, Position>, all: map<Node, Position>, offset: int)
    requires g < |groups| && StackedInTurn(groups, g, above) && TopAt(groups[g], all, offset)
    requires forall k, n :: 0 <= k < g && n in groups[k] ==> n in above && n in all && all[n] == above[n]
    requires if g == 0 then offset == ORIGIN_Y else BottomAt(groups, g, above, offset - Y_STEP - COMPONENT_GAP)
    ensures StackedInTurn(groups, g + 1, all)
  {
    hide TopAt, BottomAt;
    forall k | 0 <= k < g
      ensures StandsAt(groups, k, all)
    {
      assert StandsAt(groups, k, above);
      InTurnStays(groups, k, above, all);
    }
    if g > 0 {
      BottomStays(groups, g, above, all, offset - Y_STEP - COMPONENT_GAP);
    }
    assert StandsAt(groups, g, all);
  }

  lemma LowestOfAll(groups: seq<seq<Node>>, g: nat, nodes: set<Node>, above: map<Node, Position>, placed: map<Node, Position>,
                    all: map<Node, Position>, lowest: int)
    requires g < |groups| && above.Keys == nodes && all.Keys == above.Keys + placed.Keys
    requires forall n :: n in nodes <==> exists k :: 0 <= k < g && n in groups[k]
    requires forall n :: n in placed <==> n in groups[g]
    requires (forall n :: n in all ==> all[n].y <= lowest) && exists n :: n in all && all[n].y == lowest
    ensures BottomAt(groups, g + 1, all, lowest)
  {
    var n :| n in all && all[n].y == lowest;
    if n in nodes {
      var k :| 0 <= k < g && n in groups[k];
    }
    assert n in groups[g] || n in nodes;
  }

  lemma PlacedAtTop(group: seq<Node>, succ: map<Node, seq<Node>>, placed: map<Node, Position>)
    requires forall n :: n in group ==> n in succ
    requires ComponentPlaced(group, succ, placed)
    ensures forall n :: n in placed <==> n in group
    ensures (forall n :: n in placed ==> placed[n].y >= 0) && exists n :: n in placed && placed[n].y == 0
  {
  }

  lemma BottomStays(groups: seq<seq<Node>>, k: nat, above: map<Node, Position>, all: map<Node, Position>, row: int)
    requires k <= |groups| && BottomAt(groups, k, above, row)
    requires forall j, n :: 0 <= j < k && n in groups[j] ==> n in above && n in all && all[n] == above[n]
    ensures BottomAt(groups, k, all, row)
  {
    var j, n :| 0 <= j < k && n in groups[j] && n in above && above[n].y == row;
    assert n in all && all[n].y == row;
  }

  lemma TopStays(group: seq<Node>, above: map<Node, Position>, all: map<Node, Position>, row: int)
    requires TopAt(group, above, row)
    requires forall n :: n in group ==> n in above && n in all && all[n] == above[n]
    ensures TopAt(group, all, row)
  {
    var n :| n in group && n in above && above[n].y == row;
    assert n in all && all[n].y == row;
  }

  lemma InTurnStays(groups: seq<seq<Node>>, k: nat, above: map<Node, Position>, all: map<Node, Position>)
    requires k < |groups| && StandsAt(groups, k, above)
    requires forall j, n :: 0 <= j <= k && n in groups[j] ==> n in above && n in all && all[n] == above[n]
    ensures StandsAt(groups, k, all)
  {
    hide TopAt, BottomAt;
    if k == 0 {
      TopStays(groups[0], above, all, ORIGIN_Y);
    } else {
      var row :| BottomAt(groups, k, above, row) && TopAt(groups[k], above, row + Y_STEP + COMPONENT_GAP);
      BottomStays(groups, k, above, all, row);
      TopStays(groups[k], above, all, row + Y_STEP + COMPONENT_GAP);
    }
  }

  lemma PlacedSomewhere(group: seq<Node>, succ: map<Node, seq<Node>>, placed: map<Node, Position>)
    requires forall n :: n in group ==> n in succ
    requires ComponentPlaced(group, succ, placed)
    ensures placed != map[] && IsDrawn(group, succ, placed)
    ensures forall n :: n in placed <==> n in group
  {
  }

  lemma NoComponents(ids: seq<Node>, succ: map<Node, seq<Node>>, pred: map<Node, seq<Node>>)
    requires ids == [] && C.IsGraph(ids, succ, pred)
    ensures Elements(ids) == {} && C.Partition(C.Links(ids, succ, pred), Elements(ids), []) && C.InTurn(ids, [])
  {
  }

  lemma NothingStackedYet(succ: map<Node, seq<Node>>)
    ensures Stacked({}, succ, map[], ORIGIN_Y)
  {
  }

  lemma AllGroupsAreAllIds(ids: seq<Node>, succ: map<Node, seq<Node>>, pred: map<Node, seq<Node>>,
                           groups: seq<seq<Node>>, nodes: set<Node>)
    requires C.IsGraph(ids, succ, pred)
    requires C.Partition(C.Links(ids, succ, pred), Elements(ids), groups)
    requires forall n :: n in nodes <==> exists k :: 0 <= k < |groups| && n in groups[k]
    ensures nodes == Elements(ids)
  {
  }

  /** No two boxes of a layout overlap. */
  lemma LayoutIsClear(steps: seq<Entry>, positions: map<Node, Position>, n: Node, m: Node)
    requires IsLayout(steps, positions) && n in positions && m in positions && n != m
    ensures Clear(positions[n], positions[m])
  {
  }
}
