/**
 The vertical placement of one layer: pool-adjacent-violators, as in
 app/application/graph_layout.py:185-204.

 Packing is solved exactly: the result is the one arrangement with consecutive
 entries at least `gap` apart whose summed squared distance to the wanted
 positions is smallest.  Floats are modelled as `real`.
 */
module Pack {

  // ---- Vectors ----

  function Sum(s: seq<real>): real {
    if s == [] then 0.0 else Sum(s[..|s| - 1]) + s[|s| - 1]
  }

  /** Summed squared distance between two vectors. */
  ghost function SqDist(a: seq<real>, b: seq<real>): real
    requires |a| == |b|
  {
    if a == [] then 0.0
    else
      var k := |a| - 1;
      SqDist(a[..k], b[..k]) + Sq(a[k] - b[k])
  }

  /** Products are named so that the solver meets them as terms, not as polynomials. */
  ghost function Times(a: real, b: real): real { a * b }

  ghost function Sq(x: real): real { Times(x, x) }

  ghost predicate NonDecreasing(s: seq<real>) {
    forall i, j :: 0 <= i < j < |s| ==> s[i] <= s[j]
  }

  /** Consecutive entries are at least `gap` apart. */
  ghost predicate Separated(s: seq<real>, gap: real) {
    forall i, j :: 0 <= i < j < |s| && j == i + 1 ==> s[j] - s[i] >= gap
  }

  /** `count` copies of `value` added up: `value * count`, kept linear for the proofs. */
  ghost function Scale(value: real, count: nat): real {
    if count == 0 then 0.0 else Scale(value, count - 1) + value
  }

  /** `s[i] + i * slope` for every i. */
  ghost function Tilt(s: seq<real>, slope: real): (t: seq<real>)
    ensures |t| == |s|
    ensures forall i :: 0 <= i < |s| ==> t[i] == s[i] + Scale(slope, i)
  {
    seq(|s|, i requires 0 <= i < |s| => s[i] + Scale(slope, i))
  }

  function Repeat(value: real, count: nat): (s: seq<real>)
    ensures |s| == count
    ensures forall i :: 0 <= i < count ==> s[i] == value
  {
    seq(count, _ => value)
  }

  lemma {:induction false} ScaleIsProduct(value: real, count: nat)
    ensures Scale(value, count) == Times(value, count as real)
  {
    if count > 0 {
      ScaleIsProduct(value, count - 1);
      Distribute(value, (count - 1) as real, 1.0);
    }
  }

  lemma {:induction false} ScaleSplit(value: real, a: nat, b: nat)
    ensures Scale(value, a + b) == Scale(value, a) + Scale(value, b)
  {
    if b > 0 {
      ScaleSplit(value, a, b - 1);
    }
  }

  lemma {:induction false} ScaleMonotone(u: real, v: real, count: nat)
    requires u <= v
    ensures Scale(u, count) <= Scale(v, count)
  {
    if count > 0 {
      ScaleMonotone(u, v, count - 1);
    }
  }

  lemma {:induction false} SumConcat(a: seq<real>, b: seq<real>)
    ensures Sum(a + b) == Sum(a) + Sum(b)
  {
    if b == [] {
      assert a + b == a;
    } else {
      var k := |b| - 1;
      SumConcat(a, b[..k]);
      assert (a + b)[..|a| + k] == a + b[..k];
    }
  }

  lemma {:induction false} SqDistConcat(a: seq<real>, b: seq<real>, c: seq<real>, d: seq<real>)
    requires |a| == |c| && |b| == |d|
    ensures SqDist(a + b, c + d) == SqDist(a, c) + SqDist(b, d)
  {
    if b == [] {
      assert a + b == a && c + d == c;
    } else {
      var k := |b| - 1;
      SqDistConcat(a, b[..k], c, d[..k]);
      assert (a + b)[..|a| + k] == a + b[..k];
      assert (c + d)[..|a| + k] == c + d[..k];
    }
  }

  lemma {:induction false} SqDistZero(a: seq<real>, b: seq<real>)
    requires |a| == |b|
    ensures SqDist(a, b) >= 0.0
    ensures SqDist(a, b) == 0.0 ==> a == b
  {
    if a != [] {
      var k := |a| - 1;
      SqDistZero(a[..k], b[..k]);
      SquarePositive(a[k] - b[k]);
      assert a == a[..k] + [a[k]] && b == b[..k] + [b[k]];
    }
  }

  lemma SquarePositive(x: real)
    ensures Sq(x) >= 0.0
    ensures Sq(x) == 0.0 ==> x == 0.0
  {
    if x != 0.0 {
      SameSignProduct(x, x);
    }
  }

  lemma SameSignProduct(p: real, q: real)
    ensures (p > 0.0 && q > 0.0) || (p < 0.0 && q < 0.0) ==> Times(p, q) > 0.0
  {
  }

  /** How products keep and turn around an order. */
  lemma ProductOrder(p: real, q: real, w: real)
    ensures p <= q && w >= 0.0 ==> Times(p, w) <= Times(q, w)
    ensures p <= q && w <= 0.0 ==> Times(p, w) >= Times(q, w)
    ensures p < q && w > 0.0 ==> Times(p, w) < Times(q, w)
  {
  }

  lemma Distribute(p: real, q: real, r: real)
    ensures Times(p, q + r) == Times(p, q) + Times(p, r)
  {
  }

  lemma {:induction false} SqDistTilt(a: seq<real>, b: seq<real>, slope: real)
    requires |a| == |b|
    ensures SqDist(Tilt(a, slope), Tilt(b, slope)) == SqDist(a, b)
  {
    if a != [] {
      var k := |a| - 1;
      SqDistTilt(a[..k], b[..k], slope);
      assert Tilt(a, slope)[..k] == Tilt(a[..k], slope);
      assert Tilt(b, slope)[..k] == Tilt(b[..k], slope);
      assert Tilt(a, slope)[k] - Tilt(b, slope)[k] == a[k] - b[k];
    }
  }

  lemma TiltBack(s: seq<real>, slope: real)
    ensures Tilt(Tilt(s, slope), -slope) == s
    ensures Tilt(Tilt(s, -slope), slope) == s
  {
    forall i | 0 <= i < |s|
      ensures Scale(slope, i) + Scale(-slope, i) == 0.0
    {
      ScaleCancels(slope, i);
    }
  }

  lemma TiltInjective(a: seq<real>, b: seq<real>, slope: real)
    requires |a| == |b| && Tilt(a, slope) == Tilt(b, slope)
    ensures a == b
  {
    forall i | 0 <= i < |a|
      ensures a[i] == b[i]
    {
      assert Tilt(a, slope)[i] == Tilt(b, slope)[i];
    }
  }

  lemma {:induction false} ScaleCancels(slope: real, count: nat)
    ensures Scale(slope, count) + Scale(-slope, count) == 0.0
  {
    if count > 0 {
      ScaleCancels(slope, count - 1);
    }
  }

  /** Subtracting the offsets turns "separated by gap" into "non-decreasing". */
  lemma SeparatedIsNonDecreasing(s: seq<real>, gap: real)
    ensures Separated(s, gap) <==> NonDecreasing(Tilt(s, -gap))
  {
    var t := Tilt(s, -gap);
    forall i, j | 0 <= i < j < |s| && j == i + 1
      ensures t[j] - t[i] == s[j] - s[i] - gap
    {
    }
    if Separated(s, gap) {
      forall i, j | 0 <= i < j < |t|
        ensures t[i] <= t[j]
      {
        AscendsStepwise(t, i, j);
      }
    }
    if NonDecreasing(t) {
      forall i, j | 0 <= i < j < |s| && j == i + 1
        ensures s[j] - s[i] >= gap
      {
        assert t[i] <= t[j];
      }
    }
  }

  lemma {:induction false} AscendsStepwise(t: seq<real>, i: nat, j: nat)
    requires i <= j < |t|
    requires Separated(t, 0.0)
    ensures t[i] <= t[j]
    decreases j
  {
    if i < j {
      AscendsStepwise(t, i, j - 1);
      assert t[j] - t[j - 1] >= 0.0;
    }
  }

  // ---- Blocks ----

  /** A pooled run of entries: their common value and how many they are. */
  datatype Block = Block(value: real, weight: nat)

  function Flatten(blocks: seq<Block>): seq<real> {
    if blocks == [] then []
    else
      var last := blocks[|blocks| - 1];
      Flatten(blocks[..|blocks| - 1]) + Repeat(last.value, last.weight)
  }

  /** The block holds the mean of `wants`, and no prefix of `wants` has a smaller mean. */
  ghost predicate BlockFits(b: Block, wants: seq<real>) {
    && b.weight == |wants| > 0
    && Sum(wants) == Scale(b.value, |wants|)
    && PrefixesAbove(b.value, wants)
  }

  ghost predicate PrefixesAbove(value: real, wants: seq<real>) {
    forall k :: 0 <= k <= |wants| ==> Sum(wants[..k]) >= Scale(value, k)
  }

  /** The blocks cut `wants` into consecutive runs, each fitted by its block. */
  ghost predicate BlocksFit(blocks: seq<Block>, wants: seq<real>) {
    if blocks == [] then wants == []
    else
      var last := blocks[|blocks| - 1];
      && last.weight <= |wants|
      && BlocksFit(blocks[..|blocks| - 1], wants[..|wants| - last.weight])
      && BlockFits(last, wants[|wants| - last.weight..])
  }

  ghost predicate Ascending(blocks: seq<Block>) {
    AscendingBelow(blocks, |blocks|)
  }

  /** The first `count` blocks ascend. */
  ghost predicate AscendingBelow(blocks: seq<Block>, count: int)
    requires count <= |blocks|
  {
    forall i, j :: 0 <= i < j < count && j == i + 1 ==> blocks[i].value <= blocks[j].value
  }

  /** The weighted mean two blocks are pooled into. */
  function Pooled(a: Block, b: Block): Block
    requires a.weight + b.weight > 0
  {
    Block((a.value * a.weight as real + b.value * b.weight as real) / (a.weight as real + b.weight as real),
          a.weight + b.weight)
  }

  lemma NothingFits()
    ensures BlocksFit([], [])
  {
  }

  /** The pooled value lies between the two, and is exactly balanced. */
  lemma PooledMean(a: Block, b: Block)
    requires a.weight > 0 && b.weight > 0
    requires a.value > b.value
    ensures var m := Pooled(a, b).value;
            && b.value < m < a.value
            && Scale(m, a.weight + b.weight) == Scale(a.value, a.weight) + Scale(b.value, b.weight)
  {
    var x, y := a.weight as real, b.weight as real;
    var m := Pooled(a, b).value;
    DivideBack(a.value * x + b.value * y, x + y);
    MeanBetween(a.value, b.value, x, y, m);
    ScaleIsProduct(m, a.weight + b.weight);
    ScaleIsProduct(a.value, a.weight);
    ScaleIsProduct(b.value, b.weight);
  }

  lemma DivideBack(total: real, weight: real)
    requires weight > 0.0
    ensures Times(total / weight, weight) == total
  {
  }

  lemma MeanBetween(u: real, v: real, x: real, y: real, m: real)
    requires x > 0.0 && y > 0.0 && u > v
    requires Times(m, x + y) == Times(u, x) + Times(v, y)
    ensures v < m < u
  {
    Distribute(m, x, y);
    if m >= u {
      ProductOrder(u, m, x);
      ProductOrder(u, m, y);
      ProductOrder(v, u, y);
    }
    if m <= v {
      ProductOrder(m, v, x);
      ProductOrder(m, v, y);
      ProductOrder(v, u, x);
    }
  }

  /** Pooling two violating blocks keeps both halves of `BlockFits`. */
  lemma PooledFits(a: Block, b: Block, s: seq<real>, t: seq<real>)
    requires BlockFits(a, s) && BlockFits(b, t)
    requires a.value > b.value
    ensures a.weight + b.weight > 0 && a.weight <= |s| && b.weight <= |t|
    ensures BlockFits(Pooled(a, b), s + t)
  {
    PooledMean(a, b);
    var m := Pooled(a, b).value;
    SumConcat(s, t);
    forall k | 0 <= k <= |s + t|
      ensures Sum((s + t)[..k]) >= Scale(m, k)
    {
      if k <= |s| {
        assert (s + t)[..k] == s[..k];
        ScaleMonotone(m, a.value, k);
      } else {
        var j := k - |s|;
        assert (s + t)[..k] == s + t[..j];
        SumConcat(s, t[..j]);
        ScaleSplit(m, k, |t| - j);
        ScaleSplit(b.value, j, |t| - j);
        ScaleMonotone(b.value, m, |t| - j);
      }
    }
  }

  lemma {:induction false} FlattenAscends(blocks: seq<Block>)
    requires Ascending(blocks)
    ensures NonDecreasing(Flatten(blocks))
    ensures blocks != [] ==> forall v :: v in Flatten(blocks) ==> v <= blocks[|blocks| - 1].value
  {
    if blocks != [] {
      var k := |blocks| - 1;
      FlattenAscends(blocks[..k]);
      var head, last := Flatten(blocks[..k]), blocks[k];
      forall v | v in Flatten(blocks)
        ensures v <= last.value
      {
        if v in head {
          assert blocks[..k][k - 1].value <= last.value;
        }
      }
      forall i, j | 0 <= i < j < |Flatten(blocks)|
        ensures Flatten(blocks)[i] <= Flatten(blocks)[j]
      {
        if j >= |head| {
          assert Flatten(blocks)[j] == last.value;
          assert Flatten(blocks)[i] in Flatten(blocks);
        }
      }
    }
  }

  lemma AppendFits(blocks: seq<Block>, wants: seq<real>, b: Block, more: seq<real>)
    requires BlocksFit(blocks, wants) && BlockFits(b, more)
    ensures BlocksFit(blocks + [b], wants + more)
  {
    var all := wants + more;
    assert (blocks + [b])[..|blocks|] == blocks;
    assert all[..|all| - b.weight] == wants;
    assert all[|all| - b.weight..] == more;
  }

  /** The last two blocks replaced by their weighted mean. */
  function PoolTail(blocks: seq<Block>): (r: seq<Block>)
    requires |blocks| > 1
    requires blocks[|blocks| - 2].weight + blocks[|blocks| - 1].weight > 0
    ensures |r| == |blocks| - 1
    ensures forall i :: 0 <= i < |blocks| - 2 ==> r[i] == blocks[i]
  {
    var n := |blocks|;
    blocks[..n - 2] + [Pooled(blocks[n - 2], blocks[n - 1])]
  }

  lemma PoolLastTwo(blocks: seq<Block>, wants: seq<real>)
    requires |blocks| > 1 && BlocksFit(blocks, wants)
    requires blocks[|blocks| - 2].value > blocks[|blocks| - 1].value
    ensures var n := |blocks|;
            && blocks[n - 2].weight + blocks[n - 1].weight > 0
            && BlocksFit(PoolTail(blocks), wants)
  {
    hide Sum, Scale, Pooled, BlockFits;
    var n := |blocks|;
    var b, a := blocks[n - 1], blocks[n - 2];
    var head := wants[..|wants| - b.weight];
    assert blocks[..n - 1][n - 2] == a && blocks[..n - 1][..n - 2] == blocks[..n - 2];
    assert BlocksFit(blocks[..n - 1], head);
    var s, t := head[|head| - a.weight..], wants[|wants| - b.weight..];
    PooledFits(a, b, s, t);
    var front := head[..|head| - a.weight];
    AppendFits(blocks[..n - 2], front, Pooled(a, b), s + t);
    assert front + (s + t) == wants;
  }

  // ---- Optimality ----

  /**
   Within one block, every non-decreasing `s` is at least as far from `wants` as
   the block value is, by at least its own distance to the block value.
   */
  ghost function Cross(s: seq<real>, m: real, wants: seq<real>): real
    requires |s| == |wants|
  {
    if s == [] then 0.0
    else
      var k := |s| - 1;
      Cross(s[..k], m, wants[..k]) + Times(s[k] - m, m - wants[k])
  }

  /** Summation by parts: the cross term is bounded by the last residual. */
  lemma {:induction false} CrossBound(s: seq<real>, m: real, wants: seq<real>)
    requires |s| == |wants| > 0 && NonDecreasing(s)
    requires PrefixesAbove(m, wants)
    ensures Cross(s, m, wants) >= Times(s[|s| - 1] - m, Scale(m, |s|) - Sum(wants))
  {
    var k := |s| - 1;
    var w := wants[..k];
    var residual := Scale(m, k) - Sum(w);
    if k > 0 {
      FewerPrefixesAbove(m, wants, k);
      CrossBound(s[..k], m, w);
      ProductOrder(s[k - 1] - m, s[k] - m, residual);
    } else {
      assert w == [];
    }
    Distribute(s[k] - m, residual, m - wants[k]);
  }

  lemma FewerPrefixesAbove(m: real, wants: seq<real>, k: nat)
    requires k <= |wants| && PrefixesAbove(m, wants)
    ensures PrefixesAbove(m, wants[..k]) && Sum(wants[..k]) >= Scale(m, k)
  {
    var w := wants[..k];
    forall j | 0 <= j <= k
      ensures Sum(w[..j]) >= Scale(m, j)
    {
      assert w[..j] == wants[..j];
    }
  }

  lemma {:induction false} SqDistSplit(s: seq<real>, m: real, wants: seq<real>)
    requires |s| == |wants|
    ensures SqDist(s, wants) ==
            SqDist(s, Repeat(m, |s|)) + SqDist(Repeat(m, |s|), wants) + 2.0 * Cross(s, m, wants)
  {
    if s != [] {
      var k := |s| - 1;
      SqDistSplit(s[..k], m, wants[..k]);
      assert Repeat(m, |s|)[..k] == Repeat(m, k);
      SquareSplit(s[k], m, wants[k]);
    }
  }

  lemma SquareSplit(x: real, m: real, w: real)
    ensures Sq(x - w) == Sq(x - m) + Sq(m - w) + 2.0 * Times(x - m, m - w)
  {
  }

  lemma BlockBeats(b: Block, wants: seq<real>, s: seq<real>)
    requires BlockFits(b, wants) && |s| == |wants| && NonDecreasing(s)
    ensures SqDist(s, wants) >=
            SqDist(s, Repeat(b.value, |s|)) + SqDist(Repeat(b.value, |s|), wants)
  {
    SqDistSplit(s, b.value, wants);
    CrossBound(s, b.value, wants);
    TimesZero(s[|s| - 1] - b.value, Scale(b.value, |s|) - Sum(wants));
  }

  lemma TimesZero(x: real, z: real)
    ensures z == 0.0 ==> Times(x, z) == 0.0
  {
  }

  lemma NonDecreasingParts(s: seq<real>, cut: nat)
    requires NonDecreasing(s) && cut <= |s|
    ensures NonDecreasing(s[..cut]) && NonDecreasing(s[cut..])
  {
  }

  /** Any non-decreasing `s` is farther from `wants` than the fit, by its distance to the fit. */
  lemma {:induction false} FitBeats(blocks: seq<Block>, wants: seq<real>, s: seq<real>)
    requires BlocksFit(blocks, wants) && |s| == |wants| && NonDecreasing(s)
    ensures |Flatten(blocks)| == |wants|
    ensures SqDist(s, wants) >= SqDist(s, Flatten(blocks)) + SqDist(Flatten(blocks), wants)
  {
    hide Sum, Scale, Times, Sq, BlockFits, NonDecreasing;
    if blocks != [] {
      var last := blocks[|blocks| - 1];
      var cut := |wants| - last.weight;
      var rest := blocks[..|blocks| - 1];
      var tail := Repeat(last.value, last.weight);
      hide SqDist;
      NonDecreasingParts(s, cut);
      FitBeats(rest, wants[..cut], s[..cut]);
      BlockBeats(last, wants[cut..], s[cut..]);
      assert s == s[..cut] + s[cut..] && wants == wants[..cut] + wants[cut..];
      SqDistConcat(s[..cut], s[cut..], wants[..cut], wants[cut..]);
      SqDistConcat(s[..cut], s[cut..], Flatten(rest), tail);
      SqDistConcat(Flatten(rest), tail, wants[..cut], wants[cut..]);
    }
  }

  /** `r` is separated, and strictly closer to `desired` than every other separated arrangement. */
  ghost predicate ClosestSeparated(r: seq<real>, desired: seq<real>, gap: real) {
    && |r| == |desired|
    && Separated(r, gap)
    && forall s: seq<real> :: |s| == |desired| && Separated(s, gap) ==> NotCloser(s, r, desired)
  }

  /** The closest separated arrangement is unique, so `Pack` computes a function of its inputs. */
  lemma ClosestIsUnique(a: seq<real>, b: seq<real>, desired: seq<real>, gap: real)
    requires ClosestSeparated(a, desired, gap) && ClosestSeparated(b, desired, gap)
    ensures a == b
  {
    assert NotCloser(b, a, desired) && NotCloser(a, b, desired);
  }

  /** Wanted positions that already are separated are left where they are. */
  lemma SeparatedStaysPut(r: seq<real>, desired: seq<real>, gap: real)
    requires ClosestSeparated(r, desired, gap) && Separated(desired, gap)
    ensures r == desired
  {
    SqDistSelf(desired);
    SqDistZero(r, desired);
    assert NotCloser(desired, r, desired);
  }

  function Moved(s: seq<real>, move: real): (t: seq<real>)
    ensures |t| == |s| && forall i :: 0 <= i < |s| ==> t[i] == s[i] + move
  {
    seq(|s|, i requires 0 <= i < |s| => s[i] + move)
  }

  /** Moving a whole arrangement changes its distance by a parabola in the move. */
  lemma {:induction false} MovedDist(s: seq<real>, desired: seq<real>, c: real)
    requires |s| == |desired|
    ensures SqDist(Moved(s, c), desired) ==
            SqDist(s, desired) + 2.0 * Times(c, Sum(s) - Sum(desired)) + Scale(Sq(c), |s|)
  {
    if s == [] {
      TimesZero(c, Sum(s) - Sum(desired));
    } else {
      var k := |s| - 1;
      MovedDist(s[..k], desired[..k], c);
      assert Moved(s, c)[..k] == Moved(s[..k], c);
      MovedSquare(s[k] - desired[k], c);
      Distribute(c, Sum(s[..k]) - Sum(desired[..k]), s[k] - desired[k]);
    }
  }

  lemma MovedSquare(x: real, c: real)
    ensures Sq(x + c) == Sq(x) + 2.0 * Times(c, x) + Sq(c)
  {
  }

  /** A packed layer keeps the average of its wishes: it is centred on them, whatever had to be pushed apart. */
  lemma CentreKept(r: seq<real>, desired: seq<real>, gap: real)
    requires ClosestSeparated(r, desired, gap) && r != []
    ensures Sum(r) == Sum(desired)
  {
    var d, n := Sum(r) - Sum(desired), |r| as real;
    var c := -d / n;
    var gain := 2.0 * Times(c, d) + Times(Sq(c), n);
    MovedDist(r, desired, c);
    ScaleIsProduct(Sq(c), |r|);
    MovedSeparated(r, c, gap);
    assert NotCloser(Moved(r, c), r, desired);
    assert gain >= 0.0;
    NoGain(c, d, n);
  }

  lemma MovedSeparated(s: seq<real>, c: real, gap: real)
    requires Separated(s, gap)
    ensures Separated(Moved(s, c), gap)
  {
  }

  lemma NoGain(c: real, d: real, n: real)
    requires n > 0.0 && c == -d / n && 2.0 * Times(c, d) + Times(Sq(c), n) >= 0.0
    ensures d == 0.0
  {
    ProductOrder(0.0, 2.0 * Times(c, d) + Times(Sq(c), n), n);
    SquarePositive(d);
  }

  lemma {:induction false} SqDistSelf(s: seq<real>)
    ensures SqDist(s, s) == 0.0
  {
    if s != [] {
      SqDistSelf(s[..|s| - 1]);
    }
  }

  /** `fit` is strictly closer to `wants` than every other non-decreasing vector. */
  ghost predicate BestFit(fit: seq<real>, wants: seq<real>) {
    && |fit| == |wants|
    && NonDecreasing(fit)
    && forall s: seq<real> :: |s| == |wants| && NonDecreasing(s) ==> NotCloser(s, fit, wants)
  }

  ghost predicate NotCloser(s: seq<real>, fit: seq<real>, wants: seq<real>)
    requires |s| == |fit| == |wants|
  {
    && SqDist(fit, wants) <= SqDist(s, wants)
    && (SqDist(fit, wants) == SqDist(s, wants) ==> s == fit)
  }

  lemma FitIsBest(blocks: seq<Block>, wants: seq<real>)
    requires BlocksFit(blocks, wants) && Ascending(blocks)
    ensures BestFit(Flatten(blocks), wants)
  {
    FlattenAscends(blocks);
    forall s: seq<real> | |s| == |wants| && NonDecreasing(s)
      ensures NotCloser(s, Flatten(blocks), wants)
    {
      FitBeats(blocks, wants, s);
      SqDistZero(s, Flatten(blocks));
    }
  }

  lemma TiltedNotCloser(s: seq<real>, r: seq<real>, fit: seq<real>, desired: seq<real>, slope: real)
    requires |s| == |r| == |fit| == |desired|
    requires Tilt(r, slope) == fit
    requires NotCloser(Tilt(s, slope), fit, Tilt(desired, slope))
    ensures NotCloser(s, r, desired)
  {
    SqDistTilt(r, desired, slope);
    SqDistTilt(s, desired, slope);
    if Tilt(s, slope) == fit {
      TiltInjective(r, s, slope);
    }
  }

  lemma TiltedFitIsClosest(fit: seq<real>, desired: seq<real>, gap: real)
    requires BestFit(fit, Tilt(desired, -gap))
    ensures ClosestSeparated(Tilt(fit, gap), desired, gap)
  {
    var r := Tilt(fit, gap);
    TiltBack(fit, gap);
    SeparatedIsNonDecreasing(r, gap);
    forall s: seq<real> | |s| == |desired| && Separated(s, gap)
      ensures NotCloser(s, r, desired)
    {
      CompetitorNotCloser(s, r, fit, desired, gap);
    }
  }

  lemma CompetitorNotCloser(s: seq<real>, r: seq<real>, fit: seq<real>, desired: seq<real>, gap: real)
    requires BestFit(fit, Tilt(desired, -gap))
    requires |s| == |r| == |desired| && Separated(s, gap)
    requires Tilt(r, -gap) == fit
    ensures NotCloser(s, r, desired)
  {
    hide NonDecreasing, SqDist, Scale;
    SeparatedIsNonDecreasing(s, gap);
    assert NotCloser(Tilt(s, -gap), fit, Tilt(desired, -gap));
    TiltedNotCloser(s, r, fit, desired, -gap);
  }

  lemma ShiftedEntries(desired: seq<real>, gap: real)
    ensures forall i :: 0 <= i < |desired| ==> Shifted(desired, gap, i) == Tilt(desired, -gap)[i]
  {
    forall i | 0 <= i < |desired|
      ensures Shifted(desired, gap, i) == Tilt(desired, -gap)[i]
    {
      ScaleIsProduct(gap, i);
      ScaleCancels(gap, i);
    }
  }

  /** What entry i wants once its share of the gaps is taken off. */
  function Shifted(desired: seq<real>, gap: real, i: nat): real
    requires i < |desired|
  {
    desired[i] - i as real * gap
  }

  /** The offsets added back to the fitted values. */
  function Spread(flat: seq<real>, gap: real): seq<real> {
    seq(|flat|, i requires 0 <= i < |flat| => flat[i] + i as real * gap)
  }

  lemma SpreadIsTilt(flat: seq<real>, gap: real)
    ensures Spread(flat, gap) == Tilt(flat, gap)
  {
    forall i | 0 <= i < |flat|
      ensures Spread(flat, gap)[i] == Tilt(flat, gap)[i]
    {
      ScaleIsProduct(gap, i);
    }
  }

  lemma OneFits(want: real)
    ensures BlockFits(Block(want, 1), [want])
  {
    assert [want][..0] == [] && [want][..1] == [want];
  }

  lemma PushFits(blocks: seq<Block>, wants: seq<real>, i: nat)
    requires i < |wants| && BlocksFit(blocks, wants[..i])
    ensures BlocksFit(blocks + [Block(wants[i], 1)], wants[..i + 1])
  {
    hide Sum, Scale, BlocksFit, BlockFits;
    OneFits(wants[i]);
    AppendFits(blocks, wants[..i], Block(wants[i], 1), [wants[i]]);
    assert wants[..i] + [wants[i]] == wants[..i + 1];
  }

  /** The first loop of `_pack`: entries are pushed one at a time and pooled while they violate the order. */
  method Pool(desired: seq<real>, gap: real, ghost wants: seq<real>) returns (blocks: seq<Block>)
    requires |wants| == |desired|
    requires forall i :: 0 <= i < |desired| ==> Shifted(desired, gap, i) == wants[i]
    ensures BlocksFit(blocks, wants) && Ascending(blocks)
  {
    hide Sum, Scale, BlocksFit, Pooled;
    blocks := [];
    NothingFits();
    assert wants[..0] == [];
    for i := 0 to |desired|
      invariant BlocksFit(blocks, wants[..i])
      invariant Ascending(blocks)
    {
      var want := Shifted(desired, gap, i);
      PushFits(blocks, wants, i);
      blocks := blocks + [Block(want, 1)];
      while |blocks| > 1 && blocks[|blocks| - 2].value > blocks[|blocks| - 1].value
        invariant blocks != [] && BlocksFit(blocks, wants[..i + 1])
        invariant AscendingBelow(blocks, |blocks| - 1)
        decreases |blocks|
      {
        PoolLastTwo(blocks, wants[..i + 1]);
        blocks := PoolTail(blocks);
      }
    }
    assert wants[..|desired|] == wants;
  }

  /** `_pack`: the pooled blocks written out, with the offsets added back. */
  method Pack(desired: seq<real>, gap: real) returns (r: seq<real>)
    ensures ClosestSeparated(r, desired, gap)
  {
    ShiftedEntries(desired, gap);
    var blocks := Pool(desired, gap, Tilt(desired, -gap));
    var flat: seq<real> := [];
    for j := 0 to |blocks|
      invariant flat == Flatten(blocks[..j])
    {
      assert blocks[..j + 1][..j] == blocks[..j];
      flat := flat + Repeat(blocks[j].value, blocks[j].weight);
    }
    assert blocks[..|blocks|] == blocks;
    FitIsBest(blocks, Tilt(desired, -gap));
    TiltedFitIsClosest(flat, desired, gap);
    SpreadIsTilt(flat, gap);
    r := Spread(flat, gap);
  }
}
