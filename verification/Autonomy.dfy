/**
 When the meta-LLM may decide alone: `_streak`, `_consult_meta_llm`,
 `_apply_autonomous_decision` and the autonomy branch of `open_case` in
 app/application/approval_service.py:120-145, 229-237, 268-288, 340-384.

 One bucket of the decision history is a log of what happened in it, oldest
 first.  `open_case` is one step.
 */
module Autonomy {
  import opened Common

  /** How many prior cases the meta-LLM, and the streak, look at. */
  const HISTORY_WINDOW := 25
  const DEFAULT_THRESHOLD := 10

  datatype Status = Approved | Rejected

  /** A case as the history returns it: how it was decided, and whether by the meta-LLM. */
  datatype Decided = Decided(status: Status, byMetaLlm: bool)

  datatype Reply = Approve | Reject | Abstain

  // ---- The streak ----

  /** `value` is the decision and `length` the number of unbroken human decisions at the head of `history`. */
  ghost predicate IsStreak(history: seq<Decided>, value: Option<Status>, length: nat) {
    && length <= |history|
    && (value.None? <==> length == 0)
    && (forall i :: 0 <= i < length ==> history[i] == Decided(value.value, false))
    && (length < |history| ==> history[length].byMetaLlm || (value.Some? && history[length].status != value.value))
  }

  lemma StreakIsUnique(history: seq<Decided>, v: Option<Status>, n: nat, v': Option<Status>, n': nat)
    requires IsStreak(history, v, n) && IsStreak(history, v', n')
    ensures v == v' && n == n'
  {
    if n > 0 && n' > 0 {
      assert history[0] == Decided(v.value, false) && history[0] == Decided(v'.value, false);
    }
  }

  /** `_streak` */
  method Streak(history: seq<Decided>) returns (value: Option<Status>, length: nat)
    ensures IsStreak(history, value, length)
  {
    value, length := None, 0;
    while length < |history|
      invariant length <= |history|
      invariant value.None? <==> length == 0
      invariant forall i :: 0 <= i < length ==> history[i] == Decided(value.value, false)
      decreases |history| - length
    {
      var c := history[length];
      if c.byMetaLlm {
        break;
      }
      if value.None? {
        value := Some(c.status);
      } else if c.status != value.value {
        break;
      }
      length := length + 1;
    }
  }

  /** `int(setting or 10)` */
  function Threshold(setting: int): int {
    if setting == 0 then DEFAULT_THRESHOLD else setting
  }

  function Matches(reply: Reply, status: Status): bool {
    reply == if status == Approved then Approve else Reject
  }

  /** The head of the history earns `status` the right to be decided alone. */
  ghost predicate Earned(history: seq<Decided>, setting: int, status: Status) {
    exists n: nat :: n >= Threshold(setting) && IsStreak(history, Some(status), n)
  }

  /** What it takes: the newest decisions, as many as the threshold and at least one, are all people's and all that. */
  lemma EarnedMeans(history: seq<Decided>, setting: int, status: Status)
    ensures var least := if setting == 0 then 10 else if setting < 1 then 1 else setting;
            Earned(history, setting, status) <==>
              |history| >= least && forall i :: 0 <= i < least ==> history[i] == Decided(status, false)
  {
    var least := if setting == 0 then 10 else if setting < 1 then 1 else setting;
    if |history| >= least && forall i :: 0 <= i < least ==> history[i] == Decided(status, false) {
      var n: nat := least;
      while n < |history| && history[n] == Decided(status, false)
        invariant least <= n <= |history|
        invariant forall i :: 0 <= i < n ==> history[i] == Decided(status, false)
      {
        n := n + 1;
      }
      assert IsStreak(history, Some(status), n);
    }
  }

  /**
   `_consult_meta_llm`, the decision part: alone only if the streak is long
   enough and the model says what the streak says.
   */
  method Consult(history: seq<Decided>, enabled: bool, setting: int, reply: Option<Reply>) returns (alone: Option<Status>)
    ensures alone == Some(Approved) <==> enabled && reply == Some(Approve) && Earned(history, setting, Approved)
    ensures alone == Some(Rejected) <==> enabled && reply == Some(Reject) && Earned(history, setting, Rejected)
    ensures reply.None? || reply == Some(Abstain) ==> alone.None?
  {
    alone := None;
    if history == [] || !enabled {
      forall s, n: nat
        ensures history == [] ==> !IsStreak(history, Some(s), n)
      {
      }
      return;
    }
    var value, length := Streak(history);
    var autonomous := value.Some? && length >= Threshold(setting);
    if reply.None? {
      return;
    }
    if autonomous && Matches(reply.value, value.value) {
      alone := value;
    }
    forall s | Earned(history, setting, s)
      ensures value == Some(s) && autonomous
    {
      var n: nat :| n >= Threshold(setting) && IsStreak(history, Some(s), n);
      StreakIsUnique(history, value, length, Some(s), n);
    }
  }

  // ---- One bucket over time ----

  datatype Event =
    | Human(status: Status)
    | Auto(status: Status)
    | Veto(of: nat)

  /** Log position i is a decision that still stands: a vetoed one is cancelled and leaves the history. */
  ghost predicate Stands(log: seq<Event>, i: nat)
    requires i < |log|
  {
    log[i].Human? || (log[i].Auto? && Veto(i) !in log)
  }

  /** The standing decisions among the first n events, oldest first, by log position. */
  ghost function Standing(log: seq<Event>, n: nat): seq<nat>
    requires n <= |log|
  {
    if n == 0 then []
    else Standing(log, n - 1) + if Stands(log, n - 1) then [n - 1] else []
  }

  /** Newest first. */
  ghost function Newest(log: seq<Event>, positions: seq<nat>): seq<Decided>
    requires forall i :: 0 <= i < |positions| ==> positions[i] < |log| && !log[positions[i]].Veto?
  {
    seq(|positions|, i requires 0 <= i < |positions| =>
      var e := log[positions[|positions| - 1 - i]]; Decided(e.status, e.Auto?))
  }

  lemma {:induction false} StandingAscends(log: seq<Event>, n: nat)
    requires n <= |log|
    ensures forall i :: 0 <= i < |Standing(log, n)| ==> Standing(log, n)[i] < n && Stands(log, Standing(log, n)[i])
    ensures forall i, j :: 0 <= i < j < |Standing(log, n)| ==> Standing(log, n)[i] < Standing(log, n)[j]
    ensures forall k :: 0 <= k < n && Stands(log, k) ==> k in Standing(log, n)
  {
    if n > 0 {
      StandingAscends(log, n - 1);
      var before := Standing(log, n - 1);
      assert forall k :: k in before ==> k in Standing(log, n);
      if Stands(log, n - 1) {
        assert Standing(log, n)[|before|] == n - 1;
      }
    }
  }

  /** `history(key, limit)`: the standing decisions of the bucket, newest first, at most the window. */
  ghost function History(log: seq<Event>): seq<Decided> {
    StandingAscends(log, |log|);
    Windowed(Newest(log, Standing(log, |log|)))
  }

  function Windowed(all: seq<Decided>): seq<Decided> {
    if |all| <= HISTORY_WINDOW then all else all[..HISTORY_WINDOW]
  }

  /** A log the service can produce: whatever people do, the meta-LLM decides alone only when that is earned. */
  ghost predicate Legal(log: seq<Event>, setting: int) {
    forall k :: 0 <= k < |log| ==> LegalAt(log, setting, k)
  }

  ghost predicate LegalAt(log: seq<Event>, setting: int, k: nat)
    requires k < |log|
  {
    match log[k]
    case Human(_) => true
    case Auto(s) => Earned(History(log[..k]), setting, s)
    case Veto(i) => i < k && log[i].Auto?
  }

  /** The bucket, as the cases in it are opened, answered and vetoed. */
  class Bucket {
    const setting: int
    ghost var log: seq<Event>

    constructor (setting: int)
      ensures this.setting == setting && log == []
    {
      this.setting := setting;
      log := [];
    }

    /**
     The autonomy branch of `open_case`, given what the history returned: an
     earned and confirmed decision is taken unless the operation is on probation.
     */
    method OpenCase(history: seq<Decided>, enabled: bool, reply: Option<Reply>, probation: bool) returns (alone: Option<Status>)
      requires history == History(log) && Legal(log, setting)
      modifies this
      ensures Legal(log, setting)
      ensures log == if alone.Some? then old(log) + [Auto(alone.value)] else old(log)
      ensures alone == Some(Approved) <==>
                enabled && !probation && reply == Some(Approve) && Earned(history, setting, Approved)
      ensures alone == Some(Rejected) <==>
                enabled && !probation && reply == Some(Reject) && Earned(history, setting, Rejected)
    {
      alone := Consult(history, enabled, setting, reply);
      if probation {
        alone := None;
      }
      if alone.Some? {
        assert alone.value.Approved? || alone.value.Rejected?;
        LegalAppend(log, setting, Auto(alone.value));
        log := log + [Auto(alone.value)];
      }
    }

    /** A person answers a case. */
    method Answer(approved: bool)
      requires Legal(log, setting)
      modifies this
      ensures Legal(log, setting)
      ensures log == old(log) + [Human(if approved then Approved else Rejected)]
    {
      LegalAppend(log, setting, Human(if approved then Approved else Rejected));
      log := log + [Human(if approved then Approved else Rejected)];
    }

    /** A person cancels the autonomous decision at log position i. */
    method Cancel(ghost i: nat)
      requires Legal(log, setting) && i < |log| && log[i].Auto?
      modifies this
      ensures Legal(log, setting)
      ensures log == old(log) + [Veto(i)]
    {
      LegalAppend(log, setting, Veto(i));
      log := log + [Veto(i)];
    }
  }

  lemma LegalAppend(log: seq<Event>, setting: int, e: Event)
    requires Legal(log, setting)
    requires LegalAt(log + [e], setting, |log|)
    ensures Legal(log + [e], setting)
  {
    var longer := log + [e];
    forall k | 0 <= k < |log|
      ensures LegalAt(longer, setting, k)
    {
      assert LegalAt(log, setting, k);
      assert longer[..k] == log[..k];
    }
  }

  // ---- What autonomy rests on ----

  /** `hs` are log positions strictly between i and j where a person decided `status`. */
  ghost predicate HumansBetween(log: seq<Event>, i: int, j: nat, status: Status, hs: seq<nat>) {
    && (forall k :: 0 <= k < |hs| ==> i < hs[k] < j <= |log| && log[hs[k]] == Human(status))
    && forall k, l :: 0 <= k < l < |hs| ==> hs[k] < hs[l]
  }

  /** The newest n standing positions before j. */
  ghost function LastStanding(log: seq<Event>, j: nat, n: nat): seq<nat>
    requires j <= |log| && n <= |Standing(log[..j], j)|
  {
    var all := Standing(log[..j], j);
    all[|all| - n..]
  }

  /** Entry i of the history is the i-th newest standing decision. */
  lemma HistoryEntry(log: seq<Event>, i: nat)
    requires i < |History(log)|
    ensures i < |Standing(log, |log|)|
    ensures var p := Standing(log, |log|)[|Standing(log, |log|)| - 1 - i];
            p < |log| && !log[p].Veto? && History(log)[i] == Decided(log[p].status, log[p].Auto?)
  {
    hide Standing;
    StandingAscends(log, |log|);
    var all := Standing(log, |log|);
    assert Newest(log, all)[i] == History(log)[i];
  }

  /** The decisions the streak counted, found in the log. */
  lemma StreakInLog(log: seq<Event>, j: nat, status: Status, n: nat)
    requires j <= |log| && IsStreak(History(log[..j]), Some(status), n)
    ensures n <= |Standing(log[..j], j)|
    ensures HumansBetween(log, -1, j, status, LastStanding(log, j, n))
  {
    hide Standing, History;
    var prefix := log[..j];
    StandingAscends(prefix, j);
    var all := Standing(prefix, j);
    if n > 0 {
      HistoryEntry(prefix, n - 1);
    }
    var hs := LastStanding(log, j, n);
    forall k | 0 <= k < |hs|
      ensures -1 < hs[k] < j && log[hs[k]] == Human(status)
    {
      HistoryEntry(prefix, n - 1 - k);
      assert hs[k] == all[|all| - 1 - (n - 1 - k)];
    }
  }

  /** No standing decision is left out of `hs` once one at or before it is in. */
  ghost predicate Unbroken(log: seq<Event>, j: nat, hs: seq<nat>)
    requires j <= |log|
  {
    forall k, h :: 0 <= k < j && Stands(log[..j], k) && h in hs && h <= k ==> k in hs
  }

  lemma LastStandingUnbroken(log: seq<Event>, j: nat, n: nat)
    requires j <= |log| && n <= |Standing(log[..j], j)|
    ensures Unbroken(log, j, LastStanding(log, j, n))
  {
    StandingAscends(log[..j], j);
    var all := Standing(log[..j], j);
    var cut := |all| - n;
    forall k, h | 0 <= k < j && Stands(log[..j], k) && h in all[cut..] && h <= k
      ensures k in all[cut..]
    {
      var a :| 0 <= a < |all| && all[a] == k;
      var b :| 0 <= b < n && all[cut..][b] == h;
      assert all[cut + b] == h;
      assert a >= cut + b;
      assert all[cut..][a - cut] == k;
    }
  }

  /** Each autonomous decision repeats at least `threshold` human ones standing unbroken just before it. */
  lemma AutonomyIsEarned(log: seq<Event>, setting: int, j: nat) returns (hs: seq<nat>)
    requires Legal(log, setting) && j < |log| && log[j].Auto?
    ensures |hs| >= Threshold(setting) && |hs| >= 1
    ensures HumansBetween(log, -1, j, log[j].status, hs)
    ensures Unbroken(log, j, hs)
  {
    hide HumansBetween, Unbroken, Standing;
    assert LegalAt(log, setting, j);
    var n: nat :| n >= Threshold(setting) && IsStreak(History(log[..j]), Some(log[j].status), n);
    StreakInLog(log, j, log[j].status, n);
    hs := LastStanding(log, j, n);
    LastStandingUnbroken(log, j, n);
  }

  /**
   Two autonomous decisions are separated by at least `threshold` human ones,
   as long as the first was not vetoed before the second was made.
   */
  lemma UnvetoedAutonomyIsSeparated(log: seq<Event>, setting: int, i: nat, j: nat) returns (hs: seq<nat>)
    requires Legal(log, setting) && i < j < |log| && log[i].Auto? && log[j].Auto?
    requires Veto(i) !in log[..j]
    ensures |hs| >= Threshold(setting) && |hs| >= 1
    ensures HumansBetween(log, i, j, log[j].status, hs)
  {
    hs := AutonomyIsEarned(log, setting, j);
    assert Stands(log[..j], i);
    forall k | 0 <= k < |hs|
      ensures i < hs[k]
    {
      assert hs[k] in hs;
      assert hs[k] <= i ==> i in hs;
    }
  }

  /** A threshold beyond the window can never be met: the service never decides alone. */
  lemma UnreachableAutonomy(log: seq<Event>, setting: int, j: nat)
    requires Legal(log, setting) && j < |log|
    requires Threshold(setting) > HISTORY_WINDOW
    ensures !log[j].Auto?
  {
    assert LegalAt(log, setting, j);
  }

  // ---- What a veto undoes ----

  ghost predicate VetoesPast(log: seq<Event>) {
    forall e :: e in log && e.Veto? ==> e.of < |log|
  }

  lemma LegalVetoesPast(log: seq<Event>, setting: int)
    requires Legal(log, setting)
    ensures VetoesPast(log)
  {
    forall e | e in log && e.Veto?
      ensures e.of < |log|
    {
      var k :| 0 <= k < |log| && log[k] == e;
      assert LegalAt(log, setting, k);
    }
  }

  lemma {:induction false} SameStanding(log: seq<Event>, longer: seq<Event>, n: nat)
    requires n <= |log| <= |longer|
    requires forall i :: 0 <= i < n ==> (Stands(log, i) <==> Stands(longer, i))
    ensures Standing(longer, n) == Standing(log, n)
  {
    if n > 0 {
      SameStanding(log, longer, n - 1);
    }
  }

  lemma DecisionStands(log: seq<Event>, e: Event)
    requires VetoesPast(log) && !e.Veto?
    ensures Standing(log + [e], |log| + 1) == Standing(log, |log|) + [|log|]
  {
    var longer := log + [e];
    assert forall i :: 0 <= i < |log| ==> (Stands(log, i) <==> Stands(longer, i));
    SameStanding(log, longer, |log|);
    assert Stands(longer, |log|);
  }

  /** A new decision joins the history at its head. */
  lemma DecisionJoinsHistory(log: seq<Event>, e: Event)
    requires VetoesPast(log) && !e.Veto?
    ensures History(log + [e]) == Windowed([Decided(e.status, e.Auto?)] + History(log))
  {
    hide Standing;
    var longer := log + [e];
    DecisionStands(log, e);
    StandingAscends(log, |log|);
    StandingAscends(longer, |longer|);
    var all := Newest(log, Standing(log, |log|));
    assert Newest(longer, Standing(longer, |longer|)) == [Decided(e.status, e.Auto?)] + all;
  }

  /** A decision that is vetoed leaves the history as it was without it. */
  lemma VetoRestoresHistory(log: seq<Event>, status: Status)
    requires VetoesPast(log)
    ensures History(log + [Auto(status), Veto(|log|)]) == History(log)
  {
    var longer := log + [Auto(status), Veto(|log|)];
    assert longer[|log| + 1] == Veto(|log|);
    assert forall i :: 0 <= i < |log| && Veto(i) in longer ==> Veto(i) in log;
    assert forall i :: 0 <= i < |log| && Veto(i) in log ==> Veto(i) in longer;
    SameStanding(log, longer, |log|);
    assert Standing(longer, |longer|) == Standing(longer, |log|);
    StandingAscends(log, |log|);
    assert Newest(longer, Standing(log, |log|)) == Newest(log, Standing(log, |log|));
  }

  /** Each veto is of an autonomous decision before it. */
  ghost predicate VetoesBack(log: seq<Event>) {
    forall k :: 0 <= k < |log| && log[k].Veto? ==> log[k].of < k && log[log[k].of].Auto?
  }

  predicate Dropped(log: seq<Event>, n: nat, k: nat)
    requires k < |log|
  {
    k == n || log[k] == Veto(n)
  }

  /** The log as if the decision at n, and with it its vetoes, had never been; the other vetoes follow their decisions. */
  function Without(log: seq<Event>, n: nat): seq<Event> {
    if log == [] then []
    else
      var k := |log| - 1;
      Without(log[..k], n) +
        if Dropped(log, n, k) then []
        else if log[k].Veto? && log[k].of <= k then [Veto(|Without(log[..log[k].of], n)|)]
        else [log[k]]
  }

  /** Where position p of the log ends up. */
  function Place(log: seq<Event>, n: nat, p: nat): nat
    requires p <= |log|
  {
    |Without(log[..p], n)|
  }

  lemma {:induction false} WithoutPrefix(log: seq<Event>, n: nat, p: nat)
    requires p <= |log|
    ensures Without(log[..p], n) <= Without(log, n)
    decreases |log|
  {
    if p == |log| {
      assert log[..p] == log;
    } else {
      var k := |log| - 1;
      WithoutPrefix(log[..k], n, p);
      assert log[..k][..p] == log[..p];
    }
  }

  /** What stays of one position. */
  lemma PlaceStep(log: seq<Event>, n: nat, k: nat)
    requires k < |log| && VetoesBack(log)
    ensures Place(log, n, k + 1) == Place(log, n, k) + if Dropped(log, n, k) then 0 else 1
    ensures Place(log, n, k + 1) <= |Without(log, n)|
    ensures !Dropped(log, n, k) ==>
              Without(log, n)[Place(log, n, k)] == if log[k].Veto? then Veto(Place(log, n, log[k].of)) else log[k]
  {
    var front := log[..k + 1];
    assert front[..k] == log[..k];
    WithoutPrefix(log, n, k + 1);
    if log[k].Veto? {
      assert front[..log[k].of] == log[..log[k].of];
    }
  }

  lemma {:induction false} PlaceGrows(log: seq<Event>, n: nat, p: nat, q: nat)
    requires p <= q <= |log|
    ensures Place(log, n, p) <= Place(log, n, q)
  {
    WithoutPrefix(log[..q], n, p);
    assert log[..q][..p] == log[..p];
  }

  /** Every position of the shorter log comes from one that stays. */
  lemma {:induction false} PlaceOf(log: seq<Event>, n: nat, m: nat, j: nat) returns (k: nat)
    requires m <= |log| && j < Place(log, n, m) && VetoesBack(log)
    ensures k < m && !Dropped(log, n, k) && Place(log, n, k) == j
    decreases m
  {
    PlaceStep(log, n, m - 1);
    if j == Place(log, n, m - 1) {
      k := m - 1;
    } else {
      k := PlaceOf(log, n, m - 1, j);
    }
  }

  /** A decision that stays is vetoed in the shorter log exactly when it was. */
  lemma VetoesFollow(log: seq<Event>, n: nat, p: nat)
    requires VetoesBack(log) && Veto(n) in log && p < |log| && !log[p].Veto? && p != n
    ensures Veto(p) in log <==> Veto(Place(log, n, p)) in Without(log, n)
  {
    var w := Without(log, n);
    assert log[..|log|] == log;
    PlaceStep(log, n, p);
    if Veto(p) in log {
      var k :| 0 <= k < |log| && log[k] == Veto(p);
      assert !Dropped(log, n, k);
      PlaceStep(log, n, k);
      assert w[Place(log, n, k)] == Veto(Place(log, n, p));
    }
    if Veto(Place(log, n, p)) in w {
      var j :| 0 <= j < |w| && w[j] == Veto(Place(log, n, p));
      var k := PlaceOf(log, n, |log|, j);
      PlaceStep(log, n, k);
      var i := log[k].of;
      PlaceStep(log, n, i);
      if i < p {
        PlaceGrows(log, n, i + 1, p);
      } else if p < i {
        PlaceGrows(log, n, p + 1, i);
      }
      assert log[k] == Veto(p);
    }
  }

  /** The standing decisions among the first m events, newest first. */
  ghost function NewestOf(log: seq<Event>, m: nat): seq<Decided>
    requires m <= |log|
  {
    if m == 0 then []
    else
      var e := log[m - 1];
      (if Stands(log, m - 1) then [Decided(e.status, e.Auto?)] else []) + NewestOf(log, m - 1)
  }

  lemma {:induction false} NewestIsNewestOf(log: seq<Event>, m: nat)
    requires m <= |log|
    ensures forall i :: 0 <= i < |Standing(log, m)| ==> Standing(log, m)[i] < |log| && !log[Standing(log, m)[i]].Veto?
    ensures Newest(log, Standing(log, m)) == NewestOf(log, m)
  {
    StandingAscends(log, m);
    if m > 0 {
      NewestIsNewestOf(log, m - 1);
      hide NewestOf, Standing;
      StandingGrows(log, m);
      if Stands(log, m - 1) {
        NewestGrows(log, Standing(log, m - 1), m - 1);
      }
    }
  }

  lemma StandingGrows(log: seq<Event>, m: nat)
    requires 0 < m <= |log|
    ensures Standing(log, m) == Standing(log, m - 1) + if Stands(log, m - 1) then [m - 1] else []
    ensures NewestOf(log, m) ==
            (if Stands(log, m - 1) then [Decided(log[m - 1].status, log[m - 1].Auto?)] else []) + NewestOf(log, m - 1)
  {
  }

  lemma NewestGrows(log: seq<Event>, positions: seq<nat>, p: nat)
    requires forall i :: 0 <= i < |positions| ==> positions[i] < |log| && !log[positions[i]].Veto?
    requires p < |log| && !log[p].Veto?
    ensures Newest(log, positions + [p]) == [Decided(log[p].status, log[p].Auto?)] + Newest(log, positions)
  {
  }

  lemma {:induction false} SameDecisions(log: seq<Event>, n: nat, m: nat)
    requires VetoesBack(log) && Veto(n) in log && m <= |log|
    ensures Place(log, n, m) <= |Without(log, n)|
    ensures NewestOf(Without(log, n), Place(log, n, m)) == NewestOf(log, m)
    decreases m
  {
    WithoutPrefix(log, n, m);
    if m > 0 {
      var k := m - 1;
      SameDecisions(log, n, k);
      PlaceStep(log, n, k);
      if !Dropped(log, n, k) && !log[k].Veto? {
        VetoesFollow(log, n, k);
      }
    }
  }

  /** A vetoed decision leaves no trace: whatever came in between, the history is the one it would be without it. */
  lemma VetoedLeavesNoTrace(log: seq<Event>, setting: int, n: nat)
    requires Legal(log, setting) && n < |log| && Veto(n) in log
    ensures History(log) == History(Without(log, n))
  {
    forall k | 0 <= k < |log| && log[k].Veto?
      ensures log[k].of < k && log[log[k].of].Auto?
    {
      assert LegalAt(log, setting, k);
    }
    SameDecisions(log, n, |log|);
    assert log[..|log|] == log;
    NewestIsNewestOf(log, |log|);
    NewestIsNewestOf(Without(log, n), |Without(log, n)|);
  }

  function Humans(n: nat, status: Status): (log: seq<Event>)
    ensures |log| == n && forall i :: 0 <= i < n ==> log[i] == Human(status)
  {
    seq(n, _ => Human(status))
  }

  /** A row of like human decisions lengthens a streak, up to the window. */
  lemma {:induction false} StreakGrows(log: seq<Event>, value: Option<Status>, n: nat, k: nat, status: Status)
    requires VetoesPast(log) && IsStreak(History(log), value, n) && value in {None, Some(status)}
    ensures VetoesPast(log + Humans(k, status))
    ensures IsStreak(History(log + Humans(k, status)), if k == 0 then value else Some(status),
                     if n + k <= HISTORY_WINDOW then n + k else HISTORY_WINDOW)
  {
    hide History;
    HistoryFits(log);
    if k == 0 {
      assert log + Humans(0, status) == log;
    } else {
      StreakGrows(log, value, n, k - 1, status);
      var shorter := log + Humans(k - 1, status);
      assert log + Humans(k, status) == shorter + [Human(status)];
      HistoryFits(shorter);
      DecisionJoinsHistory(shorter, Human(status));
    }
  }

  lemma HistoryFits(log: seq<Event>)
    ensures |History(log)| <= HISTORY_WINDOW
  {
  }

  lemma {:induction false} HumansAreLegal(log: seq<Event>, setting: int, k: nat, status: Status)
    requires Legal(log, setting)
    ensures Legal(log + Humans(k, status), setting)
  {
    if k == 0 {
      assert log + Humans(0, status) == log;
    } else {
      HumansAreLegal(log, setting, k - 1, status);
      assert log + Humans(k, status) == log + Humans(k - 1, status) + [Human(status)];
      LegalAppend(log + Humans(k - 1, status), setting, Human(status));
    }
  }

  lemma EarnedExactly(history: seq<Decided>, setting: int, value: Option<Status>, n: nat, status: Status)
    requires IsStreak(history, value, n)
    ensures Earned(history, setting, status) <==> value == Some(status) && n >= Threshold(setting)
  {
    if Earned(history, setting, status) {
      var m: nat :| m >= Threshold(setting) && IsStreak(history, Some(status), m);
      StreakIsUnique(history, value, n, Some(status), m);
    }
  }

  /** The log after an autonomous decision, its veto if it is vetoed at once, and k like human decisions. */
  function Afterwards(log: seq<Event>, status: Status, vetoed: bool, k: nat): seq<Event> {
    log + (if vetoed then [Auto(status), Veto(|log|)] else [Auto(status)]) + Humans(k, status)
  }

  /** What has been decided alone is legal to decide again. */
  lemma VetoedIsLegalAgain(log: seq<Event>, setting: int, status: Status, again: Status)
    requires Legal(log, setting) && Earned(History(log), setting, status)
    ensures var vetoed := log + [Auto(status), Veto(|log|)];
            Legal(vetoed, setting) && (Legal(vetoed + [Auto(again)], setting) <==> again == status)
  {
    hide History;
    LegalVetoesPast(log, setting);
    VetoRestoresHistory(log, status);
    var decided := log + [Auto(status)];
    assert decided[..|log|] == log;
    LegalAppend(log, setting, Auto(status));
    var vetoed := log + [Auto(status), Veto(|log|)];
    assert vetoed == decided + [Veto(|log|)];
    LegalAppend(decided, setting, Veto(|log|));
    var twice := vetoed + [Auto(again)];
    assert twice[..|vetoed|] == vetoed;
    if again == status {
      LegalAppend(vetoed, setting, Auto(again));
    } else if Legal(twice, setting) {
      assert LegalAt(twice, setting, |vetoed|);
      var n: nat :| n >= Threshold(setting) && IsStreak(History(log), Some(status), n);
      EarnedExactly(History(log), setting, Some(status), n, again);
      assert false;
    }
  }

  /**
   After any legal log, an autonomous decision and k like human ones, the next
   autonomous one is legal exactly when k reaches the threshold or the first was
   vetoed; so only a decision that still stands keeps the next one away.
   */
  lemma SeparatedExactlyUnlessVetoed(log: seq<Event>, setting: int, status: Status, vetoed: bool, k: nat)
    requires Legal(log, setting) && Earned(History(log), setting, status)
    ensures var before := Afterwards(log, status, vetoed, k);
            && Legal(before, setting)
            && (Legal(before + [Auto(status)], setting) <==> vetoed || (k >= 1 && k >= Threshold(setting)))
  {
    hide History;
    LegalVetoesPast(log, setting);
    HistoryFits(log);
    var n: nat :| n >= Threshold(setting) && IsStreak(History(log), Some(status), n);
    var start := log + if vetoed then [Auto(status), Veto(|log|)] else [Auto(status)];
    var value, m := if vetoed then Some(status) else None, if vetoed then n else 0;
    assert Legal(start, setting) && IsStreak(History(start), value, m) by {
      if vetoed {
        VetoedIsLegalAgain(log, setting, status, status);
        VetoRestoresHistory(log, status);
      } else {
        assert start[..|log|] == log;
        LegalAppend(log, setting, Auto(status));
        DecisionJoinsHistory(log, Auto(status));
      }
    }
    LegalVetoesPast(start, setting);
    StreakGrows(start, value, m, k, status);
    HumansAreLegal(start, setting, k, status);
    var before := Afterwards(log, status, vetoed, k);
    assert before == start + Humans(k, status);
    EarnedExactly(History(before), setting, if k == 0 then value else Some(status),
                  if m + k <= HISTORY_WINDOW then m + k else HISTORY_WINDOW, status);
    var next := before + [Auto(status)];
    assert next[..|before|] == before;
    assert LegalAt(next, setting, |before|) <==> Earned(History(before), setting, status);
    if Earned(History(before), setting, status) {
      LegalAppend(before, setting, Auto(status));
    }
  }

  /**
   For every reachable threshold the meta-LLM may decide alone twice with no
   human decision in between.
   */
  lemma VetoedAutonomyCanRepeat(setting: int, status: Status)
    requires 1 <= Threshold(setting) <= HISTORY_WINDOW
    ensures var n := Threshold(setting);
            Legal(Humans(n, status) + [Auto(status), Veto(n), Auto(status)], setting)
  {
    hide History;
    var n := Threshold(setting);
    var log := Humans(n, status);
    EmptyHistory();
    StreakGrows([], None, 0, n, status);
    HumansAreLegal([], setting, n, status);
    assert [] + log == log;
    VetoedIsLegalAgain(log, setting, status, status);
    assert log + [Auto(status), Veto(n)] + [Auto(status)] == log + [Auto(status), Veto(n), Auto(status)];
  }

  lemma EmptyHistory()
    ensures IsStreak(History([]), None, 0)
  {
  }
}
