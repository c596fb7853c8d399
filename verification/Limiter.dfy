/**
 `SlidingWindowLimiter` of app/application/runners.py:74-93 and its callers:
 `create` (113-117) checks and hits in one go, `lookup` (147-155) asks the store
 in between, so that several attempts can be past the check at once, and
 `_pending` (157-169), on behalf of `approve` and `deny`, hits the key of `lookup`
 without a check.
 */
module Limiter {

  // ---- The deque of one key ----

  /** `r` is what is left of `q` after popping from the left. */
  predicate Ends(r: seq<real>, q: seq<real>) {
    |r| <= |q| && forall i :: 0 <= i < |r| ==> r[i] == q[|q| - |r| + i]
  }

  /** Popping from the left while the front has left the window. */
  function Trim(q: seq<real>, now: real, window: real): (r: seq<real>)
    ensures Ends(r, q)
    ensures forall i :: 0 <= i < |q| - |r| ==> q[i] <= now - window
    ensures r != [] ==> r[0] > now - window
    decreases |q|
  {
    if q != [] && q[0] <= now - window then
      var r := Trim(q[1..], now, window);
      EndsLonger(r, q, now - window);
      r
    else q
  }

  /** What ends the rest of a queue ends the queue, and one more entry before it is old. */
  lemma EndsLonger(r: seq<real>, q: seq<real>, from: real)
    requires q != [] && q[0] <= from && Ends(r, q[1..])
    requires forall i :: 0 <= i < |q[1..]| - |r| ==> q[1..][i] <= from
    ensures Ends(r, q) && forall i :: 0 <= i < |q| - |r| ==> q[i] <= from
  {
    forall i | 0 <= i < |q| - |r|
      ensures q[i] <= from
    {
      if i > 0 {
        var j := i - 1;
        assert q[i] == q[1..][j];
      }
    }
  }

  /** Trimming is all there is between a prefix that has left the window and a front that has not. */
  lemma TrimIsUnique(q: seq<real>, now: real, window: real, k: nat)
    requires k <= |q| && forall i :: 0 <= i < k ==> q[i] <= now - window
    requires k < |q| ==> q[k] > now - window
    ensures Trim(q, now, window) == q[k..]
  {
    hide Trim;
    var r := Trim(q, now, window);
    assert r != [] ==> r[0] == q[|q| - |r|];
  }

  ghost predicate Ascending(q: seq<real>) {
    forall i, j :: 0 <= i < j < |q| ==> q[i] <= q[j]
  }

  /** How many of `hits` lie in the half-open window from `t`. */
  function InWindow(hits: seq<real>, t: real, window: real): nat {
    if hits == [] then 0
    else
      var k := |hits| - 1;
      InWindow(hits[..k], t, window) + if t <= hits[k] < t + window then 1 else 0
  }

  /** How many of `hits` lie after `t`. */
  function After(hits: seq<real>, t: real): nat {
    if hits == [] then 0
    else
      var k := |hits| - 1;
      After(hits[..k], t) + if hits[k] > t then 1 else 0
  }

  /** Hits that all come before the window are not counted. */
  lemma {:induction false} OldHitsDoNotCount(hits: seq<real>, t: real, window: real, k: nat)
    requires k <= |hits| && forall i :: 0 <= i < k ==> hits[i] < t
    ensures InWindow(hits, t, window) <= |hits| - k
  {
    if |hits| > k {
      OldHitsDoNotCount(hits[..|hits| - 1], t, window, k);
    } else if hits != [] {
      OldHitsDoNotCount(hits[..|hits| - 1], t, window, k - 1);
    }
  }

  /** In ascending hits of which the first `k` have left the window and the rest have not, exactly the rest are after it. */
  lemma {:induction false} AfterIsTheRest(hits: seq<real>, t: real, k: nat)
    requires k <= |hits|
    requires forall i :: 0 <= i < k ==> hits[i] <= t
    requires forall i :: k <= i < |hits| ==> hits[i] > t
    ensures After(hits, t) == |hits| - k
  {
    if |hits| > k {
      AfterIsTheRest(hits[..|hits| - 1], t, k);
    } else if hits != [] {
      AfterIsTheRest(hits[..|hits| - 1], t, k - 1);
    }
  }

  // ---- Attempts that check first and hit later, or hit without a check ----

  /** `q` is the deque, `hits` every hit, `checked` those that had a check, `admitted` the attempts past theirs. */
  datatype State = State(now: real, q: seq<real>, hits: seq<real>, checked: seq<real>, admitted: set<nat>)

  datatype Event =
    | Check(attempt: nat, at: real)
    | Hit(attempt: nat, at: real)
    | Leave(attempt: nat)              // a right code: no hit
    | Miss(at: real)                   // a wrong code in approve or deny: a hit nothing was asked for

  predicate Enabled(s: State, e: Event) {
    match e
    case Check(a, at) => s.now <= at && a !in s.admitted
    case Hit(a, at) => s.now <= at && a in s.admitted
    case Leave(a) => a in s.admitted
    case Miss(at) => s.now <= at
  }

  function Step(s: State, limit: nat, window: real, e: Event): State
    requires Enabled(s, e)
  {
    match e
    case Check(a, at) =>
      var q := Trim(s.q, at, window);
      s.(now := at, q := q, admitted := if |q| >= limit then s.admitted else s.admitted + {a})
    case Hit(a, at) =>
      s.(now := at, q := Trim(s.q, at, window) + [at], hits := s.hits + [at], checked := s.checked + [at],
         admitted := s.admitted - {a})
    case Leave(a) => s.(admitted := s.admitted - {a})
    case Miss(at) => s.(now := at, q := Trim(s.q, at, window) + [at], hits := s.hits + [at])
  }

  predicate Possible(s: State, limit: nat, window: real, events: seq<Event>)
    decreases |events|
  {
    events == [] || (Enabled(s, events[0]) && Possible(Step(s, limit, window, events[0]), limit, window, events[1..]))
  }

  function Play(s: State, limit: nat, window: real, events: seq<Event>): State
    requires Possible(s, limit, window, events)
    decreases |events|
  {
    if events == [] then s else Play(Step(s, limit, window, events[0]), limit, window, events[1..])
  }

  /** An attempt is past its check from one that finds room until its hit or its leaving. */
  lemma AttemptsComeAndGo(s: State, limit: nat, window: real, e: Event, a: nat)
    requires Enabled(s, e)
    ensures e.Check? ==>
              (a in Step(s, limit, window, e).admitted <==>
                 a in s.admitted || (a == e.attempt && |Trim(s.q, e.at, window)| < limit))
    ensures e.Hit? || e.Leave? ==> (a in Step(s, limit, window, e).admitted <==> a in s.admitted && a != e.attempt)
    ensures e.Miss? ==> (a in Step(s, limit, window, e).admitted <==> a in s.admitted)
  {
  }

  /** Never more than `c` attempts past their check at the same time. */
  predicate AtMost(s: State, limit: nat, window: real, events: seq<Event>, c: nat)
    requires Possible(s, limit, window, events)
    decreases |events|
  {
    |s.admitted| <= c && (events != [] ==> AtMost(Step(s, limit, window, events[0]), limit, window, events[1..], c))
  }

  /** The deque is the hits without a beginning that has left the window. */
  ghost predicate DequeOk(s: State, window: real) {
    && Ends(s.q, s.hits)
    && forall i :: 0 <= i < |s.hits| - |s.q| ==> s.hits[i] <= s.now - window
  }

  /** A window full of checked hits only has room for the attempts already past their check. */
  ghost predicate WindowOk(s: State, limit: nat, window: real, t: real, c: nat) {
    var n := InWindow(s.checked, t, window);
    && n <= InWindow(s.hits, t, window)
    && n + 1 <= limit + c
    && (n >= limit && s.now < t + window ==> n + |s.admitted| + 1 <= limit + c)
  }

  lemma DequeKept(s: State, limit: nat, window: real, e: Event)
    requires DequeOk(s, window) && Enabled(s, e)
    ensures DequeOk(Step(s, limit, window, e), window)
  {
    hide Trim;
    if !e.Leave? {
      var q := Trim(s.q, e.at, window);
      var k := |s.hits| - |q|;
      assert q == s.hits[k..];
      assert !e.Check? ==> (s.hits + [e.at])[k..] == q + [e.at];
      forall i | 0 <= i < k ensures s.hits[i] <= e.at - window {
        if i >= |s.hits| - |s.q| {
          assert s.hits[i] == s.q[i - (|s.hits| - |s.q|)];
        }
      }
    }
  }

  lemma WindowKept(s: State, limit: nat, window: real, e: Event, t: real, c: nat)
    requires DequeOk(s, window) && WindowOk(s, limit, window, t, c) && Enabled(s, e) && window > 0.0
    requires |Step(s, limit, window, e).admitted| <= c && |s.admitted| <= c
    ensures WindowOk(Step(s, limit, window, e), limit, window, t, c)
  {
    hide Trim, InWindow;
    match e
    case Check(a, at) =>
      var u := Step(s, limit, window, e);
      DequeKept(s, limit, window, e);
      if at < t + window {
        OldHitsDoNotCount(s.hits, t, window, |s.hits| - |u.q|);
      }
    case Hit(a, at) =>
      OneMoreInWindow(s.hits, at, t, window);
      OneMoreInWindow(s.checked, at, t, window);
    case Leave(a) =>
    case Miss(at) => OneMoreInWindow(s.hits, at, t, window);
  }

  lemma OneMoreInWindow(hits: seq<real>, at: real, t: real, window: real)
    ensures InWindow(hits + [at], t, window) == InWindow(hits, t, window) + if t <= at < t + window then 1 else 0
  {
    assert (hits + [at])[..|hits|] == hits;
  }

  /**
   Every half-open window of the limiter's length holds at most `limit` checked
   hits, plus one for every attempt beyond the first that can be past its check at
   the same time, however many unchecked hits come in between.
   */
  lemma {:induction false} WindowsAreBounded(s: State, limit: nat, window: real, events: seq<Event>, t: real, c: nat)
    requires Possible(s, limit, window, events) && AtMost(s, limit, window, events, c) && window > 0.0
    requires DequeOk(s, window) && WindowOk(s, limit, window, t, c)
    ensures InWindow(Play(s, limit, window, events).checked, t, window) + 1 <= limit + c
    decreases |events|
  {
    if events != [] {
      var u := Step(s, limit, window, events[0]);
      assert |u.admitted| <= c;
      DequeKept(s, limit, window, events[0]);
      WindowKept(s, limit, window, events[0], t, c);
      WindowsAreBounded(u, limit, window, events[1..], t, c);
    }
  }

  /** How many unchecked hits of a schedule lie in the window. */
  function MissesIn(events: seq<Event>, t: real, window: real): nat {
    if events == [] then 0
    else (if events[0].Miss? && t <= events[0].at < t + window then 1 else 0) + MissesIn(events[1..], t, window)
  }

  /** Every hit in a window had a check or is one of those. */
  lemma {:induction false} MissesComeOnTop(s: State, limit: nat, window: real, events: seq<Event>, t: real)
    requires Possible(s, limit, window, events)
    ensures var u := Play(s, limit, window, events);
            InWindow(u.hits, t, window) - InWindow(s.hits, t, window) ==
            InWindow(u.checked, t, window) - InWindow(s.checked, t, window) + MissesIn(events, t, window)
    decreases |events|
  {
    if events != [] {
      var u := Step(s, limit, window, events[0]);
      assert !events[0].Check? && !events[0].Leave? ==> u.hits[..|s.hits|] == s.hits;
      assert events[0].Hit? ==> u.checked[..|s.checked|] == s.checked;
      MissesComeOnTop(u, limit, window, events[1..], t);
    }
  }

  function Start(now: real): State {
    State(now, [], [], [], {})
  }

  /** When each checked hit directly follows its check, a window holds no more than `limit` and the unchecked hits in it. */
  lemma CheckedHitsStayWithinLimit(now: real, limit: nat, window: real, events: seq<Event>, t: real)
    requires Possible(Start(now), limit, window, events) && AtMost(Start(now), limit, window, events, 1) && window > 0.0
    ensures InWindow(Play(Start(now), limit, window, events).hits, t, window) <= limit + MissesIn(events, t, window)
  {
    WindowsAreBounded(Start(now), limit, window, events, t, 1);
    MissesComeOnTop(Start(now), limit, window, events, t);
  }

  // ---- When the limit is exceeded ----

  function Misses(k: nat, at: real): (events: seq<Event>)
    ensures |events| == k
  {
    if k == 0 then [] else [Miss(at)] + Misses(k - 1, at)
  }

  /** Unchecked hits are never refused: whatever went before, any number of them come through, each on top in its window. */
  lemma {:induction false} MissesAreNeverRefused(s: State, limit: nat, window: real, k: nat, at: real)
    requires s.now <= at && window > 0.0
    ensures Possible(s, limit, window, Misses(k, at)) && AtMost(s, limit, window, Misses(k, at), |s.admitted|)
    ensures InWindow(Play(s, limit, window, Misses(k, at)).hits, at, window) == InWindow(s.hits, at, window) + k
    decreases k
  {
    if k > 0 {
      var u := Step(s, limit, window, Miss(at));
      assert u.hits[..|s.hits|] == s.hits;
      assert InWindow(u.hits, at, window) == InWindow(s.hits, at, window) + 1;
      hide Step, InWindow;
      MissesAreNeverRefused(u, limit, window, k - 1, at);
      Before(s, limit, window, Miss(at), Misses(k - 1, at), |s.admitted|);
    }
  }

  /** n checked hits, all at one moment, and some attempts past their check. */
  function Filled(n: nat, at: real, admitted: set<nat>): State {
    var hits := seq(n, _ => at);
    State(at, hits, hits, hits, admitted)
  }

  lemma FilledSteps(n: nat, limit: nat, window: real, at: real, admitted: set<nat>, a: nat)
    requires window > 0.0
    ensures a !in admitted && n < limit ==>
              Step(Filled(n, at, admitted), limit, window, Check(a, at)) == Filled(n, at, admitted + {a})
    ensures a in admitted ==>
              Step(Filled(n, at, admitted), limit, window, Hit(a, at)) == Filled(n + 1, at, admitted - {a})
  {
    assert seq(n + 1, _ => at) == seq(n, _ => at) + [at];
  }

  lemma {:induction false} FilledWindow(n: nat, at: real, window: real)
    requires window > 0.0
    ensures InWindow(seq(n, _ => at), at, window) == n
  {
    if n > 0 {
      var hits := seq(n, _ => at);
      assert hits[..n - 1] == seq(n - 1, _ => at);
      FilledWindow(n - 1, at, window);
    }
  }

  /** From n hits on: single attempts up to one below the limit, then two that check before either hits. */
  function Crowd(n: nat, limit: nat, at: real): seq<Event>
    decreases limit - n
  {
    if n + 1 < limit then [Check(0, at), Hit(0, at)] + Crowd(n + 1, limit, at)
    else [Check(0, at), Check(1, at), Hit(0, at), Hit(1, at)]
  }

  lemma {:induction false} CrowdExceeds(n: nat, limit: nat, window: real, at: real)
    requires n < limit && window > 0.0
    ensures var (s, events) := (Filled(n, at, {}), Crowd(n, limit, at));
            && Possible(s, limit, window, events) && AtMost(s, limit, window, events, 2) && NoMiss(events)
            && Play(s, limit, window, events) == Filled(limit + 1, at, {})
    decreases limit - n
  {
    if n + 1 < limit {
      var s, rest := Filled(n, at, {}), Crowd(n + 1, limit, at);
      CrowdExceeds(n + 1, limit, window, at);
      FilledSteps(n, limit, window, at, {}, 0);
      FilledSteps(n, limit, window, at, {0}, 0);
      hide Step;
      assert {} + {0} == {0} && {0} - {0} == {};
      Before(Filled(n, at, {0}), limit, window, Hit(0, at), rest, 2);
      Before(s, limit, window, Check(0, at), [Hit(0, at)] + rest, 2);
      assert Crowd(n, limit, at) == [Check(0, at)] + ([Hit(0, at)] + rest);
    } else {
      TwoAtOnce(n, limit, window, at);
    }
  }

  lemma TwoAtOnce(n: nat, limit: nat, window: real, at: real)
    requires n + 1 == limit && window > 0.0
    ensures var (s, events) := (Filled(n, at, {}), [Check(0, at), Check(1, at), Hit(0, at), Hit(1, at)]);
            && Possible(s, limit, window, events) && AtMost(s, limit, window, events, 2)
            && Play(s, limit, window, events) == Filled(limit + 1, at, {})
  {
    FilledSteps(n, limit, window, at, {}, 0);
    FilledSteps(n, limit, window, at, {0}, 1);
    FilledSteps(n, limit, window, at, {0, 1}, 0);
    FilledSteps(n + 1, limit, window, at, {1}, 1);
    assert {0} + {1} == {0, 1} && {0, 1} - {0} == {1} && {1} - {1} == {} && {} + {0} == {0};
    hide Step;
    Before(Filled(n + 1, at, {1}), limit, window, Hit(1, at), [], 2);
    Before(Filled(n, at, {0, 1}), limit, window, Hit(0, at), [Hit(1, at)], 2);
    Before(Filled(n, at, {0}), limit, window, Check(1, at), [Hit(0, at), Hit(1, at)], 2);
    Before(Filled(n, at, {}), limit, window, Check(0, at), [Check(1, at), Hit(0, at), Hit(1, at)], 2);
  }

  lemma Before(s: State, limit: nat, window: real, e: Event, rest: seq<Event>, c: nat)
    requires Enabled(s, e) && |s.admitted| <= c
    requires Possible(Step(s, limit, window, e), limit, window, rest)
    requires AtMost(Step(s, limit, window, e), limit, window, rest, c)
    ensures Possible(s, limit, window, [e] + rest) && AtMost(s, limit, window, [e] + rest, c)
    ensures Play(s, limit, window, [e] + rest) == Play(Step(s, limit, window, e), limit, window, rest)
  {
    assert ([e] + rest)[1..] == rest;
  }

  ghost predicate NoMiss(events: seq<Event>) {
    forall e :: e in events ==> !e.Miss?
  }

  /** What may happen to a key when at most `c` attempts overlap, with or without unchecked hits. */
  ghost predicate Schedule(now: real, limit: nat, window: real, c: nat, unchecked: bool, events: seq<Event>) {
    && Possible(Start(now), limit, window, events)
    && AtMost(Start(now), limit, window, events, c)
    && (unchecked || NoMiss(events))
  }

  /** Some window ends up with more than the limit. */
  ghost predicate Exceeds(now: real, limit: nat, window: real, events: seq<Event>)
    requires Possible(Start(now), limit, window, events)
  {
    exists t :: InWindow(Play(Start(now), limit, window, events).hits, t, window) > limit
  }

  lemma {:induction false} NoMissNoneIn(events: seq<Event>, t: real, window: real)
    requires NoMiss(events)
    ensures MissesIn(events, t, window) == 0
  {
    if events != [] {
      assert forall e :: e in events[1..] ==> e in events;
      NoMissNoneIn(events[1..], t, window);
    }
  }

  /** At a limit of zero nobody passes a check, so nobody overlaps. */
  lemma {:induction false} OverlapIsOne(s: State, limit: nat, window: real, events: seq<Event>, c: nat)
    requires Possible(s, limit, window, events) && AtMost(s, limit, window, events, c)
    requires c <= 1 || (limit == 0 && s.admitted == {})
    ensures AtMost(s, limit, window, events, 1)
    decreases |events|
  {
    if events != [] {
      OverlapIsOne(Step(s, limit, window, events[0]), limit, window, events[1..], c);
    }
  }

  /**
   The limit is kept by all schedules exactly when no hit goes unchecked and no two
   attempts can be past their check at once.
   */
  lemma LimitHoldsExactlyWhen(now: real, limit: nat, window: real, c: nat, unchecked: bool)
    requires window > 0.0
    ensures (forall events :: Schedule(now, limit, window, c, unchecked, events) ==> !Exceeds(now, limit, window, events))
            <==> !unchecked && (c <= 1 || limit == 0)
  {
    if unchecked {
      UncheckedExceeds(now, limit, window, c);
    } else if c > 1 && limit > 0 {
      OverlapsExceed(now, limit, window, c);
    } else {
      forall events | Schedule(now, limit, window, c, unchecked, events)
        ensures !Exceeds(now, limit, window, events)
      {
        KeptWithoutOverlap(now, limit, window, c, events);
      }
    }
  }

  lemma UncheckedExceeds(now: real, limit: nat, window: real, c: nat)
    requires window > 0.0
    ensures exists events :: Schedule(now, limit, window, c, true, events) && Exceeds(now, limit, window, events)
  {
    var events := Misses(limit + 1, now);
    MissesAreNeverRefused(Start(now), limit, window, limit + 1, now);
    AtMostMore(Start(now), limit, window, events, 0, c);
    assert Schedule(now, limit, window, c, true, events);
  }

  lemma OverlapsExceed(now: real, limit: nat, window: real, c: nat)
    requires window > 0.0 && c > 1 && limit > 0
    ensures exists events :: Schedule(now, limit, window, c, false, events) && Exceeds(now, limit, window, events)
  {
    var events := Crowd(0, limit, now);
    assert Start(now) == Filled(0, now, {});
    CrowdExceeds(0, limit, window, now);
    FilledWindow(limit + 1, now, window);
    AtMostMore(Start(now), limit, window, events, 2, c);
    assert Schedule(now, limit, window, c, false, events);
  }

  lemma KeptWithoutOverlap(now: real, limit: nat, window: real, c: nat, events: seq<Event>)
    requires window > 0.0 && (c <= 1 || limit == 0) && Schedule(now, limit, window, c, false, events)
    ensures !Exceeds(now, limit, window, events)
  {
    OverlapIsOne(Start(now), limit, window, events, c);
    forall t
      ensures InWindow(Play(Start(now), limit, window, events).hits, t, window) <= limit
    {
      CheckedHitsStayWithinLimit(now, limit, window, events, t);
      NoMissNoneIn(events, t, window);
    }
  }

  lemma {:induction false} AtMostMore(s: State, limit: nat, window: real, events: seq<Event>, c: nat, d: nat)
    requires Possible(s, limit, window, events) && AtMost(s, limit, window, events, c) && c <= d
    ensures AtMost(s, limit, window, events, d)
    decreases |events|
  {
    if events != [] {
      AtMostMore(Step(s, limit, window, events[0]), limit, window, events[1..], c, d);
    }
  }

  lemma {:induction false} InWindowIsTheRest(hits: seq<real>, t: real, window: real, k: nat)
    requires k <= |hits|
    requires forall i :: 0 <= i < k ==> hits[i] < t
    requires forall i :: k <= i < |hits| ==> t <= hits[i] < t + window
    ensures InWindow(hits, t, window) == |hits| - k
  {
    if |hits| > k {
      InWindowIsTheRest(hits[..|hits| - 1], t, window, k);
    } else if hits != [] {
      InWindowIsTheRest(hits[..|hits| - 1], t, window, k - 1);
    }
  }

  /** The trimmed deque and two more hits fill a window. */
  lemma TwoMoreInWindow(r: seq<real>, hits: seq<real>, at: real, window: real) returns (t: real)
    requires Tracks(r, hits, at, window) && window > 0.0 && (r != [] ==> r[0] > at - window)
    ensures InWindow(hits + [at] + [at], t, window) == |r| + 2
  {
    t := if r != [] then r[0] else at;
    var longer, k := hits + [at] + [at], |hits| - |r|;
    assert r != [] ==> hits[k] == r[0];
    forall i | k <= i < |longer|
      ensures t <= longer[i] < t + window
    {
      assert i < |hits| ==> hits[k] <= hits[i];
    }
    InWindowIsTheRest(longer, t, window, k);
  }

  /** Both attempts check, then both hit. */
  function CheckTwice(s: State, limit: nat, window: real, a: nat, b: nat, at: real): State
    requires s.now <= at && a != b && a !in s.admitted && b !in s.admitted
  {
    Step(Step(s, limit, window, Check(a, at)), limit, window, Check(b, at))
  }

  function HitTwice(s: State, limit: nat, window: real, a: nat, b: nat, at: real): State
    requires s.now <= at && a != b && a in s.admitted && b in s.admitted
  {
    Step(Step(s, limit, window, Hit(a, at)), limit, window, Hit(b, at))
  }

  /**
   The bound for overlapping attempts is reached: whenever there is room for just one
   more hit, two attempts that check before either hits are both let through, and the
   window from `t` ends up with one hit too many.
   */
  lemma OverlapExceedsLimit(s: State, limit: nat, window: real, a: nat, b: nat, at: real) returns (t: real)
    requires Tracks(s.q, s.hits, s.now, window) && s.now <= at && window > 0.0
    requires a != b && a !in s.admitted && b !in s.admitted
    requires After(s.hits, at - window) + 1 == limit
    ensures var checked := CheckTwice(s, limit, window, a, b, at);
            && a in checked.admitted && b in checked.admitted && checked.now == at
            && InWindow(HitTwice(checked, limit, window, a, b, at).hits, t, window) == limit + 1
  {
    TrimTracks(s.q, s.hits, s.now, at, window);
    var r := Trim(s.q, at, window);
    t := TwoMoreInWindow(r, s.hits, at, window);
    TrimTracks(r, s.hits, at, at, window);
    hide Trim, After, InWindow, Tracks;
  }

  // ---- The class ----

  class SlidingWindowLimiter {
    const limit: nat
    const window: real
    var events: map<string, seq<real>>
    /** Every hit of every key. */
    ghost var hits: map<string, seq<real>>

    /** The deque and the hits of one key, at or after its last hit. */
    ghost predicate KeyOk(key: string, now: real)
      reads this
    {
      Tracks(At(events, key), At(hits, key), now, window)
    }

    static function At(m: map<string, seq<real>>, key: string): seq<real> {
      if key in m then m[key] else []
    }

    constructor (limit: nat, window: real)
      ensures this.limit == limit && this.window == window && events == map[] && hits == map[]
    {
      this.limit, this.window := limit, window;
      events, hits := map[], map[];
    }

    method TrimKey(key: string, now: real)
      modifies this`events
      ensures events == old(events)[key := Trim(At(old(events), key), now, window)]
    {
      ghost var all := At(events, key);
      ghost var k := 0;
      var q := At(events, key);
      while q != [] && q[0] <= now - window
        invariant 0 <= k <= |all| && q == all[k..]
        invariant forall i :: 0 <= i < k ==> all[i] <= now - window
        decreases |q|
      {
        assert q[0] == all[k];
        q, k := q[1..], k + 1;
      }
      assert k < |all| ==> q[0] == all[k];
      TrimIsUnique(all, now, window, k);
      events := events[key := q];
    }

    /** Blocked exactly when the window that ends now already holds the limit. */
    method Blocked(key: string, ghost before: real, now: real) returns (r: bool)
      requires KeyOk(key, before) && before <= now
      modifies this`events
      ensures r <==> After(At(hits, key), now - window) >= limit
      ensures KeyOk(key, now)
      ensures forall other :: other != key ==> At(events, other) == At(old(events), other)
    {
      hide Tracks, Trim, After;
      ghost var q, h := At(events, key), At(hits, key);
      TrimKey(key, now);
      TrimTracks(q, h, before, now, window);
      r := |events[key]| >= limit;
    }

    method Hit(key: string, ghost before: real, now: real)
      requires KeyOk(key, before) && before <= now
      modifies this
      ensures At(hits, key) == At(old(hits), key) + [now]
      ensures KeyOk(key, now)
      ensures forall other :: other != key ==>
                At(events, other) == At(old(events), other) && At(hits, other) == At(old(hits), other)
    {
      hide Tracks, Trim, After;
      ghost var q, h := At(events, key), At(hits, key);
      TrimKey(key, now);
      TrimTracks(q, h, before, now, window);
      HitTracks(events[key], h, now, window);
      hits := hits[key := h + [now]];
      events := events[key := events[key] + [now]];
    }

    /** The guard of `create`: checked and counted in one go, so the windows of the key stay within the limit. */
    method Admit(key: string, ghost before: real, now: real) returns (ok: bool)
      requires KeyOk(key, before) && before <= now && Within(At(hits, key), window, limit)
      modifies this
      ensures ok <==> After(At(old(hits), key), now - window) < limit
      ensures At(hits, key) == if ok then At(old(hits), key) + [now] else At(old(hits), key)
      ensures KeyOk(key, now) && Within(At(hits, key), window, limit)
    {
      hide Tracks, Trim, After, Within;
      var blocked := Blocked(key, before, now);
      if blocked {
        return false;
      }
      OneMoreWithin(At(hits, key), now, window, limit);
      Hit(key, now, now);
      ok := true;
    }
  }

  /** No window holds more than `limit` of the hits. */
  ghost predicate Within(hits: seq<real>, window: real, limit: nat) {
    forall t :: InWindow(hits, t, window) <= limit
  }

  lemma {:induction false} WindowBelowAfter(hits: seq<real>, t: real, window: real, from: real)
    requires from < t
    ensures InWindow(hits, t, window) <= After(hits, from)
  {
    if hits != [] {
      WindowBelowAfter(hits[..|hits| - 1], t, window, from);
    }
  }

  lemma OneMoreWithin(hits: seq<real>, now: real, window: real, limit: nat)
    requires Within(hits, window, limit) && After(hits, now - window) < limit
    ensures Within(hits + [now], window, limit)
  {
    forall t ensures InWindow(hits + [now], t, window) <= limit {
      assert (hits + [now])[..|hits|] == hits;
      assert InWindow(hits, t, window) <= limit;
      if t <= now < t + window {
        WindowBelowAfter(hits, t, window, now - window);
      }
    }
  }

  /** `q` is the deque of a key hit at `hits`. */
  ghost predicate Tracks(q: seq<real>, hits: seq<real>, now: real, window: real) {
    && Ascending(hits) && (forall i :: 0 <= i < |hits| ==> hits[i] <= now)
    && DequeOk(State(now, q, hits, [], {}), window)
  }

  /** After trimming, the deque is exactly as long as the number of hits in the window that ends now. */
  lemma TrimTracks(q: seq<real>, hits: seq<real>, before: real, now: real, window: real)
    requires Tracks(q, hits, before, window) && before <= now
    ensures Tracks(Trim(q, now, window), hits, now, window)
    ensures |Trim(q, now, window)| == After(hits, now - window)
  {
    hide Trim, After;
    var r := Trim(q, now, window);
    DequeKept(State(before, q, hits, [], {}), 0, window, Check(0, now));
    var k := |hits| - |r|;
    assert r == hits[k..];
    assert r != [] ==> r[0] == hits[k];
    AfterIsTheRest(hits, now - window, k);
  }

  lemma HitTracks(q: seq<real>, hits: seq<real>, now: real, window: real)
    requires Tracks(q, hits, now, window)
    ensures Tracks(q + [now], hits + [now], now, window)
  {
    var k := |hits| - |q|;
    assert (hits + [now])[k..] == q + [now];
  }
}
