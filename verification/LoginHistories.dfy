/**
 What holds of the login decision cache over every history of requests, logins and
 script saves: app/application/login.py:98-230.
 */
module LoginHistories {
  import opened Common
  import opened ExpiringCache
  import opened LoginCache

  ghost predicate Possible(s: State, limits: Limits, configured: Option<Script>, events: seq<Event>)
    requires s.store.scripts != []
    decreases |events|
  {
    events == []
    || (Enabled(s, limits, configured, events[0]) &&
        Possible(Step(s, limits, configured, events[0]), limits, configured, events[1..]))
  }

  ghost function Play(s: State, limits: Limits, configured: Option<Script>, events: seq<Event>): (t: State)
    requires s.store.scripts != [] && Possible(s, limits, configured, events)
    ensures t.store.scripts != []
    decreases |events|
  {
    if events == [] then s else Play(Step(s, limits, configured, events[0]), limits, configured, events[1..])
  }

  /** A fresh process over a store that may already hold any scripts. */
  ghost predicate Fresh(s: State) {
    && StoreOk(s.store, s.now) && s.checks == map[] && s.cache == [] && s.inflight == map[]
    && s.stored.None? && s.checkedAt.None? && s.runs == [] && s.origin == map[] && s.answers == []
  }

  lemma {:induction false} PlayKeepsInvariant(s: State, limits: Limits, configured: Option<Script>, events: seq<Event>)
    requires Invariant(s, limits, configured) && Possible(s, limits, configured, events)
    ensures Invariant(Play(s, limits, configured, events), limits, configured)
    decreases |events|
  {
    assert s.store.scripts != [];
    hide Invariant, Step, Enabled;
    if events != [] {
      StepKeepsInvariant(s, limits, configured, events[0]);
      PlayKeepsInvariant(Step(s, limits, configured, events[0]), limits, configured, events[1..]);
    }
  }

  /**
   Every answer ever given is the result, or the recorded failure, of one finished
   run of exactly the script version named in its key; and out of the cache it is
   given only while what that run left is still good.
   */
  lemma AnswersAreRuns(s: State, limits: Limits, configured: Option<Script>, events: seq<Event>, a: Answer)
    requires Fresh(s) && Possible(s, limits, configured, events)
    requires a in Play(s, limits, configured, events).answers
    ensures var t := Play(s, limits, configured, events);
            && a.run < |t.runs| && t.runs[a.run].key == a.key && Names(t.store, configured, a.key.tag, t.runs[a.run].script)
            && t.runs[a.run].phase.Done?
            && a.decision == (match t.runs[a.run].phase.outcome case Failed => None case Decided(d, _) => Some(d))
            && (a.cached ==> StillGood(limits, t.runs[a.run], a.at))
  {
    hide Play, Possible;
    PlayKeepsInvariant(s, limits, configured, events);
    var t := Play(s, limits, configured, events);
    assert AnswerOk(a, t.runs, limits);
    EntryLastsWhileGood(limits, t.runs[a.run], a.at);
  }

  /** Concurrent first requests with one token share one run: no key has two at once. */
  lemma SingleFlight(s: State, limits: Limits, configured: Option<Script>, events: seq<Event>, i: nat, j: nat)
    requires Fresh(s) && Possible(s, limits, configured, events)
    requires var t := Play(s, limits, configured, events);
             i < j < |t.runs| && t.runs[i].phase.Running? && t.runs[j].phase.Running?
    ensures Play(s, limits, configured, events).runs[i].key != Play(s, limits, configured, events).runs[j].key
  {
    hide Play, Possible;
    PlayKeepsInvariant(s, limits, configured, events);
  }

  lemma CacheIsBounded(s: State, limits: Limits, configured: Option<Script>, events: seq<Event>)
    requires Fresh(s) && Possible(s, limits, configured, events)
    ensures |Play(s, limits, configured, events).cache| <= limits.maxEntries
  {
    hide Play, Possible;
    PlayKeepsInvariant(s, limits, configured, events);
  }

  /**
   Staleness is bounded however slow loads overtake one another: a request that
   does not ask the store uses a version that was the current one less than
   `refresh` seconds ago, unless the last check could not read the store.
   */
  lemma QuickCallsAreRecent(s: State, limits: Limits, configured: Option<Script>, events: seq<Event>)
    requires Fresh(s) && Possible(s, limits, configured, events)
    ensures var t := Play(s, limits, configured, events);
            Recent(t, limits) && !t.unread ==>
              t.now - limits.refresh < t.vouched <= t.now && CurrentAt(t.store, t.stored.value.version, t.vouched)
  {
    hide Play, Possible;
    PlayKeepsInvariant(s, limits, configured, events);
  }

  /** A request that does ask the store uses a version that was current while it was waiting. */
  lemma SlowCallsAreCurrent(s: State, limits: Limits, configured: Option<Script>, events: seq<Event>, e: Event)
    requires Fresh(s) && Possible(s, limits, configured, events)
    requires var t := Play(s, limits, configured, events);
             && Enabled(t, limits, configured, e)
             && (e.Install? || (e.Compare? && t.stored.Some? && t.stored.value.version == t.checks[e.id].waiting.version))
    ensures var t := Play(s, limits, configured, events);
            var u := Step(t, limits, configured, e);
            && u.stored.Some? && !u.unread && e.id !in u.checks && u.checkedAt == Some(t.checks[e.id].start)
            && t.checks[e.id].start <= u.vouched <= u.now && CurrentAt(u.store, u.stored.value.version, u.vouched)
  {
    hide Play, Possible;
    PlayKeepsInvariant(s, limits, configured, events);
    var t := Play(s, limits, configured, events);
    assert CheckOk(t.checks[e.id], t.store, t.now);
    var c := t.checks[e.id];
    hide Decide, EntryOf, CacheOk, AnswersOk, RunsOk, FlightOk, FinishedBy;
    if e.Install? {
      var v := c.waiting.version;
      var stored := Stored(v, if e.usable && v < |t.store.scripts| then t.store.scripts[v] else None);
      DecideFrame(Checked(t, e.id, stored, c.waiting.readAt), limits, configured, c.request);
    } else {
      DecideFrame(Checked(t, e.id, t.stored.value, c.waiting.readAt), limits, configured, c.request);
    }
  }

  // ---- What is remembered is used ----

  /** Run `i`, by now `r`, is the last one for its key; its entry is in the cache, and those used after it are for `used`. */
  ghost predicate Kept(s: State, i: nat, r: Run, used: set<Key>) {
    && i < |s.runs| && s.runs[i] == r && r.phase.Done?
    && r.key in s.origin && s.origin[r.key] == i
    && (r.key in s.inflight ==> s.inflight[r.key] == i)
    && Behind(s.cache, r.key, used)
  }

  /** The loaded version, if there is one, stays as it is. */
  ghost predicate SameVersion(s: State, t: State) {
    s.stored.Some? ==> t.stored.Some? && t.stored.value.version == s.stored.value.version
  }

  /** From s to t, only the given key and those in `used` got answers. */
  ghost predicate OnlyUses(s: State, t: State, key: Key, used: set<Key>) {
    s.answers <= t.answers && forall a :: a in t.answers[|s.answers|..] ==> a.key == key || a.key in used
  }

  /** No step empties the cache, and only the given keys get answers. */
  ghost predicate Undisturbed(s: State, limits: Limits, configured: Option<Script>, events: seq<Event>, key: Key, used: set<Key>)
    requires s.store.scripts != [] && Possible(s, limits, configured, events)
    decreases |events|
  {
    events == []
    || (var t := Step(s, limits, configured, events[0]);
        && !events[0].Invalidate? && SameVersion(s, t) && OnlyUses(s, t, key, used)
        && Undisturbed(t, limits, configured, events[1..], key, used))
  }

  lemma GoodBefore(limits: Limits, r: Run, at: real, later: real)
    requires r.phase.Done? && StillGood(limits, r, later) && at <= later
    ensures StillGood(limits, r, at)
  {
  }

  /** A kept entry is found, with what its run left. */
  lemma KeptIsLive(s: State, limits: Limits, configured: Option<Script>, i: nat, r: Run, used: set<Key>)
    requires Invariant(s, limits, configured) && Kept(s, i, r, used) && StillGood(limits, r, s.now)
    ensures Live(s.cache, r.key, s.now) == Some(EntryOf(limits, r))
  {
    hide EntryOf, StillGood, AnswersOk, RunsOk, ChecksOk, LoadedOk, FlightOk, FinishedBy, StoreOk, Distinct;
    EntryLastsWhileGood(limits, r, s.now);
    var found := Lookup(s.cache, r.key);
    assert found.Some?;
    assert Left(s.runs, limits, s.origin[r.key], found.value);
  }

  /** A request for the key of a run whose entry is kept and good is answered from the cache and starts no run. */
  lemma KeptIsServed(s: State, limits: Limits, configured: Option<Script>, q: Request, i: nat, r: Run, used: set<Key>)
    requires Invariant(s, limits, configured) && Kept(s, i, r, used) && StillGood(limits, r, s.now)
    requires var active := ActiveScript(s.stored, configured); active.Some? && Key(active.value.0, q.token) == r.key
    ensures var t := Decide(s, limits, configured, q);
            && t.runs == s.runs && t.inflight == s.inflight
            && t.answers == s.answers + [Answer(r.key, EntryOf(limits, r).decision, s.now, i, true)]
            && Kept(t, i, r, {})
  {
    hide Invariant, StillGood, EntryOf, Lookup, Live, Behind, Without;
    KeptIsLive(s, limits, configured, i, r, used);
    UsedIsNewest(s.cache, r.key, s.now);
  }

  lemma DecideKeepsEntry(s: State, limits: Limits, configured: Option<Script>, q: Request, i: nat, r: Run, used: set<Key>)
    requires Invariant(s, limits, configured) && Kept(s, i, r, used) && StillGood(limits, r, s.now)
    requires OnlyUses(s, Decide(s, limits, configured, q), r.key, used)
    ensures Kept(Decide(s, limits, configured, q), i, r, used)
  {
    hide Invariant, StillGood, EntryOf, Asked, Lookup, Behind, ActiveScript;
    KeptIsLive(s, limits, configured, i, r, used);
    var t := Decide(s, limits, configured, q);
    var active := ActiveScript(s.stored, configured);
    if active.Some? {
      var key := Key(active.value.0, q.token);
      if Live(s.cache, key, s.now).Some? {
        assert t.answers[|s.answers|] in t.answers[|s.answers|..];
      }
      BehindAsked(s.cache, r.key, used, key, s.now);
    }
  }

  lemma FinishedKeepsEntry(s: State, limits: Limits, configured: Option<Script>, j: nat, outcome: Outcome, i: nat, r: Run, used: set<Key>)
    requires Invariant(s, limits, configured) && Kept(s, i, r, used) && |used| < limits.maxEntries
    requires j < |s.runs| && s.runs[j].phase.Running?
    requires OnlyUses(s, Finished(s, limits, j, outcome), r.key, used)
    ensures Kept(Finished(s, limits, j, outcome), i, r, used)
  {
    hide StoreOk, ChecksOk, LoadedOk, RunsOk, FinishedBy, AnswersOk, Remembered, Behind, Distinct;
    var t := Finished(s, limits, j, outcome);
    assert s.runs[j].key != r.key;
    assert t.answers[|s.answers|] in t.answers[|s.answers|..];
    BehindRemembered(s.cache, r.key, used, limits.maxEntries, EntryOf(limits, t.runs[j]));
  }

  /** The request that goes on to its answer with this event. */
  ghost function Served(s: State, e: Event): Option<Request> {
    match e
    case Call(q) => Some(q)
    case Compare(id) =>
      if id in s.checks && s.checks[id].waiting.Told? && s.stored.Some? && s.stored.value.version == s.checks[id].waiting.version
      then Some(s.checks[id].request)
      else None
    case Install(id, _) => if id in s.checks && s.checks[id].waiting.Compiling? then Some(s.checks[id].request) else None
    case Unreadable(id) => if id in s.checks then Some(s.checks[id].request) else None
    case _ => None
  }

  /** The state in which it does so. */
  ghost function Informed(s: State, e: Event, q: Request): State
    requires Served(s, e) == Some(q)
  {
    match e
    case Compare(id) => Checked(s, id, s.stored.value, s.checks[id].waiting.readAt)
    case Install(id, usable) =>
      var v := s.checks[id].waiting.version;
      Checked(s, id, Stored(v, if usable && v < |s.store.scripts| then s.store.scripts[v] else None), s.checks[id].waiting.readAt)
    case Unreadable(id) => s.(checks := s.checks - {id}, checkedAt := Some(s.checks[id].start), unread := true)
    case _ => s
  }

  lemma InformedKeeps(s: State, limits: Limits, configured: Option<Script>, e: Event, q: Request)
    requires Invariant(s, limits, configured) && Enabled(s, limits, configured, e) && Served(s, e) == Some(q)
    ensures Invariant(Informed(s, e, q), limits, configured)
    ensures Step(s, limits, configured, e) == Decide(Informed(s, e, q), limits, configured, q)
  {
    hide Decide, EntryOf, CacheOk, AnswersOk, FlightOk, RunsOk, FinishedBy;
    match e
    case Compare(id) =>
      assert CheckOk(s.checks[id], s.store, s.now);
      CheckedKeeps(s, limits, configured, id, s.stored.value, s.checks[id].waiting.readAt);
    case Install(id, usable) =>
      var v := s.checks[id].waiting.version;
      assert CheckOk(s.checks[id], s.store, s.now);
      var stored := Stored(v, if usable && v < |s.store.scripts| then s.store.scripts[v] else None);
      CheckedKeeps(s, limits, configured, id, stored, s.checks[id].waiting.readAt);
    case _ =>
  }

  lemma InformedKeepsEntry(s: State, e: Event, q: Request, i: nat, r: Run, used: set<Key>)
    requires Served(s, e) == Some(q) && Kept(s, i, r, used) && SameVersion(s, Informed(s, e, q))
    ensures Kept(Informed(s, e, q), i, r, used) && Informed(s, e, q).now == s.now
    ensures Informed(s, e, q).runs == s.runs && Informed(s, e, q).inflight == s.inflight
    ensures Informed(s, e, q).answers == s.answers
  {
    hide Behind;
  }

  lemma StepKeepsEntry(s: State, limits: Limits, configured: Option<Script>, e: Event, i: nat, r: Run, used: set<Key>)
    requires Invariant(s, limits, configured) && Enabled(s, limits, configured, e) && !e.Invalidate?
    requires Kept(s, i, r, used) && |used| < limits.maxEntries && StillGood(limits, r, s.now)
    requires var t := Step(s, limits, configured, e); SameVersion(s, t) && OnlyUses(s, t, r.key, used)
    ensures Kept(Step(s, limits, configured, e), i, r, used)
  {
    if Served(s, e).Some? {
      var q := Served(s, e).value;
      hide Invariant, Enabled, Kept, StillGood, Decide, Step, Served;
      InformedKeeps(s, limits, configured, e, q);
      var t := Informed(s, e, q);
      DecideFrame(t, limits, configured, q);
      InformedKeepsEntry(s, e, q, i, r, used);
      DecideKeepsEntry(t, limits, configured, q, i, r, used);
    } else if e.Finish? {
      hide Kept, Invariant, StillGood;
      FinishedKeepsEntry(s, limits, configured, e.run, e.outcome, i, r, used);
    } else {
      assert s.store.scripts != [];
      hide Invariant, StillGood, Behind, Decide;
      Unserved(s, limits, configured, e);
    }
  }

  /** What no request goes on with leaves the cache and the runs alone. */
  lemma Unserved(s: State, limits: Limits, configured: Option<Script>, e: Event)
    requires s.store.scripts != [] && Enabled(s, limits, configured, e)
    requires !e.Finish? && !e.Invalidate? && Served(s, e).None?
    ensures var t := Step(s, limits, configured, e);
            && t.cache == s.cache && t.runs == s.runs && t.origin == s.origin
            && s.now <= t.now && t.inflight.Keys <= s.inflight.Keys && forall k :: k in t.inflight ==> t.inflight[k] == s.inflight[k]
  {
  }

  lemma TimePasses(s: State, limits: Limits, configured: Option<Script>, e: Event)
    requires s.store.scripts != [] && Enabled(s, limits, configured, e)
    ensures s.now <= Step(s, limits, configured, e).now
  {
    hide Decide;
    if Served(s, e).Some? {
      var q := Served(s, e).value;
      DecideFrame(Informed(s, e, q), limits, configured, q);
    } else if !e.Finish? && !e.Invalidate? {
      hide Step;
      Unserved(s, limits, configured, e);
    }
  }

  lemma {:induction false} PlayKeepsEntry(s: State, limits: Limits, configured: Option<Script>, events: seq<Event>,
      i: nat, r: Run, used: set<Key>)
    requires Invariant(s, limits, configured) && Possible(s, limits, configured, events)
    requires Kept(s, i, r, used) && |used| < limits.maxEntries && Undisturbed(s, limits, configured, events, r.key, used)
    requires StillGood(limits, r, Play(s, limits, configured, events).now)
    ensures s.now <= Play(s, limits, configured, events).now
    ensures Kept(Play(s, limits, configured, events), i, r, used)
    decreases |events|
  {
    assert s.store.scripts != [] && r.phase.Done?;
    hide Invariant, Step, Enabled, StillGood, Kept, OnlyUses, SameVersion;
    if events != [] {
      var t := Step(s, limits, configured, events[0]);
      StepKeepsInvariant(s, limits, configured, events[0]);
      PlayForward(t, limits, configured, events[1..]);
      TimePasses(s, limits, configured, events[0]);
      GoodBefore(limits, r, s.now, Play(s, limits, configured, events).now);
      StepKeepsEntry(s, limits, configured, events[0], i, r, used);
      PlayKeepsEntry(t, limits, configured, events[1..], i, r, used);
    }
  }

  lemma {:induction false} PlayForward(s: State, limits: Limits, configured: Option<Script>, events: seq<Event>)
    requires s.store.scripts != [] && Possible(s, limits, configured, events)
    ensures s.now <= Play(s, limits, configured, events).now
    decreases |events|
  {
    hide Step, Enabled;
    if events != [] {
      TimePasses(s, limits, configured, events[0]);
      PlayForward(Step(s, limits, configured, events[0]), limits, configured, events[1..]);
    }
  }

  /**
   What a run left is used: while it is good and the cache is not emptied, and
   while fewer other keys got answers than the cache has room for, every request
   for its key, the ones that asked the store included, is answered from the cache
   with it and starts no run; and from then on other keys are counted anew.
   */
  lemma FinishedIsServed(s: State, limits: Limits, configured: Option<Script>, earlier: seq<Event>,
      i: nat, outcome: Outcome, events: seq<Event>, used: set<Key>, e: Event, q: Request)
    requires Fresh(s) && Possible(s, limits, configured, earlier)
    requires Enabled(Play(s, limits, configured, earlier), limits, configured, Finish(i, outcome))
    requires var t := Step(Play(s, limits, configured, earlier), limits, configured, Finish(i, outcome));
             && Possible(t, limits, configured, events) && |used| < limits.maxEntries
             && Undisturbed(t, limits, configured, events, t.runs[i].key, used)
             && var u := Play(t, limits, configured, events);
                && StillGood(limits, t.runs[i], u.now)
                && Enabled(u, limits, configured, e) && Served(u, e) == Some(q) && SameVersion(u, Step(u, limits, configured, e))
                && var active := ActiveScript(Step(u, limits, configured, e).stored, configured);
                   active.Some? && Key(active.value.0, q.token) == t.runs[i].key
    ensures var t := Step(Play(s, limits, configured, earlier), limits, configured, Finish(i, outcome));
            var u := Play(t, limits, configured, events);
            var v := Step(u, limits, configured, e);
            var decision := match outcome case Failed => None case Decided(d, _) => Some(d);
            && v.runs == u.runs && v.inflight == u.inflight
            && v.answers == u.answers + [Answer(t.runs[i].key, decision, u.now, i, true)]
            && Kept(v, i, t.runs[i], {})
  {
    hide Play, Possible, Undisturbed, Decide, StillGood, Served;
    PlayKeepsInvariant(s, limits, configured, earlier);
    hide Invariant;
    var b := Play(s, limits, configured, earlier);
    var t := Step(b, limits, configured, Finish(i, outcome));
    StepKeepsInvariant(b, limits, configured, Finish(i, outcome));
    FinishedIsKept(b, limits, configured, i, outcome, used);
    PlayKeepsInvariant(t, limits, configured, events);
    PlayKeepsEntry(t, limits, configured, events, i, t.runs[i], used);
    var u := Play(t, limits, configured, events);
    hide Step, Kept, Enabled;
    InformedKeeps(u, limits, configured, e, q);
    DecideFrame(Informed(u, e, q), limits, configured, q);
    InformedKeepsEntry(u, e, q, i, t.runs[i], used);
    KeptIsServed(Informed(u, e, q), limits, configured, q, i, t.runs[i], used);
    EntryLastsWhileGood(limits, t.runs[i], u.now);
  }

  lemma FinishedIsKept(s: State, limits: Limits, configured: Option<Script>, i: nat, outcome: Outcome, used: set<Key>)
    requires Invariant(s, limits, configured) && i < |s.runs| && s.runs[i].phase.Running? && limits.maxEntries > 0
    ensures var t := Finished(s, limits, i, outcome);
            && t.runs[i].phase.Done? && t.runs[i].phase.outcome == outcome
            && Kept(t, i, t.runs[i], used)
  {
    hide StoreOk, ChecksOk, LoadedOk, RunsOk, FinishedBy, CacheOk, AnswersOk, Remembered, Behind;
    var r := s.runs[i].(phase := Done(outcome, s.now));
    RememberedIsBehind(s.cache, used, limits.maxEntries, EntryOf(limits, r));
  }

  // ---- What becomes of a request ----

  /** The run a request with this key waits for. */
  ghost predicate Awaits(s: State, key: Key) {
    key in s.inflight && s.inflight[key] < |s.runs| && s.runs[s.inflight[key]].phase.Running?
  }

  /** Between the states the key got an answer, or it is waited for; and a run was started only if there was none. */
  ghost predicate TakenUp(s: State, t: State, key: Key, script: Script, exp: Option<real>) {
    && ((exists a :: a in t.answers && a.key == key && a.at == s.now && t.answers == s.answers + [a])
        || (t.answers == s.answers && Awaits(t, key)))
    && (t.runs == s.runs
        || (t.runs == s.runs + [Run(key, script, exp, Running)] && key !in s.inflight
            && key in t.inflight && t.inflight[key] == |s.runs|))
  }

  lemma AnswerTakesUp(s: State, t: State, key: Key, script: Script, exp: Option<real>, a: Answer)
    requires t.runs == s.runs && t.answers == s.answers + [a] && a.key == key && a.at == s.now
    ensures TakenUp(s, t, key, script, exp)
  {
    assert t.answers[|s.answers|] in t.answers;
  }

  lemma DecideTakesUp(s: State, limits: Limits, configured: Option<Script>, q: Request)
    requires FlightOk(s.runs, s.inflight) && ActiveScript(s.stored, configured).Some?
    ensures var active := ActiveScript(s.stored, configured).value;
            TakenUp(s, Decide(s, limits, configured, q), Key(active.0, q.token), active.1, q.exp)
  {
    var active := ActiveScript(s.stored, configured).value;
    var key := Key(active.0, q.token);
    assert key in s.inflight ==> s.inflight[key] < |s.runs|;
    hide EntryOf, Asked, Live, ActiveScript, FlightOk;
    var t := Decide(s, limits, configured, q);
    if |t.answers| > |s.answers| {
      var a := t.answers[|s.answers|];
      hide Decide, TakenUp;
      AnswerTakesUp(s, t, key, active.1, q.exp, a);
    } else if key in s.inflight {
      assert t.runs == s.runs && t.inflight == s.inflight && t.answers == s.answers && Awaits(t, key);
      hide Decide;
    } else {
      assert t.runs == s.runs + [Run(key, active.1, q.exp, Running)] && t.inflight == s.inflight[key := |s.runs|];
      assert t.answers == s.answers;
      hide Decide;
    }
  }

  /**
   A request that goes on gets its answer at once, from the cache or from a run that
   has just finished, or waits for a run of the active script, which it starts only
   if there is none.
   */
  lemma RequestsAreTakenUp(s: State, limits: Limits, configured: Option<Script>, e: Event, q: Request)
    requires s.store.scripts != [] && Invariant(s, limits, configured)
    requires Enabled(s, limits, configured, e) && Served(s, e) == Some(q)
    ensures var u := Informed(s, e, q);
            var t := Step(s, limits, configured, e);
            match ActiveScript(u.stored, configured)
            case None => t == u
            case Some(active) =>
              && t.stored == u.stored && t.checkedAt == u.checkedAt
              && TakenUp(s, t, Key(active.0, q.token), active.1, q.exp)
  {
    InformedKeeps(s, limits, configured, e, q);
    var u := Informed(s, e, q);
    assert u.runs == s.runs && u.inflight == s.inflight && u.answers == s.answers && u.now == s.now;
    assert FlightOk(u.runs, u.inflight);
    hide Step, Enabled, Invariant, Informed, Served, FlightOk;
    DecideFrame(u, limits, configured, q);
    if ActiveScript(u.stored, configured).Some? {
      hide Decide;
      DecideTakesUp(u, limits, configured, q);
    }
  }

  /** Whoever waits for a run gets its result the moment it ends, and the run can end at any time. */
  lemma AwaitedRunsAnswer(s: State, limits: Limits, configured: Option<Script>, key: Key, outcome: Outcome)
    requires Invariant(s, limits, configured) && Awaits(s, key)
    ensures var i := s.inflight[key];
            && Enabled(s, limits, configured, Finish(i, outcome))
            && Step(s, limits, configured, Finish(i, outcome)).answers ==
               s.answers + [Answer(key, match outcome case Failed => None case Decided(d, _) => Some(d), s.now, i, false)]
  {
  }

  /** A new version, or an invalidation, empties the cache, and a forgotten run is no longer waited for. */
  lemma NewVersionStartsAfresh(s: State, limits: Limits, configured: Option<Script>, e: Event)
    requires Invariant(s, limits, configured) && Enabled(s, limits, configured, e)
    ensures var t := Step(s, limits, configured, e);
            && (s.stored.Some? && t.stored != s.stored && !SameVersion(s, t) ==> t.cache == [])
            && (e.Invalidate? ==> t.cache == [] && !Recent(t, limits))
            && (e.Forget? ==> t.inflight == s.inflight - {e.key})
  {
    hide EntryOf, Remembered, AnswersOk, CacheOk, FlightOk, RunsOk;
    if Served(s, e).Some? {
      var q := Served(s, e).value;
      InformedKeeps(s, limits, configured, e, q);
      hide Step, Enabled, Decide;
      DecideFrame(Informed(s, e, q), limits, configured, q);
      if Informed(s, e, q).cache == [] {
        EmptyStaysEmpty(Informed(s, e, q), limits, configured, q);
      }
    }
  }

  lemma EmptyStaysEmpty(s: State, limits: Limits, configured: Option<Script>, q: Request)
    requires s.cache == []
    ensures Decide(s, limits, configured, q).cache == []
  {
  }

  lemma Before(s: State, limits: Limits, configured: Option<Script>, e: Event, events: seq<Event>)
    requires s.store.scripts != [] && Enabled(s, limits, configured, e)
    requires Possible(Step(s, limits, configured, e), limits, configured, events)
    ensures Possible(s, limits, configured, [e] + events)
    ensures Play(s, limits, configured, [e] + events) == Play(Step(s, limits, configured, e), limits, configured, events)
  {
    hide Step, Enabled;
    assert ([e] + events)[1..] == events;
  }

  /** The events of a check that nothing comes between. */
  function CheckAlone(s: State, id: nat, q: Request, to: real): seq<Event> {
    [Tick(to)] + ([Begin(id, q)] + ([Version(id)] + ([Compare(id)] +
      if s.stored.Some? && s.stored.value.version == Current(s.store) then [] else [Fetch(id)] + ([Install(id, true)] + []))))
  }

  /** What is saved is loaded, and the check is over. */
  ghost predicate Loaded(s: State, t: State, id: nat, start: real) {
    && t.now == s.now && t.checks == s.checks - {id} && t.checkedAt == Some(start) && t.store == s.store
    && t.stored.Some? && t.stored.value.version == |s.store.scripts| - 1
    && (s.stored.None? || s.stored.value.version != |s.store.scripts| - 1 ==>
          t.stored.value.script == s.store.scripts[|s.store.scripts| - 1])
  }

  lemma FetchLoads(s: State, limits: Limits, id: nat)
    requires s.store.scripts != [] && id in s.checks && s.checks[id].waiting.Fetching?
    requires s.stored.None? || s.stored.value.version != |s.store.scripts| - 1
    ensures Possible(s, limits, None, [Fetch(id)] + ([Install(id, true)] + []))
    ensures Loaded(s, Play(s, limits, None, [Fetch(id)] + ([Install(id, true)] + [])), id, s.checks[id].start)
  {
    hide Decide, Possible, Play;
    var v := Current(s.store);
    var t := Step(s, limits, None, Fetch(id));
    var u := Step(t, limits, None, Install(id, true));
    EndsAt(u, limits);
    DecideFrame(Checked(t, id, Stored(v, s.store.scripts[v]), s.now), limits, None, s.checks[id].request);
    Before(t, limits, None, Install(id, true), []);
    Before(s, limits, None, Fetch(id), [Install(id, true)] + []);
    assert t.checks - {id} == s.checks - {id};
  }

  lemma CompareLoads(s: State, limits: Limits, id: nat)
    requires s.store.scripts != [] && id in s.checks && s.checks[id].waiting.Told?
    requires s.checks[id].waiting.version == |s.store.scripts| - 1
    ensures var rest := if s.stored.Some? && s.stored.value.version == Current(s.store)
                        then [] else [Fetch(id)] + ([Install(id, true)] + []);
            && Possible(s, limits, None, [Compare(id)] + rest)
            && Loaded(s, Play(s, limits, None, [Compare(id)] + rest), id, s.checks[id].start)
  {
    hide Decide, Possible, Play;
    var t := Step(s, limits, None, Compare(id));
    if s.stored.Some? && s.stored.value.version == Current(s.store) {
      EndsAt(t, limits);
      DecideFrame(Checked(s, id, s.stored.value, s.checks[id].waiting.readAt), limits, None, s.checks[id].request);
      Before(s, limits, None, Compare(id), []);
    } else {
      FetchLoads(t, limits, id);
      Before(s, limits, None, Compare(id), [Fetch(id)] + ([Install(id, true)] + []));
      assert t.checks - {id} == s.checks - {id};
    }
  }

  /** Whenever the store has to be asked, such a check is possible, and loads what is saved. */
  lemma CheckLoadsWhatIsSaved(s: State, limits: Limits, id: nat, q: Request, to: real)
    requires s.store.scripts != [] && id !in s.checks && s.now <= to
    requires s.stored.None? || s.checkedAt.None? || to - s.checkedAt.value >= limits.refresh
    ensures Possible(s, limits, None, CheckAlone(s, id, q, to))
    ensures Loaded(s.(now := to), Play(s, limits, None, CheckAlone(s, id, q, to)), id, to)
  {
    hide Possible, Play;
    var t := s.(now := to);
    var u := s.(now := to, checks := s.checks[id := Check(q, to, Asking)]);
    var v := s.(now := to, checks := s.checks[id := Check(q, to, Told(Current(s.store), to))]);
    assert Step(t, limits, None, Begin(id, q)) == u;
    assert Step(u, limits, None, Version(id)) == v;
    hide Decide, Step;
    CompareLoads(v, limits, id);
    var rest := if s.stored.Some? && s.stored.value.version == Current(s.store)
                then [] else [Fetch(id)] + ([Install(id, true)] + []);
    Before(u, limits, None, Version(id), [Compare(id)] + rest);
    Before(t, limits, None, Begin(id, q), [Version(id)] + ([Compare(id)] + rest));
    TicksTo(s, limits, to);
    Before(s, limits, None, Tick(to), [Begin(id, q)] + ([Version(id)] + ([Compare(id)] + rest)));
    assert v.checks - {id} == s.checks - {id};
  }

  lemma TicksTo(s: State, limits: Limits, to: real)
    requires s.store.scripts != [] && s.now <= to
    ensures Enabled(s, limits, None, Tick(to)) && Step(s, limits, None, Tick(to)) == s.(now := to)
  {
  }

  lemma EndsAt(s: State, limits: Limits)
    requires s.store.scripts != []
    ensures Possible(s, limits, None, []) && Play(s, limits, None, []) == s
  {
  }
}
