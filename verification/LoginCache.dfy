/**
 The login decision cache: `LoginService` of app/application/login.py:60-230, over
 the versioned script store of app/infrastructure/persistence/login_script_store.py.

 Every call is cut at its awaits; between two of them it runs undisturbed.  The
 state machine interleaves these pieces of any number of requests, logins and
 script saves.
 Scripts, decisions and tokens are opaque; distinct tokens have distinct hashes.
 */
module LoginCache {
  import opened Common
  import opened ExpiringCache

  type Script = string

  datatype Stored = Stored(version: nat, script: Option<Script>)

  datatype Limits = Limits(maxEntries: nat, defaultTtl: real, maxTtl: real, failureTtl: real, refresh: real)

  // ---- One login ----

  /** How a run of the script ended; a decided one may not have had its side effects applied. */
  datatype Outcome = Failed | Decided(decision: Decision, applied: bool)

  datatype Phase = Running | Done(outcome: Outcome, at: real)

  /** One run of the script for a key, for a token whose `exp` claim is `exp`. */
  datatype Run = Run(key: Key, script: Script, exp: Option<real>, phase: Phase)

  function TokenTtl(limits: Limits, exp: Option<real>, now: real): real {
    match exp
    case Some(x) => Min(Max(x - now, 1.0), limits.maxTtl)
    case None => limits.defaultTtl
  }

  /** What a finished run leaves in the cache. */
  function EntryOf(limits: Limits, r: Run): Entry
    requires r.phase.Done?
  {
    match r.phase.outcome
    case Failed => Entry(r.key, None, r.phase.at + limits.failureTtl)
    case Decided(d, applied) =>
      Entry(r.key, Some(d), r.phase.at + if applied then TokenTtl(limits, r.exp, r.phase.at) else limits.failureTtl)
  }

  /** A decision that took effect is not remembered past the token's own expiry, but for one second. */
  lemma EntryEndsWithToken(limits: Limits, r: Run)
    requires r.phase.Done? && r.phase.outcome.Decided? && r.phase.outcome.applied && r.exp.Some?
    ensures EntryOf(limits, r).expires <= Max(r.exp.value, r.phase.at + 1.0)
    ensures EntryOf(limits, r).expires <= r.phase.at + limits.maxTtl
  {
  }

  /**
   What the run left may still be used at `at`: a failure, or a decision whose side
   effects did not land, for the failure time; any other one until its token
   expires, but at least a second and at most `maxTtl`, or for the default time if
   the token does not say when it expires.
   */
  ghost predicate StillGood(limits: Limits, r: Run, at: real)
    requires r.phase.Done?
  {
    var age := at - r.phase.at;
    match r.phase.outcome
    case Failed => age < limits.failureTtl
    case Decided(_, applied) =>
      if !applied then age < limits.failureTtl
      else if r.exp.None? then age < limits.defaultTtl
      else age < limits.maxTtl && (at < r.exp.value || age < 1.0)
  }

  /** The entry of a run lives exactly that long, and is its decision. */
  lemma EntryLastsWhileGood(limits: Limits, r: Run, at: real)
    requires r.phase.Done?
    ensures at < EntryOf(limits, r).expires <==> StillGood(limits, r, at)
    ensures EntryOf(limits, r).key == r.key
    ensures EntryOf(limits, r).decision ==
              match r.phase.outcome case Failed => None case Decided(d, _) => Some(d)
  {
  }

  // ---- The service among its requests ----

  datatype Request = Request(token: string, exp: Option<real>)

  /**
   How far a request has got with the store: asking its version, told it, fetching
   the document, compiling it.  What the store read at `readAt` is acted on later.
   */
  datatype Waiting = Asking | Told(version: nat, readAt: real) | Fetching | Compiling(version: nat, readAt: real)

  datatype Check = Check(request: Request, start: real, waiting: Waiting)

  /** An answer given to a caller: the run it comes from, and whether it came out of the cache. */
  datatype Answer = Answer(key: Key, decision: Option<Decision>, at: real, run: nat, cached: bool)

  /** The saved scripts are numbered from 1; 0 stands for never saved.  `savedAt[v]` is when version v began. */
  datatype Store = Store(scripts: seq<Option<Script>>, savedAt: seq<real>)

  /**
   The service (`cache`, `inflight`, `stored`, `checkedAt`) and what happens
   around it.  `runs`, `origin` (the run behind each cache entry), `answers`,
   `vouched` (when the version in `stored` was last known to be current) and
   `unread` (the last check could not read the store) only record.
   */
  datatype State = State(
    now: real, store: Store, checks: map<nat, Check>,
    cache: seq<Entry>, inflight: map<Key, nat>, stored: Option<Stored>, checkedAt: Option<real>,
    runs: seq<Run>, origin: map<Key, nat>, answers: seq<Answer>, vouched: real, unread: bool)

  datatype Event =
    | Tick(to: real)
    | Save(script: Option<Script>)
    | Call(request: Request)              // the stored version is recent, or a script is configured
    | Begin(id: nat, request: Request)    // the store has to be asked
    | Version(id: nat)                   // the store reads its version
    | Compare(id: nat)                   // the request goes on with the version it was told
    | Fetch(id: nat)
    | Install(id: nat, usable: bool)
    | Unreadable(id: nat)
    | Finish(run: nat, outcome: Outcome)
    | Forget(key: Key)                    // the finished task leaves the in-flight table
    | Invalidate

  function Current(store: Store): nat {
    if store.scripts == [] then 0 else |store.scripts| - 1
  }

  predicate Recent(s: State, limits: Limits) {
    s.stored.Some? && s.checkedAt.Some? && s.now - s.checkedAt.value < limits.refresh
  }

  /** The script to run and the tag naming its version. */
  function ActiveScript(stored: Option<Stored>, configured: Option<Script>): Option<(Tag, Script)> {
    if configured.Some? then Some((Config, configured.value))
    else if stored.None? || stored.value.script.None? then None
    else Some((Db(stored.value.version), stored.value.script.value))
  }

  /** The rest of `decision_for` once the active script is known: a live entry, a run to join, or a new run. */
  function Decide(s: State, limits: Limits, configured: Option<Script>, q: Request): (t: State)
    ensures t.store == s.store
  {
    match ActiveScript(s.stored, configured)
    case None => s
    case Some(active) =>
      var key := Key(active.0, q.token);
      var t := s.(cache := Asked(s.cache, key, s.now));
      match Live(s.cache, key, s.now)
      case Some(e) =>
        t.(answers := s.answers + [Answer(key, e.decision, s.now, if key in s.origin then s.origin[key] else 0, true)])
      case None =>
        if key in s.inflight then
          var i := s.inflight[key];
          if i < |s.runs| && s.runs[i].phase.Done?
          then t.(answers := s.answers + [Answer(key, EntryOf(limits, s.runs[i]).decision, s.now, i, false)])
          else t
        else t.(inflight := s.inflight[key := |s.runs|], runs := s.runs + [Run(key, active.1, q.exp, Running)])
  }

  /** The end of a check: `version` was current at `readAt`. */
  function Checked(s: State, id: nat, stored: Stored, readAt: real): State
    requires id in s.checks
  {
    s.(cache := if s.stored.Some? && s.stored.value.version != stored.version then [] else s.cache,
       stored := Some(stored), checkedAt := Some(s.checks[id].start), checks := s.checks - {id},
       vouched := readAt, unread := false)
  }

  function Finished(s: State, limits: Limits, i: nat, outcome: Outcome): State
    requires i < |s.runs|
  {
    var r := s.runs[i].(phase := Done(outcome, s.now));
    var e := EntryOf(limits, r);
    s.(runs := s.runs[i := r], origin := s.origin[r.key := i],
       cache := Remembered(s.cache, limits.maxEntries, e),
       answers := s.answers + [Answer(r.key, e.decision, s.now, i, false)])
  }

  ghost predicate Enabled(s: State, limits: Limits, configured: Option<Script>, e: Event) {
    match e
    case Tick(to) => s.now <= to
    case Save(_) => true
    case Call(_) => configured.Some? || Recent(s, limits)
    case Begin(id, _) => configured.None? && !Recent(s, limits) && id !in s.checks
    case Version(id) => id in s.checks && s.checks[id].waiting.Asking?
    case Compare(id) => id in s.checks && s.checks[id].waiting.Told?
    case Fetch(id) => id in s.checks && s.checks[id].waiting.Fetching?
    case Install(id, _) => id in s.checks && s.checks[id].waiting.Compiling?
    case Unreadable(id) => id in s.checks
    case Finish(i, _) => i < |s.runs| && s.runs[i].phase.Running?
    case Forget(key) => key in s.inflight && s.inflight[key] < |s.runs| && s.runs[s.inflight[key]].phase.Done?
    case Invalidate => true
  }

  function Step(s: State, limits: Limits, configured: Option<Script>, e: Event): (t: State)
    requires Enabled(s, limits, configured, e) && s.store.scripts != []
    ensures t.store.scripts != []
  {
    match e
    case Tick(to) => s.(now := to)
    case Save(script) => s.(store := Store(s.store.scripts + [script], s.store.savedAt + [s.now]))
    case Call(q) => Decide(s, limits, configured, q)
    case Begin(id, q) => s.(checks := s.checks[id := Check(q, s.now, Asking)])
    case Version(id) => s.(checks := s.checks[id := s.checks[id].(waiting := Told(Current(s.store), s.now))])
    case Compare(id) =>
      var c := s.checks[id];
      if s.stored.Some? && s.stored.value.version == c.waiting.version
      then Decide(Checked(s, id, s.stored.value, c.waiting.readAt), limits, configured, c.request)
      else s.(checks := s.checks[id := c.(waiting := Fetching)])
    case Fetch(id) => s.(checks := s.checks[id := s.checks[id].(waiting := Compiling(Current(s.store), s.now))])
    case Install(id, usable) =>
      var c := s.checks[id];
      var v := c.waiting.version;
      var script := if usable && v < |s.store.scripts| then s.store.scripts[v] else None;
      Decide(Checked(s, id, Stored(v, script), c.waiting.readAt), limits, configured, c.request)
    case Unreadable(id) =>
      var t := s.(checks := s.checks - {id}, checkedAt := Some(s.checks[id].start), unread := true);
      Decide(t, limits, configured, s.checks[id].request)
    case Finish(i, outcome) => Finished(s, limits, i, outcome)
    case Forget(key) => s.(inflight := s.inflight - {key})
    case Invalidate => s.(cache := [], stored := None, checkedAt := None)
  }

  // ---- The invariant ----

  ghost predicate Names(store: Store, configured: Option<Script>, tag: Tag, script: Script) {
    match tag
    case Config => configured == Some(script)
    case Db(v) => v < |store.scripts| && store.scripts[v] == Some(script)
  }

  /** Version v was the current one at time t. */
  ghost predicate CurrentAt(store: Store, v: nat, t: real) {
    && v < |store.scripts| == |store.savedAt| && store.savedAt[v] <= t
    && (v + 1 < |store.savedAt| ==> t <= store.savedAt[v + 1])
  }

  ghost predicate StoreOk(store: Store, now: real) {
    && |store.scripts| == |store.savedAt| > 0
    && (forall v :: 0 <= v < |store.savedAt| ==> store.savedAt[v] <= now)
  }

  ghost predicate CheckOk(c: Check, store: Store, now: real) {
    && c.start <= now
    && (c.waiting.Told? || c.waiting.Compiling? ==>
          c.start <= c.waiting.readAt <= now && CurrentAt(store, c.waiting.version, c.waiting.readAt))
  }

  ghost predicate ChecksOk(checks: map<nat, Check>, store: Store, now: real) {
    forall id :: id in checks ==> CheckOk(checks[id], store, now)
  }

  ghost predicate StoredOk(stored: Stored, store: Store) {
    && stored.version < |store.scripts|
    && (stored.script.Some? ==> store.scripts[stored.version] == stored.script)
  }

  /** What is loaded is a saved version, current at `vouched`, which no readable check made older than itself. */
  ghost predicate LoadedOk(s: State) {
    s.stored.Some? ==>
      && StoredOk(s.stored.value, s.store)
      && CurrentAt(s.store, s.stored.value.version, s.vouched) && s.vouched <= s.now
      && (s.checkedAt.Some? && !s.unread ==> s.checkedAt.value <= s.vouched)
  }

  ghost predicate RunsOk(runs: seq<Run>, store: Store, configured: Option<Script>) {
    forall i :: 0 <= i < |runs| ==> Names(store, configured, runs[i].key.tag, runs[i].script)
  }

  ghost predicate FlightOk(runs: seq<Run>, inflight: map<Key, nat>) {
    && (forall i :: 0 <= i < |runs| && runs[i].phase.Running? ==> runs[i].key in inflight && inflight[runs[i].key] == i)
    && (forall k :: k in inflight ==> inflight[k] < |runs| && runs[inflight[k]].key == k)
  }

  /** Run `i` is finished and left entry `e`. */
  ghost predicate Left(runs: seq<Run>, limits: Limits, i: nat, e: Entry) {
    i < |runs| && runs[i].phase.Done? && EntryOf(limits, runs[i]) == e
  }

  ghost predicate CacheOk(cache: seq<Entry>, origin: map<Key, nat>, runs: seq<Run>, limits: Limits) {
    && |cache| <= limits.maxEntries && Distinct(cache)
    && (forall e :: e in cache ==> e.key in origin && Left(runs, limits, origin[e.key], e))
  }

  /** The answer is what its run left, and if it comes from the cache it was not yet expired. */
  ghost predicate AnswerOk(a: Answer, runs: seq<Run>, limits: Limits) {
    && a.run < |runs| && runs[a.run].phase.Done?
    && runs[a.run].key == a.key && EntryOf(limits, runs[a.run]).decision == a.decision
    && (if a.cached then a.at < EntryOf(limits, runs[a.run]).expires else a.at >= runs[a.run].phase.at)
  }

  ghost predicate AnswersOk(answers: seq<Answer>, runs: seq<Run>, limits: Limits) {
    forall a :: a in answers ==> AnswerOk(a, runs, limits)
  }

  ghost predicate FinishedBy(runs: seq<Run>, now: real) {
    forall i :: 0 <= i < |runs| && runs[i].phase.Done? ==> runs[i].phase.at <= now
  }

  ghost predicate Invariant(s: State, limits: Limits, configured: Option<Script>) {
    && StoreOk(s.store, s.now) && ChecksOk(s.checks, s.store, s.now) && LoadedOk(s)
    && RunsOk(s.runs, s.store, configured) && FlightOk(s.runs, s.inflight) && FinishedBy(s.runs, s.now)
    && CacheOk(s.cache, s.origin, s.runs, limits) && AnswersOk(s.answers, s.runs, limits)
  }

  /** Finished runs never change, so whatever they left or answered stays true. */
  ghost predicate Grows(runs: seq<Run>, more: seq<Run>) {
    && |runs| <= |more|
    && forall i :: 0 <= i < |runs| && runs[i].phase.Done? ==> more[i] == runs[i]
  }

  lemma RecordsStay(runs: seq<Run>, more: seq<Run>, limits: Limits, cache: seq<Entry>, origin: map<Key, nat>, answers: seq<Answer>)
    requires Grows(runs, more) && CacheOk(cache, origin, runs, limits) && AnswersOk(answers, runs, limits)
    ensures CacheOk(cache, origin, more, limits) && AnswersOk(answers, more, limits)
  {
    hide EntryOf, Distinct;
    forall e | e in cache ensures Left(more, limits, origin[e.key], e) {
      assert Left(runs, limits, origin[e.key], e);
    }
    forall a | a in answers ensures AnswerOk(a, more, limits) {
      assert AnswerOk(a, runs, limits);
    }
  }

  lemma DecideKeeps(s: State, limits: Limits, configured: Option<Script>, q: Request)
    requires Invariant(s, limits, configured)
    ensures Invariant(Decide(s, limits, configured, q), limits, configured)
  {
    hide Decide, StoreOk, ChecksOk, StoredOk, RunsOk, FlightOk, FinishedBy, CacheOk, AnswersOk, CurrentAt, Grows;
    var t := Decide(s, limits, configured, q);
    DecideFrame(s, limits, configured, q);
    DecideRuns(s, limits, configured, q);
    DecideCache(s, limits, configured, q);
    AnswerIsLeft(s, limits, configured, q);
    RecordsStay(s.runs, t.runs, limits, t.cache, t.origin, t.answers);
  }

  lemma DecideFrame(s: State, limits: Limits, configured: Option<Script>, q: Request)
    ensures var t := Decide(s, limits, configured, q);
            t == s.(cache := t.cache, inflight := t.inflight, runs := t.runs, answers := t.answers)
  {
    hide ActiveScript, Asked, EntryOf;
  }

  lemma RunOpened(runs: seq<Run>, inflight: map<Key, nat>, store: Store, configured: Option<Script>, r: Run, now: real)
    requires RunsOk(runs, store, configured) && FlightOk(runs, inflight) && FinishedBy(runs, now)
    requires r.key !in inflight && r.phase.Running? && Names(store, configured, r.key.tag, r.script)
    ensures RunsOk(runs + [r], store, configured) && FlightOk(runs + [r], inflight[r.key := |runs|])
    ensures FinishedBy(runs + [r], now) && Grows(runs, runs + [r])
  {
    hide Names;
  }

  lemma DecideCache(s: State, limits: Limits, configured: Option<Script>, q: Request)
    requires Invariant(s, limits, configured)
    ensures var t := Decide(s, limits, configured, q); CacheOk(t.cache, t.origin, s.runs, limits)
  {
    hide EntryOf, Left, AnswersOk, RunsOk, ChecksOk, LoadedOk, Lookup, Distinct, Without, Asked, FlightOk;
    var active := ActiveScript(s.stored, configured);
    if active.Some? {
      AskedKeeps(s.cache, Key(active.value.0, q.token), s.now);
    }
  }

  lemma DecideRuns(s: State, limits: Limits, configured: Option<Script>, q: Request)
    requires Invariant(s, limits, configured)
    ensures var t := Decide(s, limits, configured, q);
            && Grows(s.runs, t.runs) && RunsOk(t.runs, t.store, configured)
            && FlightOk(t.runs, t.inflight) && FinishedBy(t.runs, t.now)
  {
    hide EntryOf, CurrentAt, AnswersOk, CacheOk, ChecksOk, LoadedOk, Lookup, Distinct, Without, Asked, Names, ActiveScript,
         RunsOk, FlightOk, FinishedBy;
    var active := ActiveScript(s.stored, configured);
    if active.Some? {
      ActiveIsNamed(s, limits, configured);
      var key := Key(active.value.0, q.token);
      if key !in s.inflight {
        RunOpened(s.runs, s.inflight, s.store, configured, Run(key, active.value.1, q.exp, Running), s.now);
      }
    }
  }

  lemma ActiveIsNamed(s: State, limits: Limits, configured: Option<Script>)
    requires Invariant(s, limits, configured) && ActiveScript(s.stored, configured).Some?
    ensures Names(s.store, configured, ActiveScript(s.stored, configured).value.0, ActiveScript(s.stored, configured).value.1)
  {
  }

  lemma AnswerIsLeft(s: State, limits: Limits, configured: Option<Script>, q: Request)
    requires Invariant(s, limits, configured)
    ensures AnswersOk(Decide(s, limits, configured, q).answers, s.runs, limits)
  {
    hide EntryOf, CurrentAt, StoredOk, Asked, Lookup, Distinct, Without, ChecksOk, StoreOk, LoadedOk, RunsOk, ActiveScript;
    var active := ActiveScript(s.stored, configured);
    if active.Some? {
      var key := Key(active.value.0, q.token);
      var live := Live(s.cache, key, s.now);
      assert live.Some? ==> Left(s.runs, limits, s.origin[key], live.value);
      EntryCarriesKey(limits);
    }
  }

  lemma EntryCarriesKey(limits: Limits)
    ensures forall r: Run :: r.phase.Done? ==> EntryOf(limits, r).key == r.key
  {
  }

  lemma CheckedKeeps(s: State, limits: Limits, configured: Option<Script>, id: nat, stored: Stored, readAt: real)
    requires Invariant(s, limits, configured) && id in s.checks && StoredOk(stored, s.store)
    requires CurrentAt(s.store, stored.version, readAt) && s.checks[id].start <= readAt <= s.now
    ensures Invariant(Checked(s, id, stored, readAt), limits, configured)
  {
    hide EntryOf, Left, Names, Lookup, CurrentAt, StoredOk, StoreOk, CheckOk, AnswersOk, FlightOk, RunsOk, FinishedBy;
  }

  lemma FinishedKeeps(s: State, limits: Limits, configured: Option<Script>, i: nat, outcome: Outcome)
    requires Invariant(s, limits, configured) && i < |s.runs| && s.runs[i].phase.Running?
    ensures Invariant(Finished(s, limits, i, outcome), limits, configured)
  {
    hide CurrentAt, StoredOk, StoreOk, CheckOk, ChecksOk, Remembered, Distinct;
    var t := Finished(s, limits, i, outcome);
    var e := EntryOf(limits, t.runs[i]);
    RememberedKeeps(s.cache, limits.maxEntries, e);
    RecordsStay(s.runs, t.runs, limits, s.cache, s.origin, s.answers);
    assert LoadedOk(t);
    assert e.key == s.runs[i].key;
    assert CacheOk(t.cache, t.origin, t.runs, limits);
  }

  lemma SaveKeeps(s: State, limits: Limits, configured: Option<Script>, script: Option<Script>)
    requires Invariant(s, limits, configured)
    ensures Invariant(Step(s, limits, configured, Save(script)), limits, configured)
  {
    hide EntryOf, CacheOk, AnswersOk, FlightOk, FinishedBy;
    var t := Step(s, limits, configured, Save(script));
    assert forall v, at :: CurrentAt(s.store, v, at) && at <= s.now ==> CurrentAt(t.store, v, at);
  }

  lemma ReadKeeps(s: State, limits: Limits, configured: Option<Script>, e: Event)
    requires Invariant(s, limits, configured) && Enabled(s, limits, configured, e) && (e.Version? || e.Fetch?)
    ensures Invariant(Step(s, limits, configured, e), limits, configured)
  {
    hide StoredOk, RunsOk, FlightOk, FinishedBy, CacheOk, AnswersOk;
  }

  /** What passes the time, or only takes something away. */
  lemma QuietKeeps(s: State, limits: Limits, configured: Option<Script>, e: Event)
    requires Invariant(s, limits, configured) && Enabled(s, limits, configured, e)
    requires e.Tick? || e.Begin? || e.Forget? || e.Invalidate?
    ensures Invariant(Step(s, limits, configured, e), limits, configured)
  {
    hide EntryOf, AnswersOk, Left, Names, RunsOk, CurrentAt;
  }

  lemma StepKeepsInvariant(s: State, limits: Limits, configured: Option<Script>, e: Event)
    requires Invariant(s, limits, configured) && Enabled(s, limits, configured, e)
    ensures Invariant(Step(s, limits, configured, e), limits, configured)
  {
    hide Decide, Finished, EntryOf, CacheOk, AnswersOk, FlightOk, RunsOk, FinishedBy;
    match e
    case Call(q) => DecideKeeps(s, limits, configured, q);
    case Version(id) => ReadKeeps(s, limits, configured, e);
    case Compare(id) =>
      var c := s.checks[id];
      assert CheckOk(c, s.store, s.now);
      if s.stored.Some? && s.stored.value.version == c.waiting.version {
        CheckedKeeps(s, limits, configured, id, s.stored.value, c.waiting.readAt);
        DecideKeeps(Checked(s, id, s.stored.value, c.waiting.readAt), limits, configured, c.request);
      }
    case Fetch(id) => ReadKeeps(s, limits, configured, e);
    case Install(id, usable) =>
      var v := s.checks[id].waiting.version;
      assert CheckOk(s.checks[id], s.store, s.now);
      var stored := Stored(v, if usable && v < |s.store.scripts| then s.store.scripts[v] else None);
      CheckedKeeps(s, limits, configured, id, stored, s.checks[id].waiting.readAt);
      DecideKeeps(Checked(s, id, stored, s.checks[id].waiting.readAt), limits, configured, s.checks[id].request);
    case Unreadable(id) =>
      var t := s.(checks := s.checks - {id}, checkedAt := Some(s.checks[id].start), unread := true);
      assert Invariant(t, limits, configured);
      DecideKeeps(t, limits, configured, s.checks[id].request);
    case Finish(i, outcome) => FinishedKeeps(s, limits, configured, i, outcome);
    case Save(script) => SaveKeeps(s, limits, configured, script);
    case _ => QuietKeeps(s, limits, configured, e);
  }
}
