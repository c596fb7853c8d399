/**
 Waiting out a usage limit: `park`, the turn loop of `run_acp_agent` and the way it
 resumes from stored state, app/steps/acp_executor.py:450-589.

 The step's variables live in one process and are lost when it restarts; `saved` is
 what the stored agent task holds.  Times are seconds.
 */
module QuotaPark {
  import opened Common

  /** The limits that are waited out; an exhausted quota fails the step at once. */
  datatype Kind = UsageLimit | RateLimited | Overloaded

  datatype Limit = Limit(kind: Kind, resetsAt: Option<real>)

  datatype Config = Config(retry: real, maxWait: real)

  // ---- How long a limit is waited out ----

  function Pow2(n: nat): (p: nat)
    ensures p >= 1
  {
    if n == 0 then 1 else 2 * Pow2(n - 1)
  }

  /** The back-off before the n-th retry of a transient limit. */
  function BackOff(n: nat): real
    requires n > 0
  {
    Min(60.0 * Pow2(n - 1) as real, 900.0)
  }

  lemma {:induction false} Pow2Grows(m: nat, n: nat)
    requires m <= n
    ensures Pow2(m) <= Pow2(n)
  {
    if m < n {
      Pow2Grows(m, n - 1);
    }
  }

  /** The back-off starts at a minute, never shrinks, and is a quarter of an hour from the fifth retry on. */
  lemma BackOffShape(m: nat, n: nat)
    requires 0 < m <= n
    ensures 60.0 == BackOff(1) <= BackOff(m) <= BackOff(n) <= 900.0
    ensures BackOff(m) == 900.0 <==> m >= 5
  {
    Pow2Grows(m - 1, n - 1);
    Pow2Grows(0, m - 1);
    assert Pow2(1) == 2 && Pow2(2) == 4 && Pow2(3) == 8;
    assert Pow2(4) == 16;
    if m >= 5 {
      Pow2Grows(4, m - 1);
    } else {
      Pow2Grows(m - 1, 3);
    }
  }

  /** It doubles until it gets there. */
  lemma BackOffDoubles(n: nat)
    requires n > 0
    ensures BackOff(n + 1) == if BackOff(n) < 450.0 then 2.0 * BackOff(n) else 900.0
  {
    assert Pow2(n) == 2 * Pow2(n - 1);
  }

  function ResumeAt(cfg: Config, limit: Limit, now: real, transient: nat): real
    requires limit.kind != UsageLimit ==> transient > 0
  {
    if limit.kind == UsageLimit then
      match limit.resetsAt
      case Some(reset) => Max(reset + 60.0, now + 30.0)
      case None => now + cfg.retry
    else now + BackOff(transient)
  }

  /** The least any park lasts. */
  function Shortest(cfg: Config): real {
    Min(30.0, cfg.retry)
  }

  lemma ParkLasts(cfg: Config, limit: Limit, now: real, transient: nat)
    requires limit.kind != UsageLimit ==> transient > 0
    ensures ResumeAt(cfg, limit, now, transient) >= now + Shortest(cfg)
    ensures limit.kind == UsageLimit && limit.resetsAt.Some? ==>
              ResumeAt(cfg, limit, now, transient) >= limit.resetsAt.value + 60.0
  {
    if limit.kind != UsageLimit {
      BackOffShape(transient, transient);
    }
  }

  /** A known reset is waited for with a minute to spare, but half a minute at least; an unknown one for the retry time. */
  lemma ResumeIsDue(cfg: Config, limit: Limit, now: real, transient: nat)
    requires limit.kind != UsageLimit ==> transient > 0
    ensures var at := ResumeAt(cfg, limit, now, transient);
            && (limit.kind != UsageLimit ==> at == now + BackOff(transient))
            && (limit.kind == UsageLimit && limit.resetsAt.None? ==> at == now + cfg.retry)
            && (limit.kind == UsageLimit && limit.resetsAt.Some? ==>
                  && at >= limit.resetsAt.value + 60.0 && at >= now + 30.0
                  && (at == limit.resetsAt.value + 60.0 || at == now + 30.0))
  {
  }

  // ---- The step and its restarts ----

  /** What the stored agent task says about the wait. */
  datatype Saved = Nothing | SavedWorking | SavedParked(limit: Limit, since: real)

  datatype Phase =
    | Starting                                        // before there is a connection
    | Working                                         // a prompt is running
    | Parked(limit: Limit, parkedAt: real, resumeAt: real)
    | Resuming                                        // awake, the next prompt not yet sent
    | Down
    | Ended

  /** `started` is quota_started, `connected` whether there is a connection to save. */
  datatype State = State(now: real, phase: Phase, started: Option<real>, transient: nat, connected: bool, saved: Saved)

  datatype Event =
    | Tick(to: real)
    | Hit(limit: Limit)
    | Wake
    | Send              // send_prompt, which saves the task as working
    | Restart
    | Crash
    | Finish

  /** `park` up to its sleep: the step fails when it would wait too long, otherwise it is parked. */
  function Park(s: State, cfg: Config, limit: Limit): State {
    var started := if s.started.Some? then s.started.value else s.now;
    var transient := if limit.kind == UsageLimit then s.transient else s.transient + 1;
    var resumeAt := ResumeAt(cfg, limit, s.now, transient);
    var t := s.(started := Some(started), transient := transient);
    if resumeAt - started > cfg.maxWait then t.(phase := Ended)
    else t.(phase := Parked(limit, s.now, resumeAt),
            saved := if s.connected then SavedParked(limit, started) else s.saved)
  }

  predicate Enabled(s: State, e: Event) {
    match e
    case Tick(to) => s.now <= to
    case Hit(_) => s.phase.Working? || s.phase.Starting?
    case Wake => s.phase.Parked? && s.now >= s.phase.resumeAt
    case Send => s.phase.Starting? || s.phase.Resuming?
    case Restart => s.phase.Down?
    case Crash => !s.phase.Down? && !s.phase.Ended?
    case Finish => s.phase.Working?
  }

  function Step(s: State, cfg: Config, e: Event): State
    requires Enabled(s, e)
  {
    match e
    case Tick(to) => s.(now := to)
    case Hit(limit) => Park(s, cfg, limit)
    case Wake => s.(phase := if s.connected then Resuming else Starting)
    case Send => s.(phase := Working, connected := true, saved := SavedWorking)
    case Restart =>
      (match s.saved
       case Nothing => s.(phase := Starting, connected := false)
       case SavedWorking => s.(phase := Working, connected := true)
       case SavedParked(limit, since) => Park(s.(started := Some(since), connected := true), cfg, limit))
    case Crash => s.(phase := Down, started := None, transient := 0, connected := false)
    case Finish => s.(phase := Ended)
  }

  /** A limit is waited out, from the first one on, exactly when that ends within the longest wait; else the step fails. */
  lemma ParkedExactlyWhen(s: State, cfg: Config, limit: Limit)
    ensures var start := if s.started.Some? then s.started.value else s.now;
            var tries := s.transient + if limit.kind == UsageLimit then 0 else 1;
            var at := ResumeAt(cfg, limit, s.now, tries);
            var t := s.(started := Some(start), transient := tries);
            && (at > start + cfg.maxWait ==> Park(s, cfg, limit) == t.(phase := Ended))
            && (at <= start + cfg.maxWait && s.connected ==>
                  Park(s, cfg, limit) == t.(phase := Parked(limit, s.now, at), saved := SavedParked(limit, start)))
            && (at <= start + cfg.maxWait && !s.connected ==> Park(s, cfg, limit) == t.(phase := Parked(limit, s.now, at)))
  {
    hide ResumeAt;
  }

  /** A crash loses the step's variables; the restart starts over, goes on with the prompt, or parks again as it was stored. */
  lemma RestartTakesUp(s: State, cfg: Config)
    requires Enabled(s, Crash)
    ensures Enabled(Step(s, cfg, Crash), Restart)
    ensures var t := Step(Step(s, cfg, Crash), cfg, Restart);
            match s.saved
            case Nothing => t == s.(phase := Starting, started := None, transient := 0, connected := false)
            case SavedWorking => t == s.(phase := Working, started := None, transient := 0, connected := true)
            case SavedParked(limit, since) =>
              t == Park(s.(phase := Down, started := Some(since), transient := 0, connected := true), cfg, limit)
  {
    hide Park;
  }

  /** A park is over when its time has come and not before, and what is sent then is stored as working. */
  lemma WakesInTime(s: State, cfg: Config, to: real)
    requires s.phase.Parked? && s.now <= to
    ensures var t := Step(s, cfg, Tick(to));
            && t == s.(now := to) && (Enabled(t, Wake) <==> to >= s.phase.resumeAt)
            && (to >= s.phase.resumeAt ==>
                  var u := Step(t, cfg, Wake);
                  && u == t.(phase := u.phase) && (s.connected ==> u.phase == Resuming) && (!s.connected ==> u.phase == Starting)
                  && Enabled(u, Send)
                  && Step(u, cfg, Send) == t.(phase := Working, connected := true, saved := SavedWorking)
                  && Step(Step(u, cfg, Send), cfg, Finish).phase == Ended)
  {
  }

  predicate Possible(s: State, cfg: Config, events: seq<Event>)
    decreases |events|
  {
    events == [] || (Enabled(s, events[0]) && Possible(Step(s, cfg, events[0]), cfg, events[1..]))
  }

  function Play(s: State, cfg: Config, events: seq<Event>): State
    requires Possible(s, cfg, events)
    decreases |events|
  {
    if events == [] then s else Play(Step(s, cfg, events[0]), cfg, events[1..])
  }

  /** The start of the window in which all parks have to fit. */
  function Window(s: State): Option<real> {
    if s.phase.Down? then
      match s.saved
      case SavedParked(_, since) => Some(since)
      case _ => None
    else s.started
  }

  /** A crash forgets the window. */
  predicate Forgets(s: State, e: Event) {
    e.Crash? && !s.saved.SavedParked?
  }

  /** Parks waited to their end. */
  function Completed(events: seq<Event>): nat {
    if events == [] then 0 else (if events[0].Wake? then 1 else 0) + Completed(events[1..])
  }

  function Forgotten(s: State, cfg: Config, events: seq<Event>): nat
    requires Possible(s, cfg, events)
    decreases |events|
  {
    if events == [] then 0
    else (if Forgets(s, events[0]) then 1 else 0) + Forgotten(Step(s, cfg, events[0]), cfg, events[1..])
  }

  function Times(n: nat, x: real): real {
    if n == 0 then 0.0 else Times(n - 1, x) + x
  }

  lemma {:induction false} TimesAdds(m: nat, n: nat, x: real)
    ensures Times(m + n, x) == Times(m, x) + Times(n, x)
  {
    if n > 0 {
      TimesAdds(m, n - 1, x);
    }
  }

  lemma TimesFew(none: nat, x: real, y: real)
    ensures none == 0 ==> Times(none, x) == 0.0
    ensures Times(1, y) == y
  {
    assert Times(0, y) == 0.0;
  }

  lemma {:induction false} TimesIsProduct(n: nat, x: real)
    ensures Times(n, x) == n as real * x
  {
    if n > 0 {
      TimesIsProduct(n - 1, x);
      assert n as real * x == (n - 1) as real * x + x;
    }
  }

  /** `done` parks have been waited out in the present window. */
  predicate Invariant(s: State, cfg: Config, done: nat) {
    && (done > 0 ==> Times(done, Shortest(cfg)) <= cfg.maxWait)
    && (Window(s).None? ==> done == 0)
    && (Window(s).Some? ==> Window(s).value + Times(done, Shortest(cfg)) <= s.now)
    && (s.saved.SavedParked? && !s.phase.Down? ==> s.started == Some(s.saved.since))
    && (s.connected || s.saved.Nothing? || s.phase.Down? || s.phase.Ended?)
    && (s.phase.Resuming? ==> s.connected)
    && (s.phase.Down? ==> s.started.None?)
    && (s.phase.Parked? ==>
          && s.started.Some?
          && s.started.value + Times(done, Shortest(cfg)) <= s.phase.parkedAt
          && s.phase.parkedAt + Shortest(cfg) <= s.phase.resumeAt <= s.started.value + cfg.maxWait
          && (s.connected ==> s.saved == SavedParked(s.phase.limit, s.started.value)))
  }

  function Next(s: State, e: Event, done: nat): nat {
    if Forgets(s, e) then 0 else if e.Wake? then done + 1 else done
  }

  lemma ParkKeeps(s: State, cfg: Config, limit: Limit, done: nat)
    requires Invariant(s, cfg, done) && !s.phase.Down? && !s.phase.Ended?
    ensures Invariant(Park(s, cfg, limit), cfg, done)
  {
    ParkLasts(cfg, limit, s.now, if limit.kind == UsageLimit then s.transient else s.transient + 1);
  }

  lemma StepKeepsInvariant(s: State, cfg: Config, e: Event, done: nat)
    requires Invariant(s, cfg, done) && Enabled(s, e)
    ensures Invariant(Step(s, cfg, e), cfg, Next(s, e, done))
  {
    match e
    case Hit(limit) => ParkKeeps(s, cfg, limit, done);
    case Restart =>
      if s.saved.SavedParked? {
        var t := s.(started := Some(s.saved.since), connected := true, phase := Resuming);
        ParkKeeps(t, cfg, s.saved.limit, done);
      }
    case _ =>
  }

  predicate Fresh(s: State) {
    s.phase.Starting? && s.started.None? && !s.connected && s.saved.Nothing?
  }

  /** What is parked resumes within the longest wait of the start of its window, in every history. */
  lemma {:induction false} AcceptedParksFit(s: State, cfg: Config, events: seq<Event>, done: nat)
    requires Invariant(s, cfg, done) && Possible(s, cfg, events)
    ensures var t := Play(s, cfg, events);
            t.phase.Parked? ==> t.started.Some? && t.phase.resumeAt <= t.started.value + cfg.maxWait
                                && t.phase.parkedAt + Shortest(cfg) <= t.phase.resumeAt
    decreases |events|
  {
    if events != [] {
      StepKeepsInvariant(s, cfg, events[0], done);
      AcceptedParksFit(Step(s, cfg, events[0]), cfg, events[1..], Next(s, events[0], done));
    }
  }

  lemma {:induction false} ParksAreBounded(s: State, cfg: Config, events: seq<Event>, done: nat)
    requires Invariant(s, cfg, done) && Possible(s, cfg, events)
    ensures Times(done + Completed(events), Shortest(cfg)) <= Times(1 + Forgotten(s, cfg, events), Max(0.0, cfg.maxWait))
    decreases |events|
  {
    var m, w := Shortest(cfg), Max(0.0, cfg.maxWait);
    var f := Forgotten(s, cfg, events);
    if events == [] {
      TimesFew(done, m, w);
    } else {
      var e := events[0];
      var t := Step(s, cfg, e);
      StepKeepsInvariant(s, cfg, e, done);
      ParksAreBounded(t, cfg, events[1..], Next(s, e, done));
      if Forgets(s, e) {
        TimesAdds(done, Completed(events[1..]), m);
        TimesAdds(1, 1 + Forgotten(t, cfg, events[1..]), w);
        TimesFew(done, m, w);
        assert 1 + f == 1 + (1 + Forgotten(t, cfg, events[1..]));
      }
    }
  }

  /**
   Parks are finitely many: in any history, each waited-out park takes up its
   share of one window, and there is one window plus one for every forgetting crash.
   */
  lemma WaitsAreFinite(s: State, cfg: Config, events: seq<Event>)
    requires Fresh(s) && Possible(s, cfg, events) && cfg.retry > 0.0 && cfg.maxWait >= 0.0
    ensures Completed(events) as real * Shortest(cfg) <= (1 + Forgotten(s, cfg, events)) as real * cfg.maxWait
  {
    ParksAreBounded(s, cfg, events, 0);
    TimesIsProduct(Completed(events), Shortest(cfg));
    TimesIsProduct(1 + Forgotten(s, cfg, events), cfg.maxWait);
  }

  lemma {:induction false} NothingForgotten(s: State, cfg: Config, events: seq<Event>)
    requires Possible(s, cfg, events) && forall e :: e in events ==> !e.Crash?
    ensures Forgotten(s, cfg, events) == 0
    decreases |events|
  {
    if events != [] {
      assert events[0] in events && forall e :: e in events[1..] ==> e in events;
      NothingForgotten(Step(s, cfg, events[0]), cfg, events[1..]);
    }
  }

  /** A step whose process never crashes is done waiting within one longest wait. */
  lemma WaitsFitWithoutCrash(s: State, cfg: Config, events: seq<Event>)
    requires Fresh(s) && Possible(s, cfg, events) && cfg.retry > 0.0 && cfg.maxWait >= 0.0
    requires forall e :: e in events ==> !e.Crash?
    ensures Completed(events) as real * Shortest(cfg) <= cfg.maxWait
  {
    WaitsAreFinite(s, cfg, events);
    NothingForgotten(s, cfg, events);
  }

  /** A crash and restart keep the window exactly while the wait is what the stored agent task says. */
  lemma WindowSurvivesExactlyWhileSaved(s: State, cfg: Config, done: nat)
    requires Invariant(s, cfg, done) && Enabled(s, Crash) && s.started.Some?
    ensures Enabled(Step(s, cfg, Crash), Restart)
    ensures Step(Step(s, cfg, Crash), cfg, Restart).started == s.started <==> s.saved.SavedParked?
  {
  }

  /**
   A restart while a prompt runs starts a new window, so a step can go on waiting
   long past the longest wait after its first limit.
   */
  lemma RestartWhileWorkingWaitsLonger(limit: Limit)
    requires limit == Limit(UsageLimit, None)
    ensures var cfg := Config(1800.0, 86400.0);
            var first := State(1.0, Starting, None, 0, false, Nothing);
            var parked := Step(Step(first, cfg, Send), cfg, Hit(limit));
            var working := Step(Step(Step(parked, cfg, Tick(1801.0)), cfg, Wake), cfg, Send);
            var restarted := Step(Step(working, cfg, Crash), cfg, Restart);
            var again := Step(Step(restarted, cfg, Tick(90000.0)), cfg, Hit(limit));
            && Fresh(first) && parked.started == Some(1.0) && again.phase == Parked(limit, 90000.0, 91800.0)
            && again.phase.resumeAt > parked.started.value + cfg.maxWait
  {
  }

  // ---- The step's own variables ----

  /** The variables `park` shares with the turn loop, and what the stored agent task is left holding. */
  class Wait {
    const cfg: Config
    var started: Option<real>
    var transient: nat
    var saved: Saved

    constructor (cfg: Config)
      ensures this.cfg == cfg && started.None? && transient == 0 && saved.Nothing?
    {
      this.cfg := cfg;
      started, transient, saved := None, 0, Nothing;
    }

    /** The state the protocol sees. */
    ghost function At(now: real, phase: Phase, connected: bool): State
      reads this
    {
      State(now, phase, started, transient, connected, saved)
    }

    /** `park` up to its sleep; None when the step fails because it would wait too long. */
    method Enter(limit: Limit, now: real, connected: bool) returns (resumeAt: Option<real>)
      modifies this
      ensures var after := Park(old(At(now, Working, connected)), cfg, limit);
              && At(now, after.phase, connected) == after
              && (resumeAt.None? <==> after.phase.Ended?)
              && (resumeAt.Some? ==> after.phase == Parked(limit, now, resumeAt.value))
      ensures resumeAt.Some? ==> started.Some? && now + Shortest(cfg) <= resumeAt.value <= started.value + cfg.maxWait
    {
      if started.None? {
        started := Some(now);
      }
      var at: real;
      if limit.kind == UsageLimit {
        if limit.resetsAt.Some? {
          at := Max(limit.resetsAt.value + 60.0, now + 30.0);
        } else {
          at := now + cfg.retry;
        }
      } else {
        transient := transient + 1;
        at := now + Min(60.0 * Pow2(transient - 1) as real, 900.0);
      }
      if at - started.value > cfg.maxWait {
        return None;
      }
      if connected {
        saved := SavedParked(limit, started.value);
      }
      ParkLasts(cfg, limit, now, transient);
      resumeAt := Some(at);
    }

    /** `send_prompt`: the task is saved as working, which drops the wait from the document. */
    method Send(now: real)
      modifies this`saved
      ensures At(now, Working, true) == Step(old(At(now, Resuming, true)), cfg, Event.Send)
    {
      saved := SavedWorking;
    }

    /** Taking a stored task up again; a parked one waits on, in the window it had. */
    method Restore(now: real) returns (resumeAt: Option<real>)
      requires saved.SavedParked? && started.None? && transient == 0
      modifies this
      ensures var after := Step(old(At(now, Down, false)), cfg, Restart);
              && At(now, after.phase, true) == after
              && (resumeAt.Some? ==> after.phase == Parked(old(saved).limit, now, resumeAt.value))
      ensures started == Some(old(saved).since)
    {
      started := Some(saved.since);
      resumeAt := Enter(saved.limit, now, true);
    }
  }
}
