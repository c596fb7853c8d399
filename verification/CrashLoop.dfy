/**
 The crash-loop guard of startup recovery: `_recover_incomplete_runs`,
 `_quarantine_crash_looping_run` and `_disable_workflow` of
 app/core/container.py:794-876, over the atomic repository operations of
 app/infrastructure/persistence/mongo.py:100-164.  Around it people retry ended runs
 (app/application/run_control.py:373-535) and switch workflows on and off.

 Runs and the disabled workflows are persistent.  The candidate list, the run being
 recovered (`begun`) and the workflow about to be disabled (`disabling`) belong to
 one process and are lost when it crashes.
 */
module CrashLoop {
  import opened Common

  datatype Status = Running | Waiting | Ended

  datatype Run = Run(job: bool, workflow: string, status: Status, attempts: nat)

  /** A candidate as read at startup, with the attempts it had then. */
  datatype Candidate = Candidate(id: string, attempts: nat)

  datatype State = State(runs: map<string, Run>, disabled: set<string>, todo: seq<Candidate>, begun: Option<string>, disabling: Option<string>)

  /** How recovering one run turned out. */
  datatype Outcome = Resumed | Reparked | Failed | Raised

  datatype Event =
    | Startup(order: seq<string>)   // list_recovery_candidates
    | Next                          // the next candidate: closed, quarantined, skipped, or begin_recovery
    | Disable                       // the workflow of a run just failed by the guard
    | Settle(outcome: Outcome)      // what _recover_run left behind
    | Crash
    | Progress(id: string)          // a step of a run completes
    | Park(id: string)
    | Unpark(id: string)
    | End(id: string)
    | Create(id: string, job: bool, workflow: string)
    | Retry(id: string)             // retry_run or restart_from_step; its check of the workflow lies further back
    | Switch(workflow: string, on: bool)

  predicate Incomplete(r: Run) {
    r.status != Ended
  }

  predicate Quarantines(max: int, attempts: nat) {
    max > 0 && attempts >= max
  }

  /** The run Next would resume, if it resumes one. */
  function Resumes(s: State, max: int): Option<string> {
    if s.todo == [] || s.todo[0].id !in s.runs then None
    else
      var c, r := s.todo[0], s.runs[s.todo[0].id];
      if r.job || Quarantines(max, c.attempts) || !Incomplete(r) then None else Some(c.id)
  }

  ghost predicate Enabled(s: State, e: Event) {
    match e
    case Startup(order) =>
      && s.todo == [] && s.begun.None? && s.disabling.None?
      && (forall i, j :: 0 <= i < j < |order| ==> order[i] != order[j])
      && forall id :: id in order <==> id in s.runs && Incomplete(s.runs[id])
    case Next => s.todo != [] && s.begun.None? && s.disabling.None?
    case Disable => s.disabling.Some?
    case Settle(outcome) => s.begun.Some? && s.begun.value in s.runs && (outcome.Reparked? ==> s.runs[s.begun.value].status == Waiting)
    case Crash => true
    case Progress(id) => id in s.runs && Incomplete(s.runs[id])
    case Park(id) => id in s.runs && s.runs[id].status == Running
    case Unpark(id) => id in s.runs && s.runs[id].status == Waiting
    case End(id) => id in s.runs
    case Create(id, _, _) => id !in s.runs
    case Retry(id) => id in s.runs && s.runs[id].status == Ended
    case Switch(_, _) => true
  }

  function Snapshot(runs: map<string, Run>, order: seq<string>): (todo: seq<Candidate>)
    requires forall id :: id in order ==> id in runs
    ensures |todo| == |order|
    ensures forall i :: 0 <= i < |todo| ==> todo[i] == Candidate(order[i], runs[order[i]].attempts)
  {
    seq(|order|, i requires 0 <= i < |order| => Candidate(order[i], runs[order[i]].attempts))
  }

  /** One candidate of the recovery loop, up to the point where a resumed run takes over. */
  function NextCandidate(s: State, max: int): State {
    if s.todo == [] then s
    else if s.todo[0].id !in s.runs then s.(todo := s.todo[1..])
    else
      var c, rest := s.todo[0], s.(todo := s.todo[1..]);
      var r := s.runs[c.id];
      if r.job then rest.(runs := s.runs[c.id := r.(status := Ended)])
      else if Quarantines(max, c.attempts) then
        rest.(runs := s.runs[c.id := r.(status := Ended)], disabling := Some(r.workflow))
      else if !Incomplete(r) then rest
      else rest.(runs := s.runs[c.id := r.(attempts := r.attempts + 1)], begun := Some(c.id))
  }

  ghost function Step(s: State, max: int, e: Event): State
    requires Enabled(s, e)
  {
    match e
    case Startup(order) => s.(todo := Snapshot(s.runs, order))
    case Next => NextCandidate(s, max)
    case Disable => s.(disabled := s.disabled + {s.disabling.value}, disabling := None)
    case Settle(outcome) =>
      var id := s.begun.value;
      var r := s.runs[id];
      var after := match outcome
        case Resumed => r
        case Reparked => r.(attempts := 0)
        case Failed => r.(status := Ended)
        case Raised => r;
      s.(runs := s.runs[id := after], begun := None)
    case Crash => s.(todo := [], begun := None, disabling := None)
    case Progress(id) => s.(runs := s.runs[id := s.runs[id].(attempts := 0)])
    case Park(id) => s.(runs := s.runs[id := s.runs[id].(status := Waiting)])
    case Unpark(id) => s.(runs := s.runs[id := s.runs[id].(status := Running)])
    case End(id) => s.(runs := s.runs[id := s.runs[id].(status := Ended)])
    case Create(id, job, workflow) => s.(runs := s.runs[id := Run(job, workflow, Running, 0)])
    case Retry(id) => s.(runs := s.runs[id := s.runs[id].(status := Running)])
    case Switch(w, on) => s.(disabled := if on then s.disabled - {w} else s.disabled + {w})
  }

  ghost predicate Possible(s: State, max: int, events: seq<Event>)
    decreases |events|
  {
    events == [] || (Enabled(s, events[0]) && Possible(Step(s, max, events[0]), max, events[1..]))
  }

  ghost function Play(s: State, max: int, events: seq<Event>): State
    requires Possible(s, max, events)
    decreases |events|
  {
    if events == [] then s else Play(Step(s, max, events[0]), max, events[1..])
  }

  // ---- The counter measures resumes since the last sign of life ----

  /** A sign of life of `id`: it completes a step, or survives its recovery parked. */
  ghost predicate ShowsLife(s: State, e: Event, id: string) {
    (e.Progress? && e.id == id) || (e.Settle? && e.outcome.Reparked? && s.begun == Some(id))
  }

  ghost predicate IsResume(s: State, max: int, e: Event, id: string) {
    e.Next? && Resumes(s, max) == Some(id)
  }

  /** Resumes of `id` after its last sign of life, `before` of them earlier. */
  ghost function ResumesSince(s: State, max: int, events: seq<Event>, id: string, before: nat): nat
    requires Possible(s, max, events)
    decreases |events|
  {
    if events == [] then before
    else
      var now := if ShowsLife(s, events[0], id) then 0
                 else if IsResume(s, max, events[0], id) then before + 1
                 else before;
      ResumesSince(Step(s, max, events[0]), max, events[1..], id, now)
  }

  /** Candidates are distinct, and no run has had more attempts than its candidate entry says. */
  ghost predicate TodoOk(s: State) {
    && (forall i, j :: 0 <= i < j < |s.todo| ==> s.todo[i].id != s.todo[j].id)
    && (forall i :: 0 <= i < |s.todo| && s.todo[i].id in s.runs ==> s.runs[s.todo[i].id].attempts <= s.todo[i].attempts)
  }

  ghost predicate Bounded(s: State, max: int) {
    max > 0 ==> forall id :: id in s.runs ==> s.runs[id].attempts <= max
  }

  ghost predicate Invariant(s: State, max: int) {
    TodoOk(s) && Bounded(s, max) && (s.begun.Some? ==> s.begun.value in s.runs)
  }

  lemma StepKeepsInvariant(s: State, max: int, e: Event)
    requires Invariant(s, max) && Enabled(s, e)
    ensures Invariant(Step(s, max, e), max)
  {
    if e.Next? {
      var t := Step(s, max, e);
      forall i | 0 <= i < |t.todo| && t.todo[i].id in t.runs
        ensures t.runs[t.todo[i].id].attempts <= t.todo[i].attempts
      {
        assert t.todo[i] == s.todo[i + 1] && s.todo[0].id != s.todo[i + 1].id;
      }
    }
  }

  /** The stored counter is exactly the number of resumes since the last sign of life. */
  lemma {:induction false} CounterIsResumes(s: State, max: int, events: seq<Event>, id: string)
    requires Invariant(s, max) && Possible(s, max, events) && id in s.runs
    ensures id in Play(s, max, events).runs
    ensures Play(s, max, events).runs[id].attempts == ResumesSince(s, max, events, id, s.runs[id].attempts)
    decreases |events|
  {
    if events != [] {
      StepKeepsInvariant(s, max, events[0]);
      CounterIsResumes(Step(s, max, events[0]), max, events[1..], id);
    }
  }

  lemma {:induction false} PlayKeepsInvariant(s: State, max: int, events: seq<Event>)
    requires Invariant(s, max) && Possible(s, max, events)
    ensures Invariant(Play(s, max, events), max)
    decreases |events|
  {
    if events != [] {
      StepKeepsInvariant(s, max, events[0]);
      PlayKeepsInvariant(Step(s, max, events[0]), max, events[1..]);
    }
  }

  /**
   Through any startups, crashes at any point and steps of other runs, a run is
   resumed at most `max` times without a sign of life.
   */
  lemma ResumedAtMostMax(s: State, max: int, events: seq<Event>, id: string)
    requires max > 0 && Invariant(s, max) && Possible(s, max, events) && id in s.runs
    ensures ResumesSince(s, max, events, id, s.runs[id].attempts) <= max
  {
    CounterIsResumes(s, max, events, id);
    PlayKeepsInvariant(s, max, events);
  }

  // ---- Exactly when a run is failed ----

  /** What the turn of a candidate does: a job is closed, an exhausted run failed, any other incomplete one resumed. */
  lemma TurnOf(s: State, max: int)
    requires Enabled(s, Next) && s.todo[0].id in s.runs
    ensures var (c, r, t) := (s.todo[0], s.runs[s.todo[0].id], Step(s, max, Next));
            && t.todo == s.todo[1..] && t.disabled == s.disabled
            && (r.job ==> t == s.(todo := t.todo, runs := s.runs[c.id := r.(status := Ended)]))
            && (!r.job && max > 0 && c.attempts >= max ==>
                  t == s.(todo := t.todo, runs := s.runs[c.id := r.(status := Ended)], disabling := Some(r.workflow)))
            && (!r.job && (max <= 0 || c.attempts < max) && r.status == Ended ==> t == s.(todo := t.todo))
            && (!r.job && (max <= 0 || c.attempts < max) && r.status != Ended ==>
                  t == s.(todo := t.todo, runs := s.runs[c.id := r.(attempts := r.attempts + 1)], begun := Some(c.id)))
  {
  }

  /** What any step does to a run, to the disabled workflows, and to what a crash loses. */
  lemma WhatBecomesOf(s: State, max: int, e: Event, id: string)
    requires Invariant(s, max) && Enabled(s, e) && id in s.runs
    ensures id in Step(s, max, e).runs
    ensures var r, q := s.runs[id], Step(s, max, e).runs[id];
            var ends := || e == End(id) || (e.Settle? && e.outcome.Failed? && s.begun == Some(id))
                        || (e.Next? && s.todo[0].id == id && (r.job || (max > 0 && s.todo[0].attempts >= max)));
            && q.job == r.job && q.workflow == r.workflow
            && q.attempts == (if ShowsLife(s, e, id) then 0 else if IsResume(s, max, e, id) then r.attempts + 1 else r.attempts)
            && q.status == if ends then Ended
                           else if e == Park(id) then Waiting
                           else if e == Unpark(id) || e == Retry(id) then Running
                           else r.status
    ensures Step(s, max, e).disabled ==
              match e
              case Switch(w, on) => if on then s.disabled - {w} else s.disabled + {w}
              case Disable => s.disabled + {s.disabling.value}
              case _ => s.disabled
    ensures var t := Step(s, max, e);
            && (e.Crash? ==> t.todo == [] && t.begun.None? && t.disabling.None?)
            && (e.Settle? ==> t.begun.None?) && (e.Disable? ==> t.disabling.None?)
  {
  }

  lemma {:induction false} KindStays(s: State, max: int, events: seq<Event>, id: string)
    requires Invariant(s, max) && Possible(s, max, events) && id in s.runs
    ensures var t := Play(s, max, events);
            id in t.runs && t.runs[id].job == s.runs[id].job && t.runs[id].workflow == s.runs[id].workflow
    decreases |events|
  {
    if events != [] {
      StepKeepsInvariant(s, max, events[0]);
      KindStays(Step(s, max, events[0]), max, events[1..], id);
    }
  }

  ghost predicate NoStartup(events: seq<Event>) {
    forall e :: e in events ==> !e.Startup?
  }

  /** Only a startup lists anything. */
  lemma {:induction false} ListShrinks(s: State, max: int, events: seq<Event>, c: Candidate)
    requires Possible(s, max, events) && NoStartup(events) && c in Play(s, max, events).todo
    ensures c in s.todo
    decreases |events|
  {
    if events != [] {
      assert forall e :: e in events[1..] ==> e in events;
      ListShrinks(Step(s, max, events[0]), max, events[1..], c);
    }
  }

  /**
   A workflow run created at any time, through any crashes, startups and retries, at
   its turn in any later startup: if it is incomplete, the guard fails it exactly when
   it had then been resumed exactly `max` times since its last sign of life, and it
   is resumed exactly when it had been resumed less often, or there is no maximum.
   */
  lemma FailedExactlyAfterMax(s: State, max: int, id: string, w: string, before: seq<Event>, order: seq<string>, since: seq<Event>)
    requires Invariant(s, max) && Enabled(s, Create(id, false, w))
    requires var r := Step(s, max, Create(id, false, w));
             && Possible(r, max, before) && Enabled(Play(r, max, before), Startup(order))
             && var t := Step(Play(r, max, before), max, Startup(order));
                && Possible(t, max, since) && NoStartup(since)
                && var u := Play(t, max, since);
                   Enabled(u, Next) && u.todo[0].id == id && id in u.runs && Incomplete(u.runs[id])
    ensures var r := Step(s, max, Create(id, false, w));
            var u := Play(Step(Play(r, max, before), max, Startup(order)), max, since);
            var resumes := ResumesSince(r, max, before, id, 0);
            && (Step(u, max, Next).begun == Some(id) <==> max <= 0 || resumes < max)
            && (Step(u, max, Next).disabling == Some(w) <==> max > 0 && resumes == max)
            && (Step(u, max, Next).disabling == Some(w) <==> Step(u, max, Next).runs[id].status == Ended)
  {
    var r := Step(s, max, Create(id, false, w));
    StepKeepsInvariant(s, max, Create(id, false, w));
    CounterIsResumes(r, max, before, id);
    PlayKeepsInvariant(r, max, before);
    var b := Play(r, max, before);
    var t := Step(b, max, Startup(order));
    StepKeepsInvariant(b, max, Startup(order));
    KindStays(r, max, before, id);
    KindStays(t, max, since, id);
    var u := Play(t, max, since);
    ListShrinks(t, max, since, u.todo[0]);
    TurnOf(u, max);
  }

  /** An ended run stays ended until it is retried, and a disabled workflow disabled until it is switched on. */
  lemma {:induction false} EndedStaysEnded(s: State, max: int, events: seq<Event>, id: string, w: string)
    requires Possible(s, max, events) && Invariant(s, max)
    ensures w in s.disabled && Switch(w, true) !in events ==> w in Play(s, max, events).disabled
    ensures id in s.runs && s.runs[id].status == Ended && Retry(id) !in events ==>
              id in Play(s, max, events).runs && Play(s, max, events).runs[id].status == Ended
    decreases |events|
  {
    if events != [] {
      StepKeepsInvariant(s, max, events[0]);
      EndedStaysEnded(Step(s, max, events[0]), max, events[1..], id, w);
    }
  }

  // ---- A run that is out of attempts ----

  /** Some event is a sign of life of `id`. */
  ghost predicate Lives(s: State, max: int, events: seq<Event>, id: string)
    requires Possible(s, max, events)
    decreases |events|
  {
    events != [] && (ShowsLife(s, events[0], id) || Lives(Step(s, max, events[0]), max, events[1..], id))
  }

  /** Whatever crashes, restarts and retries follow, a run out of attempts is not resumed until it shows life. */
  lemma {:induction false} ExhaustedIsNotResumed(s: State, max: int, events: seq<Event>, id: string)
    requires Invariant(s, max) && Possible(s, max, events)
    requires id in s.runs && Quarantines(max, s.runs[id].attempts) && !Lives(s, max, events, id)
    ensures ResumesSince(s, max, events, id, 0) == 0
    ensures var t := Play(s, max, events);
            id in t.runs && Quarantines(max, t.runs[id].attempts) && t.runs[id].job == s.runs[id].job
    decreases |events|
  {
    if events != [] {
      StepKeepsInvariant(s, max, events[0]);
      ExhaustedIsNotResumed(Step(s, max, events[0]), max, events[1..], id);
    }
  }

  /** The candidate is a run the guard fails. */
  ghost predicate Doomed(s: State, max: int, c: Candidate) {
    c.id in s.runs && !s.runs[c.id].job && Quarantines(max, c.attempts)
  }

  ghost predicate Listed(s: State, id: string) {
    exists c :: c in s.todo && c.id == id
  }

  /** Every startup that finds such a run incomplete lists it as one to be failed. */
  lemma StartupDooms(s: State, max: int, order: seq<string>, id: string)
    requires Enabled(s, Startup(order)) && id in s.runs && !s.runs[id].job && Incomplete(s.runs[id])
    requires Quarantines(max, s.runs[id].attempts)
    ensures var c := Candidate(id, s.runs[id].attempts);
            var t := Step(s, max, Startup(order));
            c in t.todo && Doomed(t, max, c)
  {
    var i :| 0 <= i < |order| && order[i] == id;
    assert Step(s, max, Startup(order)).todo[i] == Candidate(id, s.runs[id].attempts);
  }

  /** The guard fails a run of the workflow. */
  ghost predicate Fails(s: State, max: int, e: Event, w: string) {
    e.Next? && s.todo != [] && Doomed(s, max, s.todo[0]) && s.runs[s.todo[0].id].workflow == w
  }

  /** How many runs of the workflow the guard fails. */
  ghost function Failures(s: State, max: int, events: seq<Event>, w: string): nat
    requires Possible(s, max, events)
    decreases |events|
  {
    if events == [] then 0
    else (if Fails(s, max, events[0], w) then 1 else 0) + Failures(Step(s, max, events[0]), max, events[1..], w)
  }

  /** How many crashes fall between failing a run of the workflow and disabling it. */
  ghost function Cuts(s: State, max: int, events: seq<Event>, w: string): nat
    requires Possible(s, max, events)
    decreases |events|
  {
    if events == [] then 0
    else (if events[0].Crash? && s.disabling == Some(w) then 1 else 0) + Cuts(Step(s, max, events[0]), max, events[1..], w)
  }

  function Pending(s: State, w: string): nat {
    if s.disabling == Some(w) then 1 else 0
  }

  /**
   Over any startups, crashes and retries, and unless people switch it, a workflow
   is disabled exactly when it was before or the guard failed one of its runs
   without a crash before the flag was written.
   */
  lemma {:induction false} DisabledExactlyWhen(s: State, max: int, events: seq<Event>, w: string)
    requires Possible(s, max, events) && Switch(w, true) !in events && Switch(w, false) !in events
    ensures var t := Play(s, max, events);
            var (failed, lost) := (Failures(s, max, events, w) + Pending(s, w), Cuts(s, max, events, w) + Pending(t, w));
            lost <= failed && (w in t.disabled <==> w in s.disabled || lost < failed)
    decreases |events|
  {
    if events != [] {
      DisabledExactlyWhen(Step(s, max, events[0]), max, events[1..], w);
    }
  }

  /** The process crashes while `id` is still on its list. */
  ghost predicate CutOff(s: State, max: int, events: seq<Event>, id: string)
    requires Possible(s, max, events)
    decreases |events|
  {
    events != [] && ((events[0].Crash? && Listed(s, id)) || CutOff(Step(s, max, events[0]), max, events[1..], id))
  }

  lemma {:induction false} DoomedIsFailed(s: State, max: int, events: seq<Event>, c: Candidate)
    requires Invariant(s, max) && Possible(s, max, events)
    requires c in s.todo && Doomed(s, max, c) && !CutOff(s, max, events, c.id)
    ensures var t := Play(s, max, events); c in t.todo || Failures(s, max, events, s.runs[c.id].workflow) > 0
    ensures Retry(c.id) !in events ==>
              var t := Play(s, max, events); c in t.todo || (c.id in t.runs && t.runs[c.id].status == Ended)
    decreases |events|
  {
    if events != [] {
      StepKeepsInvariant(s, max, events[0]);
      var t := Step(s, max, events[0]);
      assert Listed(s, c.id);
      if c in t.todo {
        DoomedIsFailed(t, max, events[1..], c);
      } else {
        assert s.todo[0] == c && t.runs[c.id].status == Ended;
        EndedStaysEnded(t, max, events[1..], c.id, s.runs[c.id].workflow);
      }
    }
  }

  /**
   A run listed out of attempts, once the startup that listed it got past it: unless
   somebody retries it it has failed, and its workflow is disabled exactly when it
   was before or fewer crashes fell between failing a run of it and disabling it than
   runs of it were failed; without such a crash it is disabled.
   */
  lemma ExhaustedIsQuarantined(s: State, max: int, events: seq<Event>, c: Candidate, w: string)
    requires Invariant(s, max) && Possible(s, max, events)
    requires c in s.todo && Doomed(s, max, c) && w == s.runs[c.id].workflow
    requires Switch(w, true) !in events && Switch(w, false) !in events
    requires !CutOff(s, max, events, c.id) && c !in Play(s, max, events).todo && Play(s, max, events).disabling != Some(w)
    ensures w in Play(s, max, events).disabled <==>
              w in s.disabled || Cuts(s, max, events, w) < Failures(s, max, events, w) + Pending(s, w)
    ensures Cuts(s, max, events, w) == 0 ==> w in Play(s, max, events).disabled
    ensures var t := Play(s, max, events);
            Retry(c.id) !in events ==> c.id in t.runs && t.runs[c.id].status == Ended
  {
    DisabledExactlyWhen(s, max, events, w);
    DoomedIsFailed(s, max, events, c);
  }

  /** While it is not retried, an ended run that is not listed is never listed again. */
  lemma {:induction false} EndedIsNotListed(s: State, max: int, events: seq<Event>, id: string)
    requires Invariant(s, max) && Possible(s, max, events) && Retry(id) !in events
    requires id in s.runs && s.runs[id].status == Ended && !Listed(s, id)
    ensures var t := Play(s, max, events); id in t.runs && t.runs[id].status == Ended && !Listed(t, id)
    decreases |events|
  {
    if events != [] {
      StepKeepsInvariant(s, max, events[0]);
      EndedIsNotListed(Step(s, max, events[0]), max, events[1..], id);
    }
  }

  /**
   After a crash between failing a run and disabling its workflow nothing comes
   back to that run, in any history in which nobody retries it; its workflow is
   disabled exactly when some other run of it is failed and the flag written then.
   */
  lemma CrashWhileDisabling(s: State, max: int, id: string, w: string, events: seq<Event>)
    requires Invariant(s, max)
    requires s.todo != [] && s.todo[0].id == id && Doomed(s, max, s.todo[0]) && w == s.runs[id].workflow
    requires s.begun.None? && s.disabling.None? && w !in s.disabled
    requires Possible(s, max, [Next, Crash] + events) && Retry(id) !in events
    requires Switch(w, true) !in events && Switch(w, false) !in events
    ensures var c := Step(Step(s, max, Next), max, Crash);
            && Possible(c, max, events)
            && var t := Play(c, max, events);
               && id in t.runs && t.runs[id].status == Ended && !Listed(t, id)
               && (w in t.disabled <==> Cuts(c, max, events, w) + Pending(t, w) < Failures(c, max, events, w))
  {
    var all := [Next, Crash] + events;
    assert all[1..][1..] == events;
    StepKeepsInvariant(s, max, Next);
    var c := Step(Step(s, max, Next), max, Crash);
    EndedIsNotListed(c, max, events, id);
    DisabledExactlyWhen(c, max, events, w);
  }

  // ---- All runs together ----

  function Room(r: Run, max: int): nat {
    if r.job || r.attempts >= max then 0 else max - r.attempts
  }

  /** The attempts left over all runs in `ids`. */
  function Slack(ids: seq<string>, runs: map<string, Run>, max: int): nat {
    if ids == [] then 0
    else
      var k := |ids| - 1;
      Slack(ids[..k], runs, max) + if ids[k] in runs then Room(runs[ids[k]], max) else 0
  }

  lemma {:induction false} SlackUpdate(ids: seq<string>, runs: map<string, Run>, max: int, id: string, r: Run)
    requires forall i, j :: 0 <= i < j < |ids| ==> ids[i] != ids[j]
    requires id in runs
    ensures Slack(ids, runs[id := r], max) ==
            Slack(ids, runs, max) + if id in ids then Room(r, max) - Room(runs[id], max) else 0
  {
    if ids != [] {
      var k := |ids| - 1;
      SlackUpdate(ids[..k], runs, max, id, r);
      assert ids == ids[..k] + [ids[k]];
      assert ids[k] !in ids[..k];
    }
  }

  /** There are at most `max` for each. */
  lemma {:induction false} SlackIsAtMost(ids: seq<string>, runs: map<string, Run>, max: int)
    requires max > 0
    ensures Slack(ids, runs, max) <= |ids| * max
  {
    if ids != [] {
      var k := |ids| - 1;
      SlackIsAtMost(ids[..k], runs, max);
      assert |ids| * max == k * max + max;
    }
  }

  /** How often anything is resumed. */
  ghost function ResumeCount(s: State, max: int, events: seq<Event>): nat
    requires Possible(s, max, events)
    decreases |events|
  {
    if events == [] then 0
    else (if events[0].Next? && Resumes(s, max).Some? then 1 else 0) + ResumeCount(Step(s, max, events[0]), max, events[1..])
  }

  /** No step completes, no recovery survives parked, and no run is started. */
  ghost predicate NoLife(events: seq<Event>) {
    forall e :: e in events ==> !e.Progress? && !e.Create? && !(e.Settle? && e.outcome.Reparked?)
  }

  lemma SlackStep(ids: seq<string>, s: State, max: int, e: Event)
    requires max > 0 && Invariant(s, max) && Enabled(s, e)
    requires forall i, j :: 0 <= i < j < |ids| ==> ids[i] != ids[j]
    requires forall id :: id in s.runs <==> id in ids
    requires !e.Progress? && !e.Create? && !(e.Settle? && e.outcome.Reparked?)
    ensures Slack(ids, Step(s, max, e).runs, max) + (if e.Next? && Resumes(s, max).Some? then 1 else 0) <= Slack(ids, s.runs, max)
  {
    hide Slack;
    var t := Step(s, max, e);
    match e
    case Next =>
      var c := s.todo[0];
      if c.id in s.runs {
        assert t.runs == s.runs[c.id := t.runs[c.id]];
        SlackUpdate(ids, s.runs, max, c.id, t.runs[c.id]);
      }
    case Settle(outcome) => SlackUpdate(ids, s.runs, max, s.begun.value, t.runs[s.begun.value]);
    case Park(id) => SlackUpdate(ids, s.runs, max, id, t.runs[id]);
    case Unpark(id) => SlackUpdate(ids, s.runs, max, id, t.runs[id]);
    case End(id) => SlackUpdate(ids, s.runs, max, id, t.runs[id]);
    case Retry(id) => SlackUpdate(ids, s.runs, max, id, t.runs[id]);
    case _ =>
  }

  /**
   Without a sign of life, all resumes over all restarts and retries are bounded
   by the attempts left at the start; each one uses up one of them for good.
   */
  lemma {:induction false} ResumesAreFinite(ids: seq<string>, s: State, max: int, events: seq<Event>)
    requires max > 0 && Invariant(s, max) && Possible(s, max, events) && NoLife(events)
    requires forall i, j :: 0 <= i < j < |ids| ==> ids[i] != ids[j]
    requires forall id :: id in s.runs <==> id in ids
    ensures ResumeCount(s, max, events) + Slack(ids, Play(s, max, events).runs, max) <= Slack(ids, s.runs, max) <= |ids| * max
    decreases |events|
  {
    SlackIsAtMost(ids, s.runs, max);
    if events != [] {
      SlackStep(ids, s, max, events[0]);
      StepKeepsInvariant(s, max, events[0]);
      assert forall e :: e in events[1..] ==> e in events;
      ResumesAreFinite(ids, Step(s, max, events[0]), max, events[1..]);
    }
  }

  // ---- The loop itself ----

  /** The recovery loop of one startup that is not cut short. */
  class Recovery {
    var runs: map<string, Run>
    var disabled: set<string>

    /** The loop body for a candidate that is resumed: the counter is written before anything runs. */
    method BeginRecovery(id: string) returns (ok: bool)
      modifies this`runs
      ensures ok <==> id in old(runs) && Incomplete(old(runs)[id])
      ensures runs == if ok then old(runs)[id := old(runs)[id].(attempts := old(runs)[id].attempts + 1)] else old(runs)
    {
      ok := id in runs && Incomplete(runs[id]);
      if ok {
        runs := runs[id := runs[id].(attempts := runs[id].attempts + 1)];
      }
    }

    method Quarantine(id: string)
      requires id in runs
      modifies this
      ensures runs == old(runs)[id := old(runs)[id].(status := Ended)]
      ensures disabled == old(disabled) + {old(runs)[id].workflow}
    {
      runs := runs[id := runs[id].(status := Ended)];
      disabled := disabled + {runs[id].workflow};
    }

    /** The loop body. */
    method RecoverOne(c: Candidate, max: int, outcome: Outcome)
      requires c.id in runs
      modifies this
      ensures runs == old(runs)[c.id := Recovered(old(runs)[c.id], max, c.attempts, outcome)]
      ensures disabled == old(disabled) + if !old(runs)[c.id].job && Quarantines(max, c.attempts) then {old(runs)[c.id].workflow} else {}
    {
      if runs[c.id].job {
        runs := runs[c.id := runs[c.id].(status := Ended)];
      } else if Quarantines(max, c.attempts) {
        Quarantine(c.id);
      } else {
        var ok := BeginRecovery(c.id);
        if ok {
          runs := runs[c.id := Settled(runs[c.id], outcome)];
        }
      }
    }

    /** `_recover_incomplete_runs` with the outcome of each resumed run given. */
    method RecoverIncompleteRuns(todo: seq<Candidate>, max: int, outcomes: map<string, Outcome>)
      requires forall i, j :: 0 <= i < j < |todo| ==> todo[i].id != todo[j].id
      requires forall c :: c in todo ==> c.id in runs && c.id in outcomes
      modifies this
      ensures runs.Keys == old(runs).Keys && old(disabled) <= disabled
      ensures forall c :: c in todo ==> runs[c.id] == Recovered(old(runs)[c.id], max, c.attempts, outcomes[c.id])
      ensures forall c :: c in todo && !old(runs)[c.id].job && Incomplete(old(runs)[c.id]) ==>
                if max <= 0 || c.attempts < max
                then runs[c.id] == Settled(old(runs)[c.id].(attempts := old(runs)[c.id].attempts + 1), outcomes[c.id])
                else runs[c.id].status == Ended && old(runs)[c.id].workflow in disabled
      ensures forall id :: id in runs && (forall c :: c in todo ==> c.id != id) ==> runs[id] == old(runs)[id]
      ensures forall w :: w in disabled <==> w in old(disabled) || exists c :: c in todo && QuarantinesOf(old(runs), max, c, w)
    {
      for i := 0 to |todo|
        invariant runs.Keys == old(runs).Keys && old(disabled) <= disabled
        invariant forall k :: 0 <= k < i ==>
                    runs[todo[k].id] == Recovered(old(runs)[todo[k].id], max, todo[k].attempts, outcomes[todo[k].id])
        invariant forall id :: id in runs && (forall k :: 0 <= k < i ==> todo[k].id != id) ==> runs[id] == old(runs)[id]
        invariant forall w :: w in disabled <==>
                    w in old(disabled) || exists k :: 0 <= k < i && QuarantinesOf(old(runs), max, todo[k], w)
      {
        hide Recovered;
        var c := todo[i];
        assert c in todo && runs[c.id] == old(runs)[c.id];
        RecoverOne(c, max, outcomes[c.id]);
      }
    }
  }

  /** The candidate is failed by the guard, as a run of workflow `w`. */
  ghost predicate QuarantinesOf(runs: map<string, Run>, max: int, c: Candidate, w: string)
    requires c.id in runs
  {
    !runs[c.id].job && max > 0 && c.attempts >= max && runs[c.id].workflow == w
  }

  /** What the outcome of `_recover_run` leaves stored; a parked run's counter is reset. */
  function Settled(r: Run, outcome: Outcome): Run {
    match outcome
    case Failed => r.(status := Ended)
    case Reparked => if r.status == Waiting then r.(attempts := 0) else r
    case Resumed => r
    case Raised => r
  }

  /** What one startup does to one candidate. */
  function Recovered(r: Run, max: int, attempts: nat, outcome: Outcome): Run {
    if r.job || Quarantines(max, attempts) then r.(status := Ended)
    else if !Incomplete(r) then r
    else Settled(r.(attempts := r.attempts + 1), outcome)
  }

  /** One startup of the loop is what the candidate's own steps of the protocol add up to. */
  lemma LoopFollowsProtocol(s: State, max: int, outcome: Outcome)
    requires s.todo != [] && s.begun.None? && s.disabling.None? && s.todo[0].id in s.runs
    requires outcome.Reparked? ==> s.runs[s.todo[0].id].status == Waiting
    ensures Enabled(s, Next)
    ensures var id := s.todo[0].id;
            var r := s.runs[id];
            var t := Step(s, max, Next);
            && (t.begun.Some? ==> t.disabling.None? && Enabled(t, Settle(outcome)))
            && var u := if t.begun.Some? then Step(t, max, Settle(outcome))
                        else if t.disabling.Some? then Step(t, max, Disable)
                        else t;
               && u.runs == s.runs[id := Recovered(r, max, s.todo[0].attempts, outcome)]
               && u.disabled == s.disabled + (if !r.job && Quarantines(max, s.todo[0].attempts) then {r.workflow} else {})
               && u.begun.None? && u.disabling.None? && u.todo == s.todo[1..]
  {
  }
}
