/**
 Closing approval cases: `decide`, `veto`, `expire`, `abandon`,
 `cancel_open_for_run`, `wait_out_veto` of
 app/application/approval_service.py:421-552.

 Two views.  `Cases` runs each service call as one step over the stored cases.
 `Race` interleaves one `wait_out_veto` with any number of `veto` calls at the
 granularity of single backend operations and clock reads.
 */
module VetoWindow {
  import opened Common

  datatype Status = Pending | Approved | Rejected | Expired | Cancelled

  datatype Source = Undecided | Person | MetaLlm | Timeout | Api

  /** A stored case; a veto deadline is set only when the meta-LLM decided alone. */
  datatype Case = Case(status: Status, source: Source, deadline: Option<real>, run: string, created: real)

  /** What every stored case satisfies, from the moment it is created. */
  ghost predicate WellFormed(c: Case) {
    && (c.deadline.Some? ==> c.source == MetaLlm && c.status in {Approved, Rejected, Cancelled})
    && (c.status == Pending <==> c.source == Undecided)
    && (c.source == Person ==> c.status in {Approved, Rejected})
    && (c.source == MetaLlm ==> c.status in {Approved, Rejected, Cancelled})
  }

  /** `_apply_autonomous_decision`: a window of zero seconds leaves no deadline. */
  function Autonomous(c: Case, approve: bool, now: real, window: int): Case {
    c.(status := if approve then Approved else Rejected, source := MetaLlm,
       deadline := if window > 0 then Some(now + window as real) else None)
  }

  lemma AutonomousIsWellFormed(c: Case, approve: bool, now: real, window: int)
    ensures WellFormed(Autonomous(c, approve, now, window))
    ensures var decided := Autonomous(c, approve, now, window);
            && decided.source == MetaLlm && decided.run == c.run && decided.created == c.created
            && (if approve then decided.status == Approved else decided.status == Rejected)
            && (decided.deadline.Some? <==> window > 0)
            && (decided.deadline.Some? ==> decided.deadline.value - now == window as real > 0.0)
  {
  }

  /** The still-open cases of a run. */
  function OpenOf(cases: map<string, Case>, run: string): set<string> {
    set id | id in cases && cases[id].run == run && cases[id].status == Pending
  }

  ghost predicate IsNewest(cases: map<string, Case>, run: string, id: string) {
    id in OpenOf(cases, run) && forall o :: o in OpenOf(cases, run) ==> cases[o].created <= cases[id].created
  }

  /**
   What cancelling a run's cases has done so far: the closed ones were open, not
   `held`, and no older than any case that was open and held.
   */
  ghost predicate Drained(was: map<string, Case>, held: set<string>, run: string, closed: seq<string>,
                          cases: map<string, Case>, claimed: set<string>)
  {
    && cases.Keys == was.Keys
    && (forall id :: id in closed ==> id in OpenOf(was, run) && id !in held && cases[id].status == Cancelled)
    && (forall id :: id in cases && id !in closed ==> cases[id] == was[id])
    && OpenOf(cases, run) == OpenOf(was, run) - (set id | id in closed)
    && claimed == held + (set id | id in closed)
    && forall id, c :: id in closed && c in OpenOf(was, run) && c in held ==> was[id].created >= was[c].created
  }

  lemma DrainedOneMore(was: map<string, Case>, held: set<string>, run: string, closed: seq<string>,
                       cases: map<string, Case>, claimed: set<string>, id: string)
    requires Drained(was, held, run, closed, cases, claimed) && IsNewest(cases, run, id) && id !in claimed
    ensures var after := cases[id := cases[id].(status := Cancelled, source := Api)];
            && Drained(was, held, run, closed + [id], after, claimed + {id})
            && OpenOf(after, run) == OpenOf(cases, run) - {id}
  {
    var after := cases[id := cases[id].(status := Cancelled, source := Api)];
    assert OpenOf(after, run) == OpenOf(cases, run) - {id};
    assert (set i | i in closed + [id]) == (set i | i in closed) + {id};
  }

  /** Cancelling is done: unless all is closed, some held case is no older than anything left. */
  ghost predicate DrainedDown(was: map<string, Case>, held: set<string>, run: string, closed: seq<string>,
                              cases: map<string, Case>, claimed: set<string>)
  {
    && Drained(was, held, run, closed, cases, claimed)
    && forall id :: id in OpenOf(cases, run) ==>
         exists c :: c in OpenOf(was, run) && c in held && was[id].created <= was[c].created
  }

  /** An open case that nobody holds stays open, and unheld, behind a newer one that somebody does. */
  lemma UntouchedCaseStaysOpen(was: map<string, Case>, held: set<string>, run: string, closed: seq<string>,
                               cases: map<string, Case>, claimed: set<string>, id: string, newer: string)
    requires DrainedDown(was, held, run, closed, cases, claimed)
    requires id in OpenOf(was, run) && id !in held
    requires newer in OpenOf(was, run) && newer in held && was[id].created < was[newer].created
    ensures id in OpenOf(cases, run) && id !in claimed && cases[id] == was[id]
  {
    assert id !in closed;
  }

  lemma NoneHeld(was: map<string, Case>, held: set<string>, run: string, closed: seq<string>,
                 cases: map<string, Case>, claimed: set<string>)
    requires Drained(was, held, run, closed, cases, claimed) && OpenOf(cases, run) == {}
    ensures forall id :: id in OpenOf(was, run) ==> id !in held
  {
    forall id | id in OpenOf(was, run)
      ensures id in closed
    {
      assert id in (set i | i in closed) || id in OpenOf(cases, run);
    }
  }

  /** The case store, with the claims `claim_for_decision` hands out once per pending case. */
  class Cases {
    var cases: map<string, Case>
    var claimed: set<string>

    constructor ()
      ensures Valid() && cases == map[] && claimed == {}
    {
      cases, claimed := map[], {};
    }

    /** A claimed case may still be pending: its claimant has not written yet. */
    ghost predicate Valid()
      reads this
    {
      && (forall id :: id in cases ==> WellFormed(cases[id]))
      && (forall id :: id in claimed ==> id in cases && cases[id].source != MetaLlm)
      && (forall id :: id in cases && cases[id].status != Pending && cases[id].source != MetaLlm ==> id in claimed)
    }

    /** `create` of a case that is pending, or already decided by the meta-LLM. */
    method Create(id: string, c: Case)
      requires Valid() && id !in cases && WellFormed(c) && c.source in {Undecided, MetaLlm}
      modifies this
      ensures Valid()
      ensures cases == old(cases)[id := c] && claimed == old(claimed)
    {
      cases := cases[id := c];
    }

    /** `claim_for_decision` */
    method Claim(id: string) returns (ok: bool)
      requires Valid()
      modifies this`claimed
      ensures Valid()
      ensures ok <==> id in cases && cases[id].status == Pending && id !in old(claimed)
      ensures claimed == if ok then old(claimed) + {id} else old(claimed)
    {
      ok := id in cases && cases[id].status == Pending && id !in claimed;
      if ok {
        claimed := claimed + {id};
      }
    }

    /**
     Claim a case and write how it ended; refused when somebody else has claimed
     or closed it.  Every case closed this way is a claimed one, and a claim is
     given out once, so a case is closed at most once.
     */
    method Close(id: string, status: Status, source: Source) returns (ok: bool)
      requires Valid()
      requires (source == Person && status in {Approved, Rejected}) || (source == Timeout && status == Expired)
               || (source == Api && status == Cancelled)
      modifies this
      ensures Valid()
      ensures ok <==> id in old(cases) && old(cases)[id].status == Pending && id !in old(claimed)
      ensures !ok ==> cases == old(cases) && claimed == old(claimed)
      ensures ok ==> cases == old(cases)[id := old(cases)[id].(status := status, source := source)]
      ensures ok ==> claimed == old(claimed) + {id}
    {
      ok := Claim(id);
      if ok {
        cases := cases[id := cases[id].(status := status, source := source)];
      }
    }

    /** `decide` */
    method Decide(id: string, approved: bool) returns (ok: bool)
      requires Valid()
      modifies this
      ensures Valid()
      ensures ok <==> id in old(cases) && old(cases)[id].status == Pending && id !in old(claimed)
      ensures !ok ==> cases == old(cases)
      ensures ok ==> cases == old(cases)[id := old(cases)[id].(status := if approved then Approved else Rejected, source := Person)]
    {
      ok := Close(id, if approved then Approved else Rejected, Person);
    }

    /** `expire` */
    method Expire(id: string) returns (ok: bool)
      requires Valid()
      modifies this
      ensures Valid()
      ensures ok <==> id in old(cases) && old(cases)[id].status == Pending && id !in old(claimed)
      ensures cases == if ok then old(cases)[id := old(cases)[id].(status := Expired, source := Timeout)] else old(cases)
    {
      ok := Close(id, Expired, Timeout);
    }

    /** `abandon` */
    method Abandon(id: string) returns (ok: bool)
      requires Valid()
      modifies this
      ensures Valid()
      ensures ok <==> id in old(cases) && old(cases)[id].status == Pending && id !in old(claimed)
      ensures ok ==> cases == old(cases)[id := old(cases)[id].(status := Cancelled, source := Api)]
      ensures !ok ==> cases == old(cases)
      ensures claimed == if ok then old(claimed) + {id} else old(claimed)
    {
      ok := Close(id, Cancelled, Api);
    }

    /** `veto`: only a case with a deadline, and only until that deadline has passed. */
    method Veto(id: string, now: real) returns (ok: bool)
      requires Valid()
      modifies this`cases
      ensures Valid()
      ensures ok <==> id in old(cases) && old(cases)[id].deadline.Some? && now <= old(cases)[id].deadline.value
      ensures cases == if ok then old(cases)[id := old(cases)[id].(status := Cancelled)] else old(cases)
      ensures ok ==> old(cases)[id].source == MetaLlm
    {
      ok := id in cases && cases[id].deadline.Some? && now <= cases[id].deadline.value;
      if ok {
        cases := cases[id := cases[id].(status := Cancelled)];
      }
    }

    /** `find_pending_for_run`: the newest still-open case of the run, claimed or not. */
    method FindOpen(run: string) returns (found: Option<string>)
      ensures found.None? <==> OpenOf(cases, run) == {}
      ensures found.Some? ==> IsNewest(cases, run, found.value)
      ensures found.None? <==> forall o :: o in cases && cases[o].run == run ==> cases[o].status != Pending
      ensures found.Some? ==>
                && found.value in cases && cases[found.value].run == run && cases[found.value].status == Pending
                && forall o :: o in cases && cases[o].run == run && cases[o].status == Pending ==>
                     cases[o].created <= cases[found.value].created
    {
      assert forall o :: o in OpenOf(cases, run) <==> o in cases && cases[o].run == run && cases[o].status == Pending;
      var open := OpenOf(cases, run);
      if open == {} {
        return None;
      }
      var newest :| newest in open;
      var rest := open - {newest};
      while rest != {}
        invariant newest in open && rest <= open
        invariant forall id :: id in open && id !in rest ==> cases[id].created <= cases[newest].created
        decreases |rest|
      {
        var id :| id in rest;
        if cases[id].created > cases[newest].created {
          newest := id;
        }
        rest := rest - {id};
      }
      found := Some(newest);
    }

    /**
     `cancel_open_for_run` as one step: the loop works from the newest open case down
     to the first one somebody else holds the claim on.  So no case is left open
     exactly when nobody holds one; otherwise what is left is no newer than a held
     one.  A claim that comes between the look-up and `abandon` stops the loop too.
     */
    method CancelOpenForRun(run: string) returns (closed: seq<string>)
      requires Valid()
      modifies this
      ensures Valid()
      ensures run == "" ==> cases == old(cases) && closed == []
      ensures forall id :: id in closed ==>
                id in old(cases) && old(cases)[id].run == run && old(cases)[id].status == Pending
      ensures forall id :: id in closed ==>
                id in OpenOf(old(cases), run) && id !in old(claimed) && id in cases && cases[id].status == Cancelled
      ensures forall id :: id in old(cases) && id !in closed ==> id in cases && cases[id] == old(cases)[id]
      ensures OpenOf(cases, run) == OpenOf(old(cases), run) - set id | id in closed
      ensures claimed == old(claimed) + set id | id in closed
      ensures run != "" ==> (OpenOf(cases, run) == {} <==> forall id :: id in OpenOf(old(cases), run) ==> id !in old(claimed))
      ensures run != "" ==> DrainedDown(old(cases), old(claimed), run, closed, cases, claimed)
    {
      hide Valid, WellFormed;
      ghost var was, held := cases, claimed;
      closed := [];
      if run == "" {
        return;
      }
      while true
        invariant Valid() && Drained(was, held, run, closed, cases, claimed)
        decreases OpenOf(cases, run)
      {
        hide Drained;
        var found := FindOpen(run);
        if found.None? {
          NoneHeld(was, held, run, closed, cases, claimed);
          break;
        }
        ghost var open, taken := cases, claimed;
        var ok := Abandon(found.value);
        if !ok {
          break;
        }
        DrainedOneMore(was, held, run, closed, open, taken, found.value);
        closed := closed + [found.value];
      }
    }
  }

  // ---- The race between waiting and vetoing ----

  /** Where `wait_out_veto` is. */
  datatype Waiter = Waiting | DeadlineSeen | Returned(status: Status)

  /**
   One autonomously decided case.  `now` is the last clock reading anybody made;
   `passed` are the veto calls that have made their deadline check and not yet
   written.
   */
  datatype Race = Race(now: real, deadline: real, status: Status, waiter: Waiter, passed: set<nat>)

  datatype Event =
    | VetoCheck(who: nat, at: real)   // get, read the clock, compare
    | VetoWrite(who: nat)             // update
    | WaitClock(at: real)             // read the clock, compare
    | WaitPoll                        // get after a sleep
    | WaitFinal                       // the last get

  /** What an event may do; the clock strictly advances. */
  ghost predicate Enabled(r: Race, e: Event) {
    match e
    case VetoCheck(who, at) => at > r.now && who !in r.passed
    case VetoWrite(who) => who in r.passed
    case WaitClock(at) => at > r.now && r.waiter.Waiting?
    case WaitPoll => r.waiter.Waiting?
    case WaitFinal => r.waiter.DeadlineSeen?
  }

  function Step(r: Race, e: Event): Race {
    match e
    case VetoCheck(who, at) => r.(now := at, passed := if at <= r.deadline then r.passed + {who} else r.passed)
    case VetoWrite(who) => r.(status := Cancelled, passed := r.passed - {who})
    case WaitClock(at) => r.(now := at, waiter := if at >= r.deadline then DeadlineSeen else r.waiter)
    case WaitPoll => if r.status == Cancelled then r.(waiter := Returned(Cancelled)) else r
    case WaitFinal => r.(waiter := Returned(r.status))
  }

  ghost predicate Possible(r: Race, events: seq<Event>)
    decreases |events|
  {
    if events == [] then true
    else Enabled(r, events[0]) && Possible(Step(r, events[0]), events[1..])
  }

  function Play(r: Race, events: seq<Event>): Race
    decreases |events|
  {
    if events == [] then r else Play(Step(r, events[0]), events[1..])
  }

  /** A veto passes exactly until the deadline, its write cancels, and the next poll of the wait returns that. */
  lemma VetoCountsUntilDeadline(r: Race, who: nat, at: real)
    requires Enabled(r, VetoCheck(who, at))
    ensures var checked := Step(r, VetoCheck(who, at));
            var vetoed := Step(checked, VetoWrite(who));
            && checked == r.(now := at, passed := checked.passed)
            && checked.passed == (if at <= r.deadline then r.passed + {who} else r.passed)
            && vetoed == checked.(status := Cancelled, passed := r.passed)
            && Step(vetoed, WaitPoll).waiter == Returned(Cancelled)
  {
  }

  /** The wait sees the deadline exactly from then on, and until then only a cancellation ends it. */
  lemma WaitSeesDeadline(r: Race, at: real)
    requires Enabled(r, WaitClock(at))
    ensures var looked := Step(r, WaitClock(at));
            && looked == r.(now := at, waiter := looked.waiter)
            && (looked.waiter == if at < r.deadline then Waiting else DeadlineSeen)
            && (r.status != Cancelled ==> Step(r, WaitPoll) == r)
            && Step(looked, WaitFinal) == looked.(waiter := Returned(r.status))
  {
  }

  ghost predicate Started(r: Race) {
    r.waiter.Waiting? && r.passed == {} && r.status in {Approved, Rejected}
  }

  /** The deadline has been seen to pass, or nobody has looked. */
  ghost predicate RaceInvariant(r: Race) {
    && (!r.waiter.Waiting? && r.waiter != Returned(Cancelled) ==> r.now >= r.deadline)
    && (r.waiter == Returned(Cancelled) ==> r.status == Cancelled)
  }

  lemma {:induction false} InvariantHolds(r: Race, events: seq<Event>)
    requires RaceInvariant(r) && Possible(r, events)
    ensures RaceInvariant(Play(r, events))
    decreases |events|
  {
    if events != [] {
      InvariantHolds(Step(r, events[0]), events[1..]);
    }
  }

  /** Once cancelled, always cancelled: whoever returns afterwards returns `Cancelled`. */
  lemma {:induction false} CancelledStays(r: Race, events: seq<Event>)
    requires Possible(r, events) && r.status == Cancelled
    ensures Play(r, events).status == Cancelled
    ensures !r.waiter.Returned? && Play(r, events).waiter.Returned? ==> Play(r, events).waiter == Returned(Cancelled)
    ensures r.waiter.Returned? ==> Play(r, events).waiter == r.waiter
    decreases |events|
  {
    if events != [] {
      CancelledStays(Step(r, events[0]), events[1..]);
    }
  }

  /** After the deadline no further veto passes its check, and without a pending write nothing changes. */
  lemma {:induction false} NothingPassesLate(r: Race, events: seq<Event>)
    requires Possible(r, events) && r.now >= r.deadline
    ensures Play(r, events).passed <= r.passed
    ensures r.passed == {} ==> Play(r, events).status == r.status
    decreases |events|
  {
    if events != [] {
      NothingPassesLate(Step(r, events[0]), events[1..]);
    }
  }

  /**
   A veto that has written before the wait hands the case back is respected: the
   wait returns it as cancelled.
   */
  lemma WrittenVetoIsRespected(r: Race, before: seq<Event>, after: seq<Event>)
    requires Started(r) && Possible(r, before) && Possible(Play(r, before), after)
    requires Play(r, before).status == Cancelled && !Play(r, before).waiter.Returned?
    requires Play(Play(r, before), after).waiter.Returned?
    ensures Play(Play(r, before), after).waiter == Returned(Cancelled)
  {
    CancelledStays(Play(r, before), after);
  }

  /** No continuation changes the stored status. */
  ghost predicate IsFinal(r: Race) {
    forall after {:trigger Possible(r, after)} :: Possible(r, after) ==> Play(r, after).status == r.status
  }

  /**
   Once the wait has handed back a standing decision, it can still be cancelled
   exactly when some veto had passed its deadline check and not yet written.
   */
  lemma ReturnedIsFinalExactlyWhenNoVetoPending(r: Race, before: seq<Event>)
    requires Started(r) && Possible(r, before)
    requires Play(r, before).waiter.Returned? && Play(r, before).waiter.status != Cancelled
    requires Play(r, before).status != Cancelled
    ensures IsFinal(Play(r, before)) <==> Play(r, before).passed == {}
  {
    var now := Play(r, before);
    InvariantHolds(r, before);
    if now.passed == {} {
      forall after | Possible(now, after)
        ensures Play(now, after).status == now.status
      {
        NothingPassesLate(now, after);
      }
    } else {
      var who :| who in now.passed;
      var after := [VetoWrite(who)];
      assert Step(now, after[0]).status == Cancelled;
      assert after[1..] == [];
      assert Possible(Step(now, after[0]), after[1..]);
      assert Possible(now, after);
      assert Play(now, after) == Play(Step(now, after[0]), after[1..]) == Step(now, after[0]);
      assert Play(now, after).status == Cancelled;
    }
  }

  /** The interleaving: the veto looks in time, the wait returns `Approved`, and then the veto writes. */
  lemma PendingVetoCanLandLate()
    ensures var r := Race(0.0, 60.0, Approved, Waiting, {});
            var events := [VetoCheck(1, 59.0), WaitClock(60.0), WaitFinal, VetoWrite(1)];
            && Started(r) && Possible(r, events)
            && Play(r, events).waiter == Returned(Approved) && Play(r, events).status == Cancelled
  {
    var r0 := Race(0.0, 60.0, Approved, Waiting, {});
    var events := [VetoCheck(1, 59.0), WaitClock(60.0), WaitFinal, VetoWrite(1)];
    var r1 := Step(r0, events[0]);
    var r2 := Step(r1, events[1]);
    var r3 := Step(r2, events[2]);
    var r4 := Step(r3, events[3]);
    assert events[1..][1..][1..][1..] == [];
    assert Possible(r3, events[1..][1..][1..]) && Play(r3, events[1..][1..][1..]) == r4;
    assert Possible(r2, events[1..][1..]) && Play(r2, events[1..][1..]) == r4;
    assert Possible(r1, events[1..]) && Play(r1, events[1..]) == r4;
  }

  /** Every veto runs from its check to its write with nothing in between. */
  ghost predicate AtomicVetoes(r: Race, events: seq<Event>)
    decreases |events|
  {
    events == [] ||
    match events[0]
    case VetoCheck(who, at) =>
      if at <= r.deadline then
        |events| > 1 && events[1] == VetoWrite(who) && AtomicVetoes(Step(Step(r, events[0]), events[1]), events[2..])
      else AtomicVetoes(Step(r, events[0]), events[1..])
    case VetoWrite(_) => false
    case _ => AtomicVetoes(Step(r, events[0]), events[1..])
  }

  /** Nothing is pending, and what the wait handed back is what is stored. */
  ghost predicate Settled(r: Race) {
    && r.passed == {}
    && (r.waiter.DeadlineSeen? ==> r.now >= r.deadline)
    && (r.waiter.Returned? && r.waiter.status != Cancelled ==> r.now >= r.deadline && r.status == r.waiter.status)
  }

  lemma {:induction false} AtomicVetoesSettle(r: Race, events: seq<Event>)
    requires AtomicVetoes(r, events) && Possible(r, events) && Settled(r)
    ensures Settled(Play(r, events))
    decreases |events|
  {
    if events != [] {
      var next := Step(r, events[0]);
      if events[0].VetoCheck? && events[0].at <= r.deadline {
        assert events[1..][1..] == events[2..] && events[1..][0] == events[1];
        assert Play(next, events[1..]) == Play(Step(next, events[1]), events[2..]);
        AtomicVetoesSettle(Step(next, events[1]), events[2..]);
      } else {
        AtomicVetoesSettle(next, events[1..]);
      }
    }
  }

  /** With atomic vetoes, a decision the wait hands back is never cancelled, before or after. */
  lemma HandedBackIsFinal(r: Race, before: seq<Event>, after: seq<Event>)
    requires Started(r) && Possible(r, before) && AtomicVetoes(r, before)
    requires Play(r, before).waiter.Returned? && Play(r, before).waiter.status != Cancelled
    requires Possible(Play(r, before), after)
    ensures Play(r, before).status == Play(r, before).waiter.status
    ensures Play(Play(r, before), after).status == Play(r, before).status
  {
    AtomicVetoesSettle(r, before);
    NothingPassesLate(Play(r, before), after);
  }
}
