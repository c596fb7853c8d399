/**
 Runner enrollment by number matching: `EnrollmentService` of
 app/application/runners.py:106-233, interleaved at its await points.

 Every call is cut into the steps between two awaits: reading and checking the
 enrollment, the conditional `transition_enrollment`, and the writes that follow
 a won transition.  sha256 is taken to be injective, so codes and tokens stand
 for their hashes.
 */
module Enrollment {
  import opened Common

  datatype Status = Pending | Approved | Denied | Consumed

  /** Which call won the approval, and for which runner. */
  datatype Approval = Approval(winner: nat, runner: string)

  /**
   A stored request.  `present` turns false when it is cleaned up after expiry;
   `approval` and `claim` record which calls won its two transitions.
   */
  datatype Request = Request(status: Status, code: string, token: string, expires: int, present: bool,
                             approval: Option<Approval>, claim: Option<nat>)

  /** A call: what it has checked or won and does next, or how it ended. */
  datatype Call =
    | Approving(request: string, runner: string, code: string)    // checked; transition next
    | Saving(request: string, runner: string)                     // won; save_runner next
    | Saved(request: string, runner: string)
    | Denying(request: string)                                    // checked; transition next
    | Polling(request: string, runner: string, token: string)     // saw "approved"; transition next
    | Fetching(request: string, runner: string, token: string)    // won; get_runner next
    | Minting(request: string, runner: string, token: string)     // found the runner; write the secret next
    | HandedOut(request: string, runner: string, token: string)   // the credential went out
    | Over

  /** Request and call ids are never reused, so finished calls stay on record. */
  datatype State = State(requests: map<string, Request>, runners: set<string>, calls: map<nat, Call>)

  const EMPTY := State(map[], {}, map[])

  datatype Event =
    | Create(id: string, code: string, token: string, expires: int)
    | ApproveCheck(call: nat, id: string, code: string, runner: string, now: int)
    | DenyCheck(call: nat, id: string, code: string, now: int)
    | PollCheck(call: nat, id: string, token: string)
    | Continue(call: nat)
    | DropExpired(id: string)
    | DeleteRunner(runner: string)

  predicate Enabled(s: State, e: Event) {
    match e
    case Create(id, _, _, _) => id !in s.requests
    case ApproveCheck(call, _, _, _, _) => call !in s.calls
    case DenyCheck(call, _, _, _) => call !in s.calls
    case PollCheck(call, _, _) => call !in s.calls
    case Continue(call) => call in s.calls
    case DropExpired(id) => id in s.requests
    case DeleteRunner(_) => true
  }

  /** `_pending`: the code only selects a request that is still open. */
  predicate MatchesPending(s: State, id: string, code: string, now: int) {
    && id in s.requests
    && s.requests[id].present
    && s.requests[id].status == Pending
    && s.requests[id].expires > now
    && s.requests[id].code == code
  }

  /** `transition_enrollment` succeeds only while the status still is `from`. */
  predicate CanMove(s: State, id: string, from: Status) {
    id in s.requests && s.requests[id].present && s.requests[id].status == from
  }

  /** What a new call turns into after its first read. */
  function FirstRead(s: State, e: Event): Call
    requires e.ApproveCheck? || e.DenyCheck? || e.PollCheck?
  {
    match e
    case ApproveCheck(call, id, code, runner, now) => if MatchesPending(s, id, code, now) then Approving(id, runner, code) else Over
    case DenyCheck(call, id, code, now) => if MatchesPending(s, id, code, now) then Denying(id) else Over
    case PollCheck(call, id, token) =>
      if CanMove(s, id, Approved) && token != "" && s.requests[id].token == token && s.requests[id].approval.Some?
      then Polling(id, s.requests[id].approval.value.runner, token)
      else Over
  }

  function Step(s: State, e: Event): State
    requires Enabled(s, e)
  {
    match e
    case Create(id, code, token, expires) =>
      s.(requests := s.requests[id := Request(Pending, code, token, expires, true, None, None)])
    case Continue(call) => Advance(s, call)
    case DropExpired(id) => s.(requests := s.requests[id := s.requests[id].(present := false)])
    case DeleteRunner(runner) => s.(runners := s.runners - {runner})
    case _ => s.(calls := s.calls[e.call := FirstRead(s, e)])
  }

  /** What a call turns into when it takes its next step. */
  function NextCall(s: State, call: nat): Call
    requires call in s.calls
  {
    match s.calls[call]
    case Approving(id, runner, code) => if CanMove(s, id, Pending) then Saving(id, runner) else Over
    case Saving(id, runner) => Saved(id, runner)
    case Polling(id, runner, token) => if CanMove(s, id, Approved) then Fetching(id, runner, token) else Over
    case Fetching(id, runner, token) => if runner in s.runners then Minting(id, runner, token) else Over
    case Minting(id, runner, token) => HandedOut(id, runner, token)
    case Denying(_) => Over
    case ended => ended
  }

  /** What the next step of a call does to its request. */
  function NextRequest(s: State, call: nat, q: Request): Request
    requires call in s.calls
  {
    match s.calls[call]
    case Approving(id, runner, code) => q.(status := Approved, approval := Some(Approval(call, runner)))
    case Denying(id) => q.(status := Denied)
    case Polling(id, runner, token) => q.(status := Consumed, claim := Some(call))
    case _ => q
  }

  /** The next step of a call in progress. */
  function Advance(s: State, call: nat): State
    requires call in s.calls
  {
    var c := s.calls[call];
    var wins := ((c.Approving? || c.Denying?) && CanMove(s, c.request, Pending)) || (c.Polling? && CanMove(s, c.request, Approved));
    State(if wins then s.requests[c.request := NextRequest(s, call, s.requests[c.request])] else s.requests,
          if c.Saving? then s.runners + {c.runner} else s.runners,
          s.calls[call := NextCall(s, call)])
  }

  ghost predicate Possible(s: State, events: seq<Event>)
    decreases |events|
  {
    events == [] || (Enabled(s, events[0]) && Possible(Step(s, events[0]), events[1..]))
  }

  ghost function Play(s: State, events: seq<Event>): State
    requires Possible(s, events)
    decreases |events|
  {
    if events == [] then s else Play(Step(s, events[0]), events[1..])
  }

  // ---- What always holds ----

  /** The status tells which transitions have been won. */
  predicate RequestOk(q: Request) {
    match q.status
    case Pending => q.approval.None? && q.claim.None?
    case Denied => q.approval.None? && q.claim.None?
    case Approved => q.approval.Some? && q.claim.None?
    case Consumed => q.approval.Some? && q.claim.Some?
  }

  /** A call knows the request's code or token, and past a transition it is the one that won it. */
  predicate CallOk(c: Call, call: nat, q: Request) {
    match c
    case Approving(_, runner, code) => code == q.code
    case Saving(_, runner) => q.approval == Some(Approval(call, runner))
    case Saved(_, runner) => q.approval == Some(Approval(call, runner))
    case Polling(_, runner, token) => q.approval.Some? && q.approval.value.runner == runner && token == q.token
    case Fetching(_, runner, token) => q.approval.Some? && q.approval.value.runner == runner && token == q.token && q.claim == Some(call)
    case Minting(_, runner, token) => q.approval.Some? && q.approval.value.runner == runner && token == q.token && q.claim == Some(call)
    case HandedOut(_, runner, token) => q.approval.Some? && q.approval.value.runner == runner && token == q.token && q.claim == Some(call)
    case Denying(_) => true
    case Over => true
  }

  ghost predicate Invariant(s: State) {
    && (forall id :: id in s.requests ==> RequestOk(s.requests[id]))
    && (forall c :: c in s.calls && !s.calls[c].Over? ==>
          s.calls[c].request in s.requests && CallOk(s.calls[c], c, s.requests[s.calls[c].request]))
  }

  /** How a request may change: what has been won stays won, and by whom. */
  predicate Evolves(q: Request, q': Request) {
    && q'.code == q.code && q'.token == q.token && q'.expires == q.expires
    && (q.approval.Some? ==> q'.approval == q.approval)
    && (q.claim.Some? ==> q'.claim == q.claim)
    && (q.status in {Denied, Consumed} ==> q'.status == q.status)
    && (!q.present ==> !q'.present)
  }

  lemma CallOkSurvives(c: Call, call: nat, q: Request, q': Request)
    requires Evolves(q, q') && CallOk(c, call, q)
    ensures CallOk(c, call, q')
  {
  }

  /** Requests only evolve. */
  lemma RequestsEvolve(s: State, e: Event, id: string)
    requires Invariant(s) && Enabled(s, e) && id in s.requests
    ensures id in Step(s, e).requests && Evolves(s.requests[id], Step(s, e).requests[id])
    ensures RequestOk(Step(s, e).requests[id])
  {
    if e.Continue? {
      var c := s.calls[e.call];
      assert RequestOk(s.requests[id]);
    }
  }

  /** The call that moves is still accounted for. */
  lemma MovedCallOk(s: State, call: nat)
    requires Invariant(s) && call in s.calls
    ensures var t := Advance(s, call);
            !t.calls[call].Over? ==>
              t.calls[call].request in t.requests && CallOk(t.calls[call], call, t.requests[t.calls[call].request])
  {
  }

  lemma StepKeepsInvariant(s: State, e: Event)
    requires Invariant(s) && Enabled(s, e)
    ensures Invariant(Step(s, e))
  {
    hide RequestOk, CallOk, Evolves;
    var t := Step(s, e);
    forall id | id in t.requests
      ensures RequestOk(t.requests[id])
    {
      if id in s.requests {
        RequestsEvolve(s, e, id);
      } else {
        NewRequestOk(s, e);
      }
    }
    forall c | c in t.calls && !t.calls[c].Over?
      ensures t.calls[c].request in t.requests && CallOk(t.calls[c], c, t.requests[t.calls[c].request])
    {
      if c in s.calls && t.calls[c] == s.calls[c] {
        var id := s.calls[c].request;
        RequestsEvolve(s, e, id);
        CallOkSurvives(s.calls[c], c, s.requests[id], t.requests[id]);
      } else if e.Continue? {
        MovedCallOk(s, e.call);
      } else {
        NewCallOk(s, e);
      }
    }
  }

  lemma NewRequestOk(s: State, e: Event)
    requires Enabled(s, e)
    ensures e.Create? ==> RequestOk(Step(s, e).requests[e.id])
  {
  }

  lemma NewCallOk(s: State, e: Event)
    requires Enabled(s, e) && (e.ApproveCheck? || e.DenyCheck? || e.PollCheck?)
    ensures var c := FirstRead(s, e);
            !c.Over? ==> c.request in s.requests && CallOk(c, e.call, s.requests[c.request])
  {
  }

  lemma {:induction false} PlayKeepsInvariant(s: State, events: seq<Event>)
    requires Invariant(s) && Possible(s, events)
    ensures Invariant(Play(s, events))
    decreases |events|
  {
    if events != [] {
      StepKeepsInvariant(s, events[0]);
      PlayKeepsInvariant(Step(s, events[0]), events[1..]);
    }
  }

  // ---- The promises ----

  /** Whatever the interleaving, a request leads to at most one saved runner. */
  lemma OneRunnerPerRequest(events: seq<Event>, c: nat, d: nat)
    requires Possible(EMPTY, events)
    ensures var calls := Play(EMPTY, events).calls;
            c in calls && d in calls && calls[c].Saved? && calls[d].Saved? && calls[c].request == calls[d].request ==> c == d
  {
    PlayKeepsInvariant(EMPTY, events);
  }

  /** At most one credential per request. */
  lemma OneCredentialPerRequest(events: seq<Event>, c: nat, d: nat)
    requires Possible(EMPTY, events)
    ensures var calls := Play(EMPTY, events).calls;
            c in calls && d in calls && calls[c].HandedOut? && calls[d].HandedOut? && calls[c].request == calls[d].request ==> c == d
  {
    PlayKeepsInvariant(EMPTY, events);
  }

  /** A credential goes only to a holder of the poll token, for the runner an approval was won with. */
  lemma CredentialIsEarned(events: seq<Event>, c: nat)
    requires Possible(EMPTY, events)
    requires var calls := Play(EMPTY, events).calls; c in calls && calls[c].HandedOut?
    ensures var s := Play(EMPTY, events);
            var k := s.calls[c];
            && k.request in s.requests
            && var q := s.requests[k.request];
               q.status == Consumed && k.token == q.token && q.approval.Some? && q.approval.value.runner == k.runner
  {
    PlayKeepsInvariant(EMPTY, events);
    assert RequestOk(Play(EMPTY, events).requests[Play(EMPTY, events).calls[c].request]);
  }

  /** Only a call that presented the request's own code wins its approval. */
  lemma ApprovalNeedsTheCode(s: State, e: Event, id: string)
    requires Invariant(s) && Enabled(s, e) && id in s.requests
    requires s.requests[id].approval.None? && Step(s, e).requests[id].approval.Some?
    ensures e.Continue? && s.calls[e.call].Approving? && s.calls[e.call].code == s.requests[id].code
  {
  }

  /** What any step does to a request, and to the stored runners. */
  lemma WhatBecomesOf(s: State, e: Event, id: string)
    requires Invariant(s) && Enabled(s, e) && id in s.requests
    ensures id in Step(s, e).requests
    ensures var q, t := s.requests[id], Step(s, e);
            var moves := e.Continue? && q.present && !s.calls[e.call].Over? && s.calls[e.call].request == id;
            && t.requests[id].present == (q.present && e != DropExpired(id))
            && t.requests[id].status ==
               (if moves && s.calls[e.call].Approving? && q.status == Pending then Approved
                else if moves && s.calls[e.call].Denying? && q.status == Pending then Denied
                else if moves && s.calls[e.call].Polling? && q.status == Approved then Consumed
                else q.status)
            && t.runners ==
               if e.DeleteRunner? then s.runners - {e.runner}
               else if e.Continue? && s.calls[e.call].Saving? then s.runners + {s.calls[e.call].runner}
               else s.runners
  {
    hide RequestOk, CallOk;
  }

  /** Every attempt to approve `id` comes with another code, or when the request has expired. */
  ghost predicate NobodyInTime(events: seq<Event>, id: string, q: Request) {
    forall e :: e in events && e.ApproveCheck? && e.id == id ==> e.code != q.code || e.now >= q.expires
  }

  ghost predicate NobodyApproving(s: State, id: string) {
    forall c :: c in s.calls && s.calls[c].Approving? ==> s.calls[c].request != id
  }

  /** A request is approved only if somebody had its code before it expired; otherwise it yields no credential, under any interleaving. */
  lemma {:induction false} ApprovedOnlyInTime(s: State, events: seq<Event>, id: string)
    requires Invariant(s) && Possible(s, events) && id in s.requests && s.requests[id].approval.None?
    requires NobodyApproving(s, id) && NobodyInTime(events, id, s.requests[id])
    ensures var t := Play(s, events);
            && id in t.requests && t.requests[id].approval.None?
            && forall c :: c in t.calls && t.calls[c].HandedOut? ==> t.calls[c].request != id
    decreases |events|
  {
    hide RequestOk, CallOk;
    if events != [] {
      var t := Step(s, events[0]);
      StepKeepsInvariant(s, events[0]);
      RequestsEvolve(s, events[0], id);
      StillNobody(s, events[0], id);
      assert forall e :: e in events[1..] ==> e in events;
      ApprovedOnlyInTime(t, events[1..], id);
    } else {
      NothingHandedOut(s, id);
    }
  }

  lemma StillNobody(s: State, e: Event, id: string)
    requires Invariant(s) && Enabled(s, e) && id in s.requests && s.requests[id].approval.None?
    requires NobodyApproving(s, id) && NobodyInTime([e], id, s.requests[id])
    ensures NobodyApproving(Step(s, e), id)
    ensures id in Step(s, e).requests && Step(s, e).requests[id].approval.None?
  {
    assert e in [e];
  }

  lemma NothingHandedOut(s: State, id: string)
    requires Invariant(s) && id in s.requests && s.requests[id].approval.None?
    ensures forall c :: c in s.calls && s.calls[c].HandedOut? ==> s.calls[c].request != id
  {
  }

  /** What was won stays won, and a denied, consumed or removed request stays that way. */
  lemma {:induction false} RequestsOnlyEvolve(s: State, events: seq<Event>, id: string)
    requires Invariant(s) && Possible(s, events) && id in s.requests
    ensures id in Play(s, events).requests && Evolves(s.requests[id], Play(s, events).requests[id])
    decreases |events|
  {
    hide RequestOk, CallOk;
    if events != [] {
      RequestsEvolve(s, events[0], id);
      StepKeepsInvariant(s, events[0]);
      RequestsOnlyEvolve(Step(s, events[0]), events[1..], id);
    }
  }

  /** A denied request never yields a credential, then or later. */
  lemma DeniedYieldsNothing(s: State, events: seq<Event>, id: string, c: nat)
    requires Invariant(s) && Possible(s, events)
    requires id in s.requests && s.requests[id].status == Denied
    ensures var calls := Play(s, events).calls; c in calls && calls[c].HandedOut? ==> calls[c].request != id
  {
    PlayKeepsInvariant(s, events);
    RequestsOnlyEvolve(s, events, id);
    assert RequestOk(Play(s, events).requests[id]);
  }

  // ---- The window between winning an approval and saving its runner ----

  /**
   Once a poll has won, it hands out the credential exactly when the runner is
   stored at its read: a reading of its last two steps.
   */
  lemma PollYieldsExactlyWhenRunnerStored(s: State, call: nat)
    requires call in s.calls && s.calls[call].Fetching?
    ensures Advance(Advance(s, call), call).calls[call].HandedOut? <==> s.calls[call].runner in s.runners
  {
  }

  /**
   A poll that comes between the approval's transition and its `save_runner`
   uses the request up and gets nothing: the runner exists, without a credential.
   */
  lemma EarlyPollLosesTheCredential(s: State, approver: nat, poll: nat)
    requires Invariant(s) && approver in s.calls && s.calls[approver].Saving? && poll !in s.calls
    requires var q := s.requests[s.calls[approver].request]; q.present && q.status == Approved && q.token != ""
    requires s.calls[approver].runner !in s.runners
    ensures var id, runner := s.calls[approver].request, s.calls[approver].runner;
            var polled := Step(s, PollCheck(poll, id, s.requests[id].token));
            var fetched := Step(Step(polled, Continue(poll)), Continue(poll));
            var t := Step(fetched, Continue(approver));
            && id in t.requests && t.requests[id].status == Consumed && runner in t.runners
            && poll in t.calls && t.calls[poll] == Over && approver in t.calls && t.calls[approver].Saved?
  {
    var id, runner := s.calls[approver].request, s.calls[approver].runner;
    assert CallOk(s.calls[approver], approver, s.requests[id]);
    var polled := Step(s, PollCheck(poll, id, s.requests[id].token));
    assert polled.calls[poll] == Polling(id, runner, s.requests[id].token);
    var won := Step(polled, Continue(poll));
    assert won.calls[poll].Fetching? && won.requests[id].status == Consumed;
    var fetched := Step(won, Continue(poll));
    assert fetched.calls[poll] == Over && fetched.calls[approver] == Saving(id, runner);
  }

  /** Such a state is reached: a request is created, and an approval checks it and wins its transition. */
  lemma EarlyPollCanHappen(id: string, code: string, token: string, expires: int, runner: string, approver: nat, now: int)
    requires token != "" && now < expires
    ensures var created := Step(EMPTY, Create(id, code, token, expires));
            var checked := Step(created, ApproveCheck(approver, id, code, runner, now));
            var s := Step(checked, Continue(approver));
            && Invariant(s) && approver in s.calls && s.calls[approver] == Saving(id, runner) && runner !in s.runners
            && id in s.requests && s.requests[id].present && s.requests[id].status == Approved && s.requests[id].token == token
  {
    var created := Step(EMPTY, Create(id, code, token, expires));
    var checked := Step(created, ApproveCheck(approver, id, code, runner, now));
    assert MatchesPending(created, id, code, now);
    assert checked.calls[approver] == Approving(id, runner, code);
    StepKeepsInvariant(EMPTY, Create(id, code, token, expires));
    StepKeepsInvariant(created, ApproveCheck(approver, id, code, runner, now));
    StepKeepsInvariant(checked, Continue(approver));
  }

  // ---- The service, one call at a time ----

  /** What a caller is told. */
  datatype Reply = Accepted | NotFound | Conflict | Gone | StillPending | Expired | Refused | Credential(runner: string)

  /** A call that nothing interrupts: its first read and the steps it goes on with. */
  function Alone(s: State, first: Event): State
    requires Enabled(s, first) && (first.ApproveCheck? || first.DenyCheck? || first.PollCheck?)
  {
    Advance(Advance(Advance(Step(s, first), first.call), first.call), first.call)
  }

  class EnrollmentService {
    var requests: map<string, Request>
    var runners: set<string>

    /** `transition_enrollment` by call 0: from `Pending` or `Approved`, only while that still is the status. */
    method Transition(id: string, from: Status, to: Request) returns (ok: bool)
      modifies this`requests
      ensures ok <==> id in old(requests) && old(requests)[id].present && old(requests)[id].status == from
      ensures requests == if ok then old(requests)[id := to] else old(requests)
    {
      ok := id in requests && requests[id].present && requests[id].status == from;
      if ok {
        requests := requests[id := to];
      }
    }

    /** `_pending` */
    method FindPending(id: string, code: string, now: int) returns (found: bool)
      ensures found <==> MatchesPending(State(requests, runners, map[]), id, code, now)
    {
      if id !in requests || !requests[id].present {
        return false;
      }
      var q := requests[id];
      found := !(q.status != Pending || q.expires <= now || q.code != code);
    }

    method Approve(id: string, code: string, runner: string, now: int) returns (r: Reply)
      modifies this
      ensures var t := Alone(State(old(requests), old(runners), map[]), ApproveCheck(0, id, code, runner, now));
              requests == t.requests && runners == t.runners && (r.Accepted? <==> t.calls[0].Saved?)
      ensures r.Accepted? <==>
              id in old(requests) && old(requests)[id].present && old(requests)[id].status == Pending
              && now < old(requests)[id].expires && code == old(requests)[id].code
      ensures r.Accepted? ==>
              && requests == old(requests)[id := old(requests)[id].(status := Approved, approval := Some(Approval(0, runner)))]
              && runners == old(runners) + {runner}
      ensures !r.Accepted? ==> r.NotFound? && requests == old(requests) && runners == old(runners)
    {
      var found := FindPending(id, code, now);
      if !found {
        return NotFound;
      }
      var ok := Transition(id, Pending, requests[id].(status := Approved, approval := Some(Approval(0, runner))));
      if !ok {
        return Conflict;
      }
      runners := runners + {runner};
      r := Accepted;
    }

    method Deny(id: string, code: string, now: int) returns (r: Reply)
      modifies this`requests
      ensures var t := Alone(State(old(requests), runners, map[]), DenyCheck(0, id, code, now));
              requests == t.requests && runners == t.runners
      ensures r.Accepted? <==>
              id in old(requests) && old(requests)[id].present && old(requests)[id].status == Pending
              && now < old(requests)[id].expires && code == old(requests)[id].code
      ensures r.Accepted? ==> requests == old(requests)[id := old(requests)[id].(status := Denied)]
      ensures !r.Accepted? ==> r.NotFound? && requests == old(requests)
    {
      var found := FindPending(id, code, now);
      if !found {
        return NotFound;
      }
      var ok := Transition(id, Pending, requests[id].(status := Denied));
      r := Accepted;
    }

    /** A credential is handed out exactly once: the poll that gets it is the last one that can. */
    method Poll(id: string, token: string, now: int) returns (r: Reply)
      requires id in requests && requests[id].status == Approved ==> requests[id].approval.Some?
      modifies this`requests
      ensures var t := Alone(State(old(requests), runners, map[]), PollCheck(0, id, token));
              requests == t.requests && runners == t.runners
              && (r.Credential? <==> t.calls[0].HandedOut?) && (r.Credential? ==> r.runner == t.calls[0].runner)
      ensures id !in old(requests) || !old(requests)[id].present || token == "" || token != old(requests)[id].token ==>
                r == NotFound && requests == old(requests)
      ensures r != NotFound ==>
                id in old(requests) && id in requests &&
                var q := old(requests)[id];
                && q.present && token == q.token
                && (q.status == Pending ==> r == if now < q.expires then StillPending else Expired)
                && (q.status == Denied ==> r == Refused)
                && (q.status == Consumed ==> r == Gone)
                && (q.status != Approved ==> requests == old(requests))
                && (q.status == Approved ==>
                      && requests[id].status == Consumed
                      && r == if q.approval.value.runner in runners then Credential(q.approval.value.runner) else Refused)
    {
      if id !in requests || !requests[id].present || token == "" || requests[id].token != token {
        return NotFound;
      }
      var q := requests[id];
      match q.status
      case Consumed => r := Gone;
      case Denied => r := Refused;
      case Pending => r := if q.expires <= now then Expired else StillPending;
      case Approved =>
        var ok := Transition(id, Approved, q.(status := Consumed, claim := Some(0)));
        if q.approval.value.runner in runners {
          r := Credential(q.approval.value.runner);
        } else {
          r := Refused;
        }
    }
  }
}
