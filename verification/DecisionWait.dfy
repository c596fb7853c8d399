/**
 Blocking on a person's answer: `wait_for_decision` of
 app/application/approval_service.py:554-583 and what its caller does with the
 result, app/api/mcp/datasources_server.py:328-345.

 One pending case.  Somebody claims it and writes how it ends; the waiter polls,
 and past its own deadline tries to close the case as expired itself.
 */
module DecisionWait {
  import opened Common
  import opened VetoWindow

  datatype Holder = Other | Waiter

  datatype Waiting =
    | Polling
    | TimedOut                               // saw it pending past the deadline; claims next
    | Expiring                               // won the claim; writes next
    | Answered(answer: Option<Status>)       // what the caller gets

  /** `holder` won the one claim there is; a claimed case is pending until its holder writes. */
  datatype Wait = Wait(now: real, deadline: real, status: Status, holder: Option<Holder>, waiting: Waiting)

  datatype Move =
    | Clock(at: real)
    | OtherClaims
    | OtherWrites(status: Status)
    | Poll                                   // get, then look at the clock
    | Claim                                  // expire: claim_for_decision
    | Write                                  // expire: update

  predicate MayMove(w: Wait, m: Move) {
    match m
    case Clock(at) => w.now <= at
    case OtherClaims => w.holder.None? && w.status == Pending
    case OtherWrites(status) => w.holder == Some(Other) && w.status == Pending && status != Pending
    case Poll => w.waiting.Polling?
    case Claim => w.waiting.TimedOut?
    case Write => w.waiting.Expiring?
  }

  function Moved(w: Wait, m: Move): Wait
    requires MayMove(w, m)
  {
    match m
    case Clock(at) => w.(now := at)
    case OtherClaims => w.(holder := Some(Other))
    case OtherWrites(status) => w.(status := status)
    case Poll =>
      if w.status != Pending then w.(waiting := Answered(Some(w.status)))
      else if w.now >= w.deadline then w.(waiting := TimedOut)
      else w
    case Claim =>
      if w.holder.None? && w.status == Pending then w.(holder := Some(Waiter), waiting := Expiring)
      else w.(waiting := Answered(None))
    case Write => w.(status := Expired, waiting := Answered(Some(Expired)))
  }

  predicate MayRun(w: Wait, moves: seq<Move>)
    decreases |moves|
  {
    moves == [] || (MayMove(w, moves[0]) && MayRun(Moved(w, moves[0]), moves[1..]))
  }

  function Run(w: Wait, moves: seq<Move>): Wait
    requires MayRun(w, moves)
    decreases |moves|
  {
    if moves == [] then w else Run(Moved(w, moves[0]), moves[1..])
  }

  predicate Begun(w: Wait) {
    w.status == Pending && w.holder.None? && w.waiting.Polling?
  }

  predicate Consistent(w: Wait) {
    && (w.status != Pending ==> w.holder.Some?)
    && (w.waiting.Expiring? ==> w.holder == Some(Waiter) && w.status == Pending)
    && (w.holder == Some(Waiter) ==>
          w.now >= w.deadline && (w.waiting.Expiring? || (w.status == Expired && w.waiting == Answered(Some(Expired)))))
    && (w.waiting.TimedOut? ==> w.now >= w.deadline)
    && (w.waiting.Answered? && w.waiting.answer.Some? ==> w.status == w.waiting.answer.value != Pending)
    && (w.waiting == Answered(None) ==> w.holder == Some(Other) && w.now >= w.deadline)
  }

  lemma MoveKeepsConsistent(w: Wait, m: Move)
    requires Consistent(w) && MayMove(w, m)
    ensures Consistent(Moved(w, m))
    ensures w.status != Pending ==> Moved(w, m).status == w.status
  {
    EitherHolds(w);
  }

  lemma EitherHolds(w: Wait)
    ensures w.holder.None? || w.holder == Some(Other) || w.holder == Some(Waiter)
  {
    assert w.holder.Some? ==> w.holder.value.Other? || w.holder.value.Waiter?;
  }

  lemma {:induction false} RunsStayConsistent(w: Wait, moves: seq<Move>)
    requires Consistent(w) && MayRun(w, moves)
    ensures Consistent(Run(w, moves))
    ensures w.status != Pending ==> Run(w, moves).status == w.status
    decreases |moves|
  {
    if moves != [] {
      MoveKeepsConsistent(w, moves[0]);
      RunsStayConsistent(Moved(w, moves[0]), moves[1..]);
    }
  }

  /** The caller goes ahead exactly when it was given an approval. */
  predicate GoesAhead(w: Wait) {
    w.waiting == Answered(Some(Approved))
  }

  /** An answer is the stored status and stays it, whatever happens later; and only somebody else approves. */
  lemma AnswersAreFinal(w: Wait, before: seq<Move>, after: seq<Move>)
    requires Begun(w) && MayRun(w, before) && MayRun(Run(w, before), after)
    ensures var t := Run(w, before);
            && (t.waiting.Answered? && t.waiting.answer.Some? ==> Run(t, after).status == t.waiting.answer.value)
            && (GoesAhead(t) ==> t.holder == Some(Other) && Run(t, after).status == Approved)
  {
    RunsStayConsistent(w, before);
    RunsStayConsistent(Run(w, before), after);
    EitherHolds(Run(w, before));
  }

  /** The wait only expires a case past its deadline, and one it did not lose to somebody's claim. */
  lemma ExpiryIsDue(w: Wait, moves: seq<Move>)
    requires Begun(w) && MayRun(w, moves)
    ensures var t := Run(w, moves);
            (t.holder == Some(Waiter) || t.waiting == Answered(None)) ==> t.now >= t.deadline
  {
    RunsStayConsistent(w, moves);
  }

  /**
   At the deadline of any run the caller learns nothing exactly when somebody else
   already holds the case: a reading of the claim in a state the run theorem describes.
   */
  lemma NothingIsAnsweredExactlyWhenRaced(w: Wait, moves: seq<Move>)
    requires Begun(w) && MayRun(w, moves) && Run(w, moves).waiting.TimedOut?
    ensures Moved(Run(w, moves), Claim).waiting == Answered(None) <==> Run(w, moves).holder == Some(Other)
  {
    RunsStayConsistent(w, moves);
    EitherHolds(Run(w, moves));
  }

  /** Past its deadline a wait ends with its next poll: with what was decided, or by expiring a case that nobody holds. */
  lemma WaitEnds(w: Wait, at: real)
    requires Consistent(w) && w.waiting.Polling? && w.now <= at
    ensures MayMove(w, Clock(at)) && MayMove(Moved(w, Clock(at)), Poll)
    ensures var t := Moved(Moved(w, Clock(at)), Poll);
            && t == w.(now := at, waiting := t.waiting)
            && (w.status != Pending ==> t.waiting == Answered(Some(w.status)))
            && (w.status == Pending && at < w.deadline ==> t.waiting == Polling)
            && (w.status == Pending && at >= w.deadline ==>
                  && t.waiting == TimedOut
                  && var u := Moved(t, Claim);
                     && (w.holder.Some? ==> u == t.(waiting := Answered(None)))
                     && (w.holder.None? ==>
                           && u == t.(holder := Some(Waiter), waiting := Expiring)
                           && Moved(u, Write) == u.(status := Expired, waiting := Answered(Some(Expired)))))
  {
  }

  /** An approval in that instant is recorded, yet its caller is told nothing and does not go ahead. */
  lemma ApprovedYetNotAnswered(deadline: real)
    ensures var w := Wait(deadline, deadline, Pending, None, Polling);
            var moves := [Poll, OtherClaims, OtherWrites(Approved), Claim];
            && Begun(w) && MayRun(w, moves)
            && Run(w, moves).status == Approved && !GoesAhead(Run(w, moves)) && Run(w, moves).waiting == Answered(None)
  {
    var w := Wait(deadline, deadline, Pending, None, Polling);
    var w1 := Moved(w, Poll);
    var w2 := Moved(w1, OtherClaims);
    var w3 := Moved(w2, OtherWrites(Approved));
  }

}
