/**
 The live sockets of connected runners: `RunnerSession` and `RunnerHub` of
 app/application/runners.py:302-400.

 Each method is what runs between two awaits, so any interleaving of connections,
 requests and revocations is a sequence of calls of these methods.
 */
module LiveRunners {
  import opened Common

  /** How a request ends. */
  datatype Answer = Result(value: string) | Error(message: string) | Offline

  /** One runner's control socket; `pending` holds the futures of its open requests, None while unanswered. */
  class RunnerSession {
    const runnerId: string
    var pending: map<nat, Option<Answer>>
    var next: nat
    var closed: bool
    /** What each request's future was set to, once and for all. */
    ghost var answers: map<nat, Answer>

    ghost predicate Valid()
      reads this
    {
      && (closed ==> pending == map[])
      && (forall rid :: rid in pending ==> rid < next)
      && (forall rid :: rid in answers ==> rid < next)
      && (forall rid :: rid in pending ==> (pending[rid].None? <==> rid !in answers))
      && (forall rid :: rid in pending && pending[rid].Some? ==> answers[rid] == pending[rid].value)
    }

    /** Still waited for. */
    ghost predicate Open(rid: nat)
      reads this
    {
      rid in pending && pending[rid].None?
    }

    constructor (runnerId: string)
      ensures Valid() && this.runnerId == runnerId && !closed && pending == map[] && answers == map[]
    {
      this.runnerId := runnerId;
      pending, next, closed := map[], 1, false;
      answers := map[];
    }

    /** `request` up to its first await: refused on a closed session, else a new future under a new id. */
    method Request() returns (rid: Option<nat>)
      requires Valid()
      modifies this
      ensures Valid() && closed == old(closed) && answers == old(answers)
      ensures rid.None? <==> closed
      ensures rid.Some? ==> rid.value !in old(pending) && Open(rid.value) && pending == old(pending)[rid.value := None]
      ensures rid.None? ==> pending == old(pending)
    {
      if closed {
        return None;
      }
      rid := Some(next);
      next := next + 1;
      pending := pending[rid.value := None];
    }

    /** A response only answers the request with its own id, and only once. */
    method Resolve(rid: nat, answer: Answer)
      requires Valid()
      modifies this
      ensures Valid() && closed == old(closed)
      ensures answers == if old(Open(rid)) then old(answers)[rid := answer] else old(answers)
      ensures pending == if old(Open(rid)) then old(pending)[rid := Some(answer)] else old(pending)
    {
      if rid in pending && pending[rid].None? {
        pending := pending[rid := Some(answer)];
        answers := answers[rid := answer];
      }
    }

    /** The end of `request`: answered, timed out or cancelled, its future is taken out. */
    method Leave(rid: nat)
      requires Valid()
      modifies this
      ensures Valid() && closed == old(closed) && answers == old(answers)
      ensures pending == old(pending) - {rid}
    {
      pending := pending - {rid};
    }

    /** Closing leaves nobody waiting: every open request ends as offline, the answered ones keep their answer. */
    method FailAll()
      requires Valid()
      modifies this
      ensures Valid() && closed && pending == map[]
      ensures forall rid :: old(Open(rid)) ==> rid in answers && answers[rid] == Offline
      ensures forall rid :: rid in old(answers) ==> rid in answers && answers[rid] == old(answers)[rid]
      ensures forall rid :: rid in answers ==> rid in old(answers) || old(Open(rid))
    {
      closed := true;
      ghost var before := answers;
      var left := pending.Keys;
      while left != {}
        invariant left <= pending.Keys && pending == old(pending) && next == old(next) && closed
        invariant forall rid :: rid in answers <==> rid in before || (old(Open(rid)) && rid !in left)
        invariant forall rid :: rid in before ==> answers[rid] == before[rid]
        invariant forall rid :: rid in answers && rid !in before ==> answers[rid] == Offline
        decreases |left|
      {
        var rid :| rid in left;
        left := left - {rid};
        if pending[rid].None? {
          answers := answers[rid := Offline];
        }
      }
      pending := map[];
    }
  }

  /** Control sockets of connected runners. */
  class RunnerHub {
    var sessions: map<string, RunnerSession>
    var online: set<string>
    /** Every session that was ever attached. */
    ghost var attached: set<RunnerSession>

    /** The sessions in the table are exactly the attached ones that are open, each under its runner. */
    ghost predicate Valid()
      reads this, attached
    {
      && (forall s :: s in attached ==> s.Valid())
      && (forall r :: r in sessions ==> sessions[r] in attached && sessions[r].runnerId == r && !sessions[r].closed)
      && (forall s :: s in attached && !s.closed ==> s.runnerId in sessions && sessions[s.runnerId] == s)
    }

    constructor ()
      ensures Valid() && sessions == map[] && online == {} && attached == {}
    {
      sessions, online, attached := map[], {}, {};
    }

    predicate IsOnline(r: string)
      reads this, if r in sessions then {sessions[r]} else {}
    {
      r in sessions && !sessions[r].closed
    }

    /** `attach` up to its await: the session takes its runner's place, and one that was there is closed. */
    method Attach(session: RunnerSession) returns (superseded: Option<RunnerSession>)
      requires Valid() && session !in attached && session.Valid() && !session.closed
      modifies this, attached
      ensures Valid() && attached == old(attached) + {session} && unchanged(session) && online == old(online)
      ensures sessions == old(sessions)[session.runnerId := session]
      ensures superseded.None? <==> session.runnerId !in old(sessions)
      ensures superseded.Some? ==>
                && superseded.value == old(sessions)[session.runnerId] && superseded.value.closed
                && forall rid :: old(superseded.value.Open(rid)) ==>
                     rid in superseded.value.answers && superseded.value.answers[rid] == Offline
      ensures forall s :: s in old(attached) && superseded != Some(s) ==> unchanged(s)
    {
      superseded := None;
      if session.runnerId in sessions {
        superseded := Some(sessions[session.runnerId]);
      }
      sessions := sessions[session.runnerId := session];
      attached := attached + {session};
      if superseded.Some? {
        assert superseded.value.runnerId == session.runnerId && superseded.value != session;
        superseded.value.FailAll();
      }
    }

    /** The rest of `attach`: whoever waits for the runner is woken. */
    method Announce(r: string)
      modifies this`online
      ensures online == old(online) + {r}
    {
      online := online + {r};
    }

    /** `attach` when nothing runs at its await: the runner is online through the new session, and whoever waited is woken. */
    method AttachAtOnce(session: RunnerSession)
      requires Valid() && session !in attached && session.Valid() && !session.closed
      modifies this, attached
      ensures Valid() && attached == old(attached) + {session} && unchanged(session)
      ensures IsOnline(session.runnerId) && sessions == old(sessions)[session.runnerId := session]
      ensures online == old(online) + {session.runnerId}
    {
      var _ := Attach(session);
      Announce(session.runnerId);
    }

    /** A socket that ended: only its own session leaves the table. */
    method Detach(session: RunnerSession)
      requires Valid() && session in attached
      modifies this, attached
      ensures Valid() && attached == old(attached) && session.closed
      ensures var current := session.runnerId in old(sessions) && old(sessions)[session.runnerId] == session;
              && sessions == (if current then old(sessions) - {session.runnerId} else old(sessions))
              && online == (if current then old(online) - {session.runnerId} else old(online))
      ensures forall s :: s in old(attached) && s != session ==> unchanged(s)
    {
      session.FailAll();
      if session.runnerId in sessions && sessions[session.runnerId] == session {
        sessions := sessions - {session.runnerId};
        online := online - {session.runnerId};
      }
    }

    /** Revocation: the runner has no open session any more. */
    method Drop(r: string) returns (dropped: Option<RunnerSession>)
      requires Valid()
      modifies this, attached
      ensures Valid() && attached == old(attached)
      ensures sessions == old(sessions) - {r} && online == old(online) - {r}
      ensures forall s :: s in attached && s.runnerId == r ==> s.closed && s.pending == map[]
      ensures forall s :: s in old(attached) && dropped != Some(s) ==> unchanged(s)
    {
      dropped := None;
      if r in sessions {
        dropped := Some(sessions[r]);
      }
      sessions := sessions - {r};
      online := online - {r};
      if dropped.Some? {
        dropped.value.FailAll();
      }
    }

    /** A request to a runner goes to its open session, or is refused when there is none. */
    method RequestOf(r: string) returns (rid: Option<nat>)
      requires Valid()
      modifies attached
      ensures Valid() && (rid.Some? <==> r in sessions)
      ensures rid.Some? ==> sessions[r].Open(rid.value) && !old(sessions[r].Open(rid.value))
      ensures forall s :: s in attached && !(r in sessions && s == sessions[r]) ==> unchanged(s)
    {
      if r !in sessions {
        return None;
      }
      rid := sessions[r].Request();
    }
  }

  /** A runner never has two open sessions, however connections race. */
  lemma OneOpenSession(hub: RunnerHub, a: RunnerSession, b: RunnerSession)
    requires hub.Valid() && a in hub.attached && b in hub.attached && a.runnerId == b.runnerId
    ensures !a.closed && !b.closed ==> a == b && hub.IsOnline(a.runnerId)
    ensures a.closed ==> forall rid :: !a.Open(rid)
  {
  }

  /** The runner counts as online exactly when some session of it is open. */
  lemma OnlineExactlyWhenOpen(hub: RunnerHub, r: string)
    requires hub.Valid()
    ensures hub.IsOnline(r) <==> exists s :: s in hub.attached && s.runnerId == r && !s.closed
  {
    if hub.IsOnline(r) {
      assert hub.sessions[r] in hub.attached;
    }
  }
}
