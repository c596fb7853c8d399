/**
 `cancel_open_for_run` of app/application/approval_service.py:508-527 among
 whatever else happens to the cases of its run: each look-up and each claim is a
 step of its own, and other callers claim, answer and open cases in between.
 */
module CaseSweep {
  import opened Common

  /**
   `open` are the open cases of the run with their creation times, `held` the cases
   others have claimed, some of them not answered yet.  `found` is what the last
   look-up handed to `abandon`; `since` are the cases opened after that look-up.
   */
  datatype Sweep = Sweep(open: map<string, real>, held: set<string>, found: Option<string>, foundAt: real,
                         since: set<string>, refused: bool, over: bool)

  datatype Event =
    | Look(id: string)                    // find_open_case: the newest open case, held or not
    | LookInVain                          // ... or none
    | Abandon                             // the claim, and the write when it is won
    | Take(id: string)                    // somebody else's claim
    | Answer(id: string)                  // ... and write
    | Open(id: string, created: real)

  ghost predicate Enabled(s: Sweep, e: Event) {
    match e
    case Look(id) => !s.over && s.found.None? && id in s.open && forall o :: o in s.open ==> s.open[o] <= s.open[id]
    case LookInVain => !s.over && s.found.None? && s.open == map[]
    case Abandon => s.found.Some?
    case Take(id) => id in s.open && id !in s.held
    case Answer(id) => id in s.open && id in s.held
    case Open(id, _) => id !in s.open && id !in s.held
  }

  ghost function Step(s: Sweep, e: Event): Sweep
    requires Enabled(s, e)
  {
    match e
    case Look(id) => s.(found := Some(id), foundAt := s.open[id], since := {})
    case LookInVain => s.(over := true)
    case Abandon =>
      var id := s.found.value;
      if id in s.open && id !in s.held
      then s.(open := s.open - {id}, found := None)
      else s.(found := None, refused := true, over := true)
    case Take(id) => s.(held := s.held + {id})
    case Answer(id) => s.(open := s.open - {id})
    case Open(id, created) => s.(open := s.open[id := created], since := s.since + {id})
  }

  ghost predicate Possible(s: Sweep, events: seq<Event>)
    decreases |events|
  {
    events == [] || (Enabled(s, events[0]) && Possible(Step(s, events[0]), events[1..]))
  }

  ghost function Play(s: Sweep, events: seq<Event>): Sweep
    requires Possible(s, events)
    decreases |events|
  {
    if events == [] then s else Play(Step(s, events[0]), events[1..])
  }

  predicate Begins(s: Sweep) {
    s.found.None? && !s.refused && !s.over
  }

  /** A found case leaves the open ones only by being taken, and what was open then is no newer. */
  ghost predicate Consistent(s: Sweep) {
    && (s.refused ==> s.over) && (s.over ==> s.found.None?)
    && (s.found.Some? ==> s.found.value in s.open || s.found.value in s.held)
    && (s.found.Some? || s.refused ==> forall o :: o in s.open && o !in s.since ==> s.open[o] <= s.foundAt)
  }

  /** Held are the cases that were and those taken since. */
  lemma {:induction false} RunsStayConsistent(s: Sweep, events: seq<Event>, id: string)
    requires Consistent(s) && Possible(s, events)
    ensures Consistent(Play(s, events))
    ensures id in Play(s, events).held <==> id in s.held || Take(id) in events
    decreases |events|
  {
    if events != [] {
      RunsStayConsistent(Step(s, events[0]), events[1..], id);
    }
  }

  /** The loop is refused a case it found exactly when somebody else had taken it, before the loop or until that moment. */
  lemma RefusedExactlyWhenTaken(s: Sweep, events: seq<Event>, id: string)
    requires Begins(s) && Possible(s, events) && Play(s, events).found == Some(id)
    ensures var t := Step(Play(s, events), Abandon);
            && (t.refused <==> id in s.held || Take(id) in events)
            && (!t.refused ==> t.open == Play(s, events).open - {id} && !t.over)
  {
    RunsStayConsistent(s, events, id);
  }

  /**
   The loop ends by finding nothing, with no case open, or by being refused; then
   what is left is no newer than the refused case, or was opened after it was found.
   */
  lemma WhatIsLeft(s: Sweep, events: seq<Event>, e: Event)
    requires Begins(s) && Possible(s, events) && Enabled(Play(s, events), e)
    requires !Play(s, events).over && Step(Play(s, events), e).over
    ensures var t := Step(Play(s, events), e);
            if t.refused then forall o :: o in t.open && o !in t.since ==> t.open[o] <= t.foundAt
            else t.open == map[]
  {
    RunsStayConsistent(s, events, "");
  }

  /** Some event of these opened the case. */
  ghost predicate Opened(events: seq<Event>, id: string) {
    exists e :: e in events && e.Open? && e.id == id
  }

  ghost predicate NoLook(events: seq<Event>) {
    forall e :: e in events ==> !e.Look?
  }

  lemma {:induction false} SinceWereOpened(s: Sweep, events: seq<Event>, id: string)
    requires Possible(s, events) && NoLook(events) && id in Play(s, events).since
    ensures id in s.since || Opened(events, id)
    decreases |events|
  {
    if events != [] {
      assert events[0] in events && forall e :: e in events[1..] ==> e in events;
      SinceWereOpened(Step(s, events[0]), events[1..], id);
    }
  }

  /** After a refusal, every case still open is no newer than the refused one, or was opened after that was looked up. */
  lemma LeftAfterRefusal(s: Sweep, before: seq<Event>, id: string, since: seq<Event>, o: string)
    requires Begins(s) && Possible(s, before) && Enabled(Play(s, before), Look(id))
    requires var found := Step(Play(s, before), Look(id));
             && Possible(found, since) && NoLook(since) && Play(found, since).found.Some?
             && Step(Play(found, since), Abandon).refused && o in Step(Play(found, since), Abandon).open
    ensures var at := Play(s, before).open[id];
            Step(Play(Step(Play(s, before), Look(id)), since), Abandon).open[o] <= at || Opened(since, o)
  {
    RunsStayConsistent(s, before, "");
    var found := Step(Play(s, before), Look(id));
    RunsStayConsistent(found, since, "");
    var t := Play(found, since);
    if o in t.since {
      SinceWereOpened(found, since, o);
    } else {
      FoundAtStays(found, since);
    }
  }

  lemma {:induction false} FoundAtStays(s: Sweep, events: seq<Event>)
    requires Possible(s, events) && NoLook(events)
    ensures Play(s, events).foundAt == s.foundAt
    decreases |events|
  {
    if events != [] {
      assert events[0] in events && forall e :: e in events[1..] ==> e in events;
      FoundAtStays(Step(s, events[0]), events[1..]);
    }
  }

  /** The work the loop has left: every look-up is followed by a claim, and every claim that is won closes a case. */
  ghost function Left(s: Sweep): nat {
    if s.over then 0 else 2 * |s.open| + if s.found.None? then 2 else 1
  }

  /** Its own steps use that up, and others add to it only by opening cases, so the loop ends unless these never stop. */
  lemma LoopEnds(s: Sweep, e: Event)
    requires Consistent(s) && Enabled(s, e)
    ensures (e.Look? || e.LookInVain? || e.Abandon?) ==> Left(Step(s, e)) < Left(s)
    ensures e.Take? || e.Answer? ==> Left(Step(s, e)) <= Left(s)
    ensures e.Answer? && !s.over ==> Left(Step(s, e)) < Left(s)
    ensures e.Open? ==> Left(Step(s, e)) <= Left(s) + 2
  {
    var t := Step(s, e);
    match e
    case Abandon =>
      if s.found.value in s.open && s.found.value !in s.held {
        OneLess(s.open, s.found.value);
      }
    case Answer(id) => OneLess(s.open, id);
    case Open(id, created) =>
      assert t.open.Keys == s.open.Keys + {id};
      assert |t.open| == |t.open.Keys| && |s.open| == |s.open.Keys|;
    case _ =>
  }

  lemma OneLess(m: map<string, real>, id: string)
    requires id in m
    ensures |m - {id}| == |m| - 1
  {
    assert (m - {id}).Keys == m.Keys - {id};
    assert |m| == |m.Keys| && |m - {id}| == |(m - {id}).Keys|;
  }

  /** The witness: the newest of two cases is taken just after it was found, and the older one stays open. */
  lemma TakenAfterFound(older: string, newer: string)
    requires older != newer
    ensures var s := Sweep(map[older := 1.0, newer := 2.0], {}, None, 0.0, {}, false, false);
            Begins(s) && Enabled(s, Look(newer)) &&
            var found := Step(s, Look(newer));
            Enabled(found, Take(newer)) &&
            var t := Step(Step(found, Take(newer)), Abandon);
            t.over && t.refused && older in t.open && older !in t.held
  {
  }
}
