/**
 The probation of generated-code writes, `_tier2_write_probation` of
 app/application/approval_service.py:290-338, over the approved cases of one data
 source.

 The first query names an operation, which no backend's `list` takes
 (app/infrastructure/persistence/approval_backend.py:37-49, 204-216, 347-351), so it
 always raises and what runs is the query after it: the newest approvals of the
 whole data source, looked through for the operation afterwards.

 A log holds the approvals in the order their cases were created, the newest last.
 A case is decided some time after it was created, so an approval can take any place
 in the log.  A veto takes an autonomous approval out again.
 */
module Probation {

  type Operation = string

  /** An approved case: what it runs, and whether a person approved it. */
  datatype Approval = Approval(operation: Operation, human: bool)

  type Log = seq<Approval>

  /** How many of the newest approvals are looked at. */
  function Limit(required: nat): nat {
    if required * 8 >= 100 then required * 8 else 100
  }

  function Newest(log: Log, n: nat): (w: Log)
    ensures |w| <= n && |w| <= |log| && w == log[|log| - |w|..]
  {
    if |log| <= n then log else log[|log| - n..]
  }

  /** The approvals of an operation by people. */
  function HumansOf(log: Log, op: Operation): nat {
    if log == [] then 0
    else HumansOf(log[..|log| - 1], op) + if log[|log| - 1] == Approval(op, true) then 1 else 0
  }

  /** The operation may not be decided autonomously yet. */
  predicate OnProbation(log: Log, op: Operation, required: nat) {
    required > 0 && HumansOf(Newest(log, Limit(required)), op) < required
  }

  /** Counting what the backend lists. */
  method MayDecideAlone(log: Log, op: Operation, required: nat) returns (ok: bool)
    ensures ok <==> !OnProbation(log, op, required)
    ensures ok <==> required == 0 || HumansOf(Newest(log, if required <= 12 then 100 else required * 8), op) >= required
  {
    if required == 0 {
      return true;
    }
    var listed := Newest(log, Limit(required));
    var human := 0;
    for i := 0 to |listed|
      invariant human == HumansOf(listed[..i], op)
    {
      assert listed[..i + 1][..i] == listed[..i];
      if listed[i].operation == op && listed[i].human {
        human := human + 1;
      }
    }
    assert listed[..|listed|] == listed;
    ok := human >= required;
  }

  lemma {:induction false} HumansConcat(a: Log, b: Log, op: Operation)
    ensures HumansOf(a + b, op) == HumansOf(a, op) + HumansOf(b, op)
  {
    if b == [] {
      assert a + b == a;
    } else {
      var k := |b| - 1;
      HumansConcat(a, b[..k], op);
      assert (a + b)[..|a + b| - 1] == a + b[..k];
    }
  }

  lemma {:induction false} HumansAlike(log: Log, op: Operation, human: bool)
    requires forall i :: 0 <= i < |log| ==> (log[i] == Approval(op, true) <==> human)
    ensures HumansOf(log, op) == if human then |log| else 0
  {
    if log != [] {
      HumansAlike(log[..|log| - 1], op, human);
    }
  }

  /** The log with an approval at a place. */
  function Insert(log: Log, at: nat, a: Approval): (r: Log)
    requires at <= |log|
    ensures |r| == |log| + 1
  {
    log[..at] + [a] + log[at..]
  }

  function One(a: Approval, op: Operation): nat {
    if a == Approval(op, true) then 1 else 0
  }

  lemma InsertCounts(log: Log, at: nat, a: Approval, op: Operation)
    requires at <= |log|
    ensures HumansOf(Insert(log, at, a), op) == HumansOf(log, op) + One(a, op)
  {
    assert log == log[..at] + log[at..];
    HumansConcat(log[..at], log[at..], op);
    HumansConcat(log[..at] + [a], log[at..], op);
    HumansConcat(log[..at], [a], op);
    assert [a][..0] == [];
  }

  // ---- Over the life of a data source ----

  /** A gate that found the operation off probation decides later, so its clearance is part of the state. */
  datatype State = State(log: Log, cleared: multiset<Operation>)

  datatype Event =
    | Check(operation: Operation)
    | ByModel(operation: Operation, at: nat)
    | ByPerson(operation: Operation, at: nat)
    | Vetoed(i: nat)

  /**
   What can happen, `guarded` being the generated-code writes.  Only these wait for
   a clearance, and only the service's own approvals can be vetoed.
   */
  predicate Allowed(s: State, guarded: set<Operation>, required: nat, e: Event) {
    match e
    case Check(op) => !OnProbation(s.log, op, required)
    case ByModel(op, at) => at <= |s.log| && (op in guarded ==> op in s.cleared)
    case ByPerson(op, at) => at <= |s.log|
    case Vetoed(i) => i < |s.log| && !s.log[i].human
  }

  function Step(s: State, guarded: set<Operation>, required: nat, e: Event): State
    requires Allowed(s, guarded, required, e)
  {
    match e
    case Check(op) => s.(cleared := s.cleared + multiset{op})
    case ByModel(op, at) => State(Insert(s.log, at, Approval(op, false)), s.cleared - multiset{op})
    case ByPerson(op, at) => s.(log := Insert(s.log, at, Approval(op, true)))
    case Vetoed(i) => s.(log := s.log[..i] + s.log[i + 1..])
  }

  predicate Possible(s: State, guarded: set<Operation>, required: nat, events: seq<Event>)
    decreases |events|
  {
    events == [] ||
    (&& Allowed(s, guarded, required, events[0])
     && Possible(Step(s, guarded, required, events[0]), guarded, required, events[1..]))
  }

  function Play(s: State, guarded: set<Operation>, required: nat, events: seq<Event>): State
    requires Possible(s, guarded, required, events)
    decreases |events|
  {
    if events == [] then s else Play(Step(s, guarded, required, events[0]), guarded, required, events[1..])
  }

  lemma WindowCounts(log: Log, n: nat, op: Operation)
    ensures HumansOf(Newest(log, n), op) <= HumansOf(log, op)
  {
    var w := Newest(log, n);
    assert log == log[..|log| - |w|] + w;
    HumansConcat(log[..|log| - |w|], w, op);
  }

  /** A cleared operation has its people: no event takes one of them away. */
  lemma StepEarned(s: State, guarded: set<Operation>, required: nat, e: Event, op: Operation)
    requires Allowed(s, guarded, required, e)
    requires op in s.cleared ==> HumansOf(s.log, op) >= required
    ensures var t := Step(s, guarded, required, e);
            && HumansOf(t.log, op) >= HumansOf(s.log, op)
            && (op in t.cleared ==> HumansOf(t.log, op) >= required)
  {
    match e
    case Check(_) => WindowCounts(s.log, Limit(required), op);
    case ByModel(m, at) => InsertCounts(s.log, at, Approval(m, false), op);
    case ByPerson(m, at) => InsertCounts(s.log, at, Approval(m, true), op);
    case Vetoed(i) =>
      var rest := s.log[..i] + s.log[i + 1..];
      assert s.log == Insert(rest, i, s.log[i]);
      InsertCounts(rest, i, s.log[i], op);
  }

  /**
   However checks, answers and vetoes overlap, an autonomous approval of a
   generated-code write comes only after `required` people have approved it.
   */
  lemma {:induction false} PeopleComeFirst(s: State, guarded: set<Operation>, required: nat, events: seq<Event>,
                                           op: Operation, at: nat)
    requires Possible(s, guarded, required, events)
    requires op in guarded && (op in s.cleared ==> HumansOf(s.log, op) >= required)
    ensures var t := Play(s, guarded, required, events);
            Allowed(t, guarded, required, ByModel(op, at)) ==> HumansOf(t.log, op) >= required
    decreases |events|
  {
    if events != [] {
      StepEarned(s, guarded, required, events[0], op);
      PeopleComeFirst(Step(s, guarded, required, events[0]), guarded, required, events[1..], op, at);
    }
  }

  // ---- When probation comes back ----

  /** What one more approval does to the window. */
  lemma WindowAfter(log: Log, n: nat, at: nat, a: Approval, op: Operation)
    requires n > 0 && at <= |log|
    ensures HumansOf(Newest(Insert(log, at, a), n), op) ==
            HumansOf(Newest(log, n), op) +
            if |log| < n then One(a, op)
            else if at > |log| - n then One(a, op) - One(log[|log| - n], op) else 0
  {
    hide HumansOf;
    var w, w' := Newest(log, n), Newest(Insert(log, at, a), n);
    if |log| < n {
      InsertCounts(log, at, a, op);
    } else {
      var k := |log| - n;
      if at > k {
        assert w' == Insert(w[1..], at - k - 1, a);
        InsertCounts(w[1..], at - k - 1, a, op);
        assert w == Insert(w[1..], 0, log[k]);
        InsertCounts(w[1..], 0, log[k], op);
      } else {
        assert w' == w;
      }
    }
  }

  /** Taking an approval out can only let people back into the window. */
  lemma VetoKeeps(log: Log, n: nat, i: nat, op: Operation)
    requires n > 0 && i < |log| && !log[i].human
    ensures HumansOf(Newest(log[..i] + log[i + 1..], n), op) >= HumansOf(Newest(log, n), op)
  {
    var rest := log[..i] + log[i + 1..];
    assert log == Insert(rest, i, log[i]);
    WindowAfter(rest, n, i, log[i], op);
  }

  /**
   Probation comes back exactly when an approval other than a person's of this
   operation, whatever it approves and whoever gave it, is created late enough to
   push the last person needed out of the window.
   */
  lemma ReturnsExactlyWhen(s: State, guarded: set<Operation>, required: nat, e: Event, op: Operation)
    requires required > 0 && !OnProbation(s.log, op, required) && Allowed(s, guarded, required, e)
    ensures var n := Limit(required);
            OnProbation(Step(s, guarded, required, e).log, op, required) <==>
              && (e.ByModel? || (e.ByPerson? && e.operation != op))
              && |s.log| >= n && e.at > |s.log| - n
              && s.log[|s.log| - n] == Approval(op, true)
              && HumansOf(Newest(s.log, n), op) == required
  {
    hide HumansOf, Newest, Insert;
    var n := Limit(required);
    match e
    case Check(_) =>
    case ByModel(m, at) => WindowAfter(s.log, n, at, Approval(m, false), op);
    case ByPerson(m, at) => WindowAfter(s.log, n, at, Approval(m, true), op);
    case Vetoed(i) => VetoKeeps(s.log, n, i, op);
  }

  lemma StillEarned(required: nat, op: Operation, people: Log, others: Log)
    requires |people| == required && |people| + |others| <= Limit(required)
    requires forall i :: 0 <= i < |people| ==> people[i] == Approval(op, true)
    requires forall i :: 0 <= i < |others| ==> others[i] != Approval(op, true)
    ensures Newest(people + others, Limit(required)) == people + others
    ensures HumansOf(people + others, op) == required
  {
    HumansConcat(people, others, op);
    HumansAlike(people, op, true);
    HumansAlike(others, op, false);
  }

  /**
   For any requirement: just the people needed, then a window's rest of approvals
   none of which is a person's of this operation, be they autonomous ones or of
   other operations of the data source, keep it off probation, and one more puts it
   back.
   */
  lemma ProbationCanReturn(required: nat, op: Operation, people: Log, others: Log, last: Approval)
    requires required > 0 && |people| == required && |others| == Limit(required) - required
    requires forall i :: 0 <= i < |people| ==> people[i] == Approval(op, true)
    requires forall i :: 0 <= i < |others| ==> others[i] != Approval(op, true)
    requires last != Approval(op, true)
    ensures forall k :: 0 <= k <= |others| ==> !OnProbation(people + others[..k], op, required)
    ensures OnProbation(people + others + [last], op, required)
  {
    forall k | 0 <= k <= |others| ensures !OnProbation(people + others[..k], op, required) {
      StillEarned(required, op, people, others[..k]);
    }
    var log := people + others;
    StillEarned(required, op, people, others);
    assert Insert(log, |log|, last) == log + [last];
    WindowAfter(log, Limit(required), |log|, last, op);
  }
}
