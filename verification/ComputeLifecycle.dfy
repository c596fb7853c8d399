/**
 The life of a generated sheet transform: compile, edit, activate, mark stale and
 re-test in app/application/sheet_compute_service.py:238-680.

 Every operation works on its own loaded copy of the binding and stores that copy
 at its end, if it gets that far.  What the model answers, what the sheet's
 headers are and what the sandbox computes are given with each operation.
 */
module ComputeLifecycle {
  import opened Common

  /** Identity of a compile request. */
  datatype CacheKey = CacheKey(instruction: string, answers: map<string, string>, fingerprint: string, model: string)

  datatype Compute = Compute(code: string, activated: bool, stale: bool, key: Option<CacheKey>)

  /** The golden fixture: how many rows it was frozen on, and the output. */
  datatype Golden = Golden(rows: nat, output: string)

  datatype Binding = Binding(
    write: bool, fingerprint: string, instruction: string, answers: map<string, string>,
    edited: bool, compute: Option<Compute>, golden: Option<Golden>)

  datatype Generated = Needs | Failed | Ok(code: string, golden: Golden)

  /** A probe gives the header fingerprint (possibly empty) and the fingerprint computed from the headers. */
  datatype Probe = Probe(fingerprint: string, ofHeaders: string)

  /** `run` is what the sandbox computes for the code over the fixture's rows; None when a gate refuses it. */
  datatype Op =
    | Compile(instruction: Option<string>, extra: map<string, string>, force: bool, model: string,
              probe: Option<Probe>, run: Option<string>, generated: Generated)
    | Edit(code: string, run: Option<string>)
    | Activate(run: Option<string>)
    | MarkStale
    | Retest(probe: Option<Probe>, run: Option<string>)

  /** Whether the caller may store code, the deployment's two flags, and whether storing succeeds. */
  datatype Env = Env(admin: bool, computeEnabled: bool, writesEnabled: bool, stores: bool)

  predicate Blank(text: string) {
    forall c :: c in text ==> c in " \t\n\r"
  }

  function Staled(b: Binding): Binding {
    match b.compute
    case None => b
    case Some(c) => b.(compute := Some(c.(stale := true)))
  }

  predicate Drifted(b: Binding, p: Probe) {
    b.fingerprint != "" && p.fingerprint != b.fingerprint
  }

  /** `rerun_golden`: the stored code still computes the frozen output. */
  predicate Reproduces(b: Binding, run: Option<string>) {
    b.compute.Some? && b.golden.Some? && run == Some(b.golden.value.output)
  }

  function Reprobed(b: Binding, p: Probe): Binding {
    if Drifted(b, p) then b.(fingerprint := if p.fingerprint != "" then p.fingerprint else p.ofHeaders) else b
  }

  predicate MayWrite(b: Binding, env: Env) {
    b.write ==> env.writesEnabled
  }

  /** What an operation on a loaded binding stores; None when it refuses, asks back, or has nothing to store. */
  function Apply(b: Binding, op: Op, env: Env): Option<Binding> {
    if !env.stores then None
    else match op
      case Compile(_, _, _, _, _, _, _) =>
        if !env.admin || !env.computeEnabled || !MayWrite(b, env) || b.edited then None else Compiled(b, op)
      case Edit(code, run) =>
        if !env.admin || b.compute.None? || !MayWrite(b, env) || b.golden.None? || b.golden.value.rows == 0 || run.None? then None
        else Some(b.(compute := Some(b.compute.value.(code := code, activated := false, stale := false)),
                     edited := true, golden := Some(b.golden.value.(output := run.value))))
      case Activate(run) =>
        if !env.admin || b.compute.None? || !MayWrite(b, env) then None
        else if !Reproduces(b, run) then Some(Staled(b))
        else Some(b.(compute := Some(b.compute.value.(activated := true, stale := false))))
      case MarkStale =>
        if b.compute.None? then None
        else Some(b.(compute := Some(b.compute.value.(stale := true, activated := false))))
      case Retest(probe, run) =>
        if b.compute.None? || probe.None? then None
        else if Drifted(b, probe.value) || !Reproduces(b, run)
        then Some(b.(compute := Some(b.compute.value.(stale := true, activated := false))))
        else Some(b.(compute := Some(b.compute.value.(stale := false))))
  }

  function Compiled(b: Binding, op: Op): Option<Binding>
    requires op.Compile?
  {
    var text := if op.instruction.Some? then op.instruction.value else b.instruction;
    var answers := b.answers + op.extra;
    if Blank(text) || op.probe.None? then None
    else if Drifted(b, op.probe.value) && b.write then Some(Staled(b))
    else
      var p := Reprobed(b, op.probe.value);
      var key := CacheKey(text, answers, p.fingerprint, op.model);
      if !op.force && p.compute.Some? && p.compute.value.key == Some(key) && !p.compute.value.stale
      then if Reproduces(p, op.run) then None else Some(Staled(p))
      else match op.generated
        case Needs => None
        case Failed => None
        case Ok(code, golden) =>
          Some(p.(compute := Some(Compute(code, false, false, Some(key))), instruction := text, answers := answers,
                  golden := Some(golden)))
  }

  /** The code that would run: activated and not stale. */
  function RunningCode(b: Binding): Option<string> {
    if b.compute.Some? && b.compute.value.activated && !b.compute.value.stale then Some(b.compute.value.code) else None
  }

  function Code(b: Binding): Option<string> {
    if b.compute.Some? then Some(b.compute.value.code) else None
  }

  predicate Activated(b: Binding) {
    b.compute.Some? && b.compute.value.activated
  }

  /** A person's confirmation that goes through. */
  predicate Confirms(b: Binding, op: Op, env: Env) {
    op.Activate? && env.admin && env.stores && MayWrite(b, env) && Reproduces(b, op.run)
  }

  // ---- What single operations can do ----

  /** Code starts to run only by a confirmation, or by a re-test of code that is still confirmed; both reproduce the fixture. */
  lemma StartsRunningOnlyWhen(b: Binding, op: Op, env: Env)
    ensures Apply(b, op, env).Some? ==>
            var a := Apply(b, op, env).value;
            RunningCode(a).Some? && RunningCode(a) != RunningCode(b) ==>
              && Code(a) == Code(b) && Reproduces(b, op.run)
              && (Confirms(b, op, env) || (op.Retest? && Activated(b) && b.compute.value.stale))
  {
  }

  /** New code is never active. */
  lemma NewCodeIsInert(b: Binding, op: Op, env: Env)
    ensures Apply(b, op, env).Some? ==>
            var a := Apply(b, op, env).value;
            Code(a) != Code(b) ==> !Activated(a) && env.admin && (op.Compile? || op.Edit?)
  {
  }

  /**
   A write whose headers have moved is marked stale and otherwise left as it is,
   whatever the model would say.  A reading of one operation, on which
   DriftedWriteIsNeverRegenerated rests.
   */
  lemma DriftedWriteIsOnlyMarked(b: Binding, op: Op, env: Env)
    requires op.Compile? && b.write && op.probe.Some? && Drifted(b, op.probe.value)
    ensures Apply(b, op, env).Some? ==> Apply(b, op, env).value == Staled(b) && RunningCode(Staled(b)).None?
  {
  }

  /** A compile that generates nothing but marks what is there as stale. */
  predicate OnlyMarks(b: Binding, op: Op)
    requires op.Compile? && op.probe.Some?
  {
    var p := Reprobed(b, op.probe.value);
    var text := if op.instruction.Some? then op.instruction.value else b.instruction;
    || (b.write && Drifted(b, op.probe.value))
    || (&& !op.force && p.compute.Some? && !p.compute.value.stale
        && p.compute.value.key == Some(CacheKey(text, b.answers + op.extra, p.fingerprint, op.model))
        && !Reproduces(p, op.run))
  }

  /** The operations that leave code stale that still counts as activated, so that a re-test alone revives it. */
  lemma StaleYetActivatedExactlyWhen(b: Binding, op: Op, env: Env)
    ensures Apply(b, op, env).Some? ==>
            var a := Apply(b, op, env).value;
            Activated(a) && a.compute.value.stale <==>
              Activated(b) && ((op.Activate? && !Reproduces(b, op.run)) || (op.Compile? && OnlyMarks(b, op)))
  {
  }

  /**
   A re-test that succeeds puts exactly the still-activated code back to work,
   without anybody confirming it again.  A reading of one operation, which
   RevivedWithoutConfirmation puts into a sequence.
   */
  lemma RetestRevivesExactlyWhenActivated(b: Binding, probe: Probe, run: Option<string>, env: Env)
    requires env.stores && !Drifted(b, probe) && Reproduces(b, run)
    ensures var a := Apply(b, Retest(Some(probe), run), env);
            a.Some? && (RunningCode(a.value).Some? <==> Activated(b))
  {
  }

  // ---- What each operation stores, and when ----

  /** The run computes the output the fixture was frozen with. */
  ghost predicate Computes(b: Binding, run: Option<string>) {
    b.golden.Some? && run == Some(b.golden.value.output)
  }

  /** A hand edit takes the place of the code, freezes what the new code computes, and a confirmation that finds just that runs it. */
  lemma EditIsStored(b: Binding, code: string, run: Option<string>, env: Env)
    ensures Apply(b, Edit(code, run), env).Some? <==>
              && env.stores && env.admin && b.compute.Some? && (b.write ==> env.writesEnabled)
              && b.golden.Some? && b.golden.value.rows > 0 && run.Some?
    ensures Apply(b, Edit(code, run), env).Some? ==>
              var a := Apply(b, Edit(code, run), env).value;
              && a == b.(edited := true, compute := Some(Compute(code, false, false, b.compute.value.key)),
                         golden := Some(Golden(b.golden.value.rows, run.value)))
              && Apply(a, Activate(run), env).Some? && RunningCode(Apply(a, Activate(run), env).value) == Some(code)
  {
  }

  /** A confirmation sets code running that computes its fixture, and marks any other as stale. */
  lemma ConfirmationIsStored(b: Binding, run: Option<string>, env: Env)
    ensures Apply(b, Activate(run), env).Some? <==>
              env.stores && env.admin && b.compute.Some? && (b.write ==> env.writesEnabled)
    ensures Apply(b, Activate(run), env).Some? ==>
              var a := Apply(b, Activate(run), env).value;
              && a.compute.Some? && a == b.(compute := a.compute)
              && a.compute.value.code == b.compute.value.code && a.compute.value.key == b.compute.value.key
              && (Computes(b, run) ==> RunningCode(a) == Code(b))
              && (!Computes(b, run) ==> a.compute.value.stale && (Activated(a) <==> Activated(b)))
  {
  }

  /** A re-test that finds other headers or another output does what marking does: the code is stale and needs confirming again. */
  lemma FindingsAreStored(b: Binding, probe: Option<Probe>, run: Option<string>, env: Env)
    ensures var marked := if env.stores && b.compute.Some?
                          then Some(b.(compute := Some(Compute(b.compute.value.code, false, true, b.compute.value.key))))
                          else None;
            && Apply(b, MarkStale, env) == marked
            && Apply(b, Retest(probe, run), env) ==
               (if marked.None? || probe.None? then None
                else if (b.fingerprint != "" && probe.value.fingerprint != b.fingerprint) || !Computes(b, run) then marked
                else Some(b.(compute := Some(b.compute.value.(stale := false)))))
  {
  }

  /** The text says something. */
  ghost predicate Says(text: string) {
    exists i :: 0 <= i < |text| && text[i] != ' ' && text[i] != '\t' && text[i] != '\n' && text[i] != '\r'
  }

  /**
   What a compile stores: a mark when a write's headers moved, or when code
   generated for the very same request no longer computes its fixture; nothing when
   it still does; and otherwise what the model generated, not yet running, with the
   request it was generated for.
   */
  lemma CompileIsStored(b: Binding, op: Op, env: Env)
    requires op.Compile?
    ensures var text := if op.instruction.Some? then op.instruction.value else b.instruction;
            var allowed := && env.stores && env.admin && env.computeEnabled && (b.write ==> env.writesEnabled)
                           && !b.edited && Says(text) && op.probe.Some?;
            && (!allowed ==> Apply(b, op, env).None?)
            && (allowed ==>
                  var moved := b.fingerprint != "" && op.probe.value.fingerprint != b.fingerprint;
                  var now := if !moved then b.fingerprint
                             else if op.probe.value.fingerprint == "" then op.probe.value.ofHeaders
                             else op.probe.value.fingerprint;
                  var key := CacheKey(text, b.answers + op.extra, now, op.model);
                  var same := !op.force && b.compute.Some? && b.compute.value.key == Some(key) && !b.compute.value.stale;
                  var marked := if b.compute.None? then b else b.(compute := Some(b.compute.value.(stale := true)));
                  Apply(b, op, env) ==
                    if moved && b.write then Some(marked)
                    else if same then if Computes(b, op.run) then None else Some(marked.(fingerprint := now))
                    else if !op.generated.Ok? then None
                    else Some(Binding(b.write, now, text, b.answers + op.extra, false,
                                      Some(Compute(op.generated.code, false, false, Some(key))), Some(op.generated.golden))))
  {
    BlankSaysNothing(if op.instruction.Some? then op.instruction.value else b.instruction);
  }

  lemma BlankSaysNothing(text: string)
    ensures Blank(text) <==> !Says(text)
  {
    assert forall i :: 0 <= i < |text| ==> text[i] in text;
    assert forall c :: c in text ==> exists i :: 0 <= i < |text| && text[i] == c;
  }

  /** Compiling the same request over the same sheet again generates nothing, whatever the model would say. */
  lemma SameRequestIsCached(b: Binding, op: Op, env: Env, run: Option<string>, generated: Generated)
    requires op.Compile? && op.generated.Ok? && Apply(b, op, env).Some? && !OnlyMarks(b, op)
    ensures var a := Apply(b, op, env).value;
            var again := Apply(a, Compile(None, map[], false, op.model, op.probe, run, generated), env);
            again == if run == Some(op.generated.golden.output) then None else Some(Staled(a))
  {
    var a := Apply(b, op, env).value;
    assert a.answers + map[] == a.answers;
  }

  // ---- One operation after the other ----

  datatype Call = Call(op: Op, env: Env)

  function Do(b: Binding, c: Call): Binding {
    var a := Apply(b, c.op, c.env);
    if a.Some? then a.value else b
  }

  function DoAll(b: Binding, calls: seq<Call>): Binding
    decreases |calls|
  {
    if calls == [] then b else DoAll(Do(b, calls[0]), calls[1..])
  }

  /** The code present at the last confirmation that went through. */
  function LastConfirmed(b: Binding, calls: seq<Call>, before: Option<string>): Option<string>
    decreases |calls|
  {
    if calls == [] then before
    else LastConfirmed(Do(b, calls[0]), calls[1..], if Confirms(b, calls[0].op, calls[0].env) then Code(b) else before)
  }

  /** Activated code is exactly the code present at the last confirmation. */
  lemma {:induction false} ActivatedIsLastConfirmed(b: Binding, calls: seq<Call>, before: Option<string>)
    requires Activated(b) ==> Code(b) == before
    ensures var a := DoAll(b, calls);
            Activated(a) ==> Code(a) == LastConfirmed(b, calls, before)
    decreases |calls|
  {
    if calls != [] {
      var now := if Confirms(b, calls[0].op, calls[0].env) then Code(b) else before;
      ActivatedIsLastConfirmed(Do(b, calls[0]), calls[1..], now);
    }
  }

  /** A hand edit is for good: the mark stays, and only another edit changes the code. */
  lemma {:induction false} HandEditIsForGood(b: Binding, calls: seq<Call>)
    requires b.edited
    ensures DoAll(b, calls).edited
    ensures (forall c :: c in calls ==> !c.op.Edit?) ==> Code(DoAll(b, calls)) == Code(b)
    decreases |calls|
  {
    if calls != [] {
      assert (forall c :: c in calls ==> !c.op.Edit?) ==> !calls[0].op.Edit? && forall c :: c in calls[1..] ==> !c.op.Edit?;
      HandEditIsForGood(Do(b, calls[0]), calls[1..]);
    }
  }

  /** A write is never re-authored while every look at the sheet finds other headers than the saved ones. */
  lemma {:induction false} DriftedWriteIsNeverRegenerated(b: Binding, calls: seq<Call>)
    requires b.write && b.fingerprint != ""
    requires forall c :: c in calls ==> !c.op.Edit?
    requires forall c :: c in calls && c.op.Compile? && c.op.probe.Some? ==> c.op.probe.value.fingerprint != b.fingerprint
    ensures var a := DoAll(b, calls);
            Code(a) == Code(b) && a.write && a.fingerprint == b.fingerprint && a.instruction == b.instruction
    decreases |calls|
  {
    if calls != [] {
      assert calls[0] in calls && forall c :: c in calls[1..] ==> c in calls;
      DriftedWriteIsNeverRegenerated(Do(b, calls[0]), calls[1..]);
    }
  }

  /** Confirmed, found not to reproduce, then re-tested: the code runs again though nobody confirmed it again. */
  lemma RevivedWithoutConfirmation(b: Binding, env: Env, probe: Probe)
    requires env.admin && env.stores && MayWrite(b, env) && RunningCode(b).Some? && b.golden.Some? && !Drifted(b, probe)
    ensures var failing := [Call(Activate(None), env)];
            var passing := [Call(Retest(Some(probe), Some(b.golden.value.output)), env)];
            && RunningCode(DoAll(b, failing)).None?
            && RunningCode(DoAll(DoAll(b, failing), passing)) == RunningCode(b)
  {
    var c1, c2 := Call(Activate(None), env), Call(Retest(Some(probe), Some(b.golden.value.output)), env);
    assert DoAll(b, [c1]) == Do(b, c1);
    assert DoAll(Do(b, c1), [c2]) == Do(Do(b, c1), c2);
  }

  // ---- Operations that overlap ----

  /** What is stored, the copies operations are working on, the codes ever confirmed, and the outputs ever reproduced. */
  datatype State = State(stored: Binding, copies: map<nat, Binding>, confirmed: set<string>, reproduced: set<(string, string)>)

  datatype Event = Load(id: nat) | Store(id: nat, call: Call)

  predicate Enabled(s: State, e: Event) {
    match e
    case Load(id) => id !in s.copies
    case Store(id, _) => id in s.copies
  }

  function Step(s: State, e: Event): State
    requires Enabled(s, e)
  {
    match e
    case Load(id) => s.(copies := s.copies[id := s.stored])
    case Store(id, call) =>
      var b := s.copies[id];
      match Apply(b, call.op, call.env)
      case None => s.(copies := s.copies - {id})
      case Some(a) =>
        s.(stored := a, copies := s.copies - {id},
           confirmed := if Confirms(b, call.op, call.env) then s.confirmed + {b.compute.value.code} else s.confirmed,
           reproduced := if (call.op.Activate? || call.op.Retest?) && Reproduces(b, call.op.run)
                         then s.reproduced + {(b.compute.value.code, b.golden.value.output)} else s.reproduced)
  }

  predicate Possible(s: State, events: seq<Event>)
    decreases |events|
  {
    events == [] || (Enabled(s, events[0]) && Possible(Step(s, events[0]), events[1..]))
  }

  function Play(s: State, events: seq<Event>): State
    requires Possible(s, events)
    decreases |events|
  {
    if events == [] then s else Play(Step(s, events[0]), events[1..])
  }

  /** Activated code was confirmed as it stands, and running code reproduced the very fixture stored with it. */
  predicate Sound(b: Binding, confirmed: set<string>, reproduced: set<(string, string)>) {
    && (Activated(b) ==> b.compute.value.code in confirmed)
    && (RunningCode(b).Some? ==> b.golden.Some? && (RunningCode(b).value, b.golden.value.output) in reproduced)
  }

  predicate Invariant(s: State) {
    && Sound(s.stored, s.confirmed, s.reproduced)
    && forall id :: id in s.copies ==> Sound(s.copies[id], s.confirmed, s.reproduced)
  }

  lemma ApplyKeepsSound(b: Binding, call: Call, confirmed: set<string>, reproduced: set<(string, string)>)
    requires Sound(b, confirmed, reproduced) && Apply(b, call.op, call.env).Some?
    requires Confirms(b, call.op, call.env) ==> b.compute.value.code in confirmed
    requires (call.op.Activate? || call.op.Retest?) && Reproduces(b, call.op.run) ==>
               (b.compute.value.code, b.golden.value.output) in reproduced
    ensures Sound(Apply(b, call.op, call.env).value, confirmed, reproduced)
  {
  }

  lemma SoundGrows(b: Binding, confirmed: set<string>, reproduced: set<(string, string)>, s: State)
    requires Sound(b, confirmed, reproduced) && confirmed <= s.confirmed && reproduced <= s.reproduced
    ensures Sound(b, s.confirmed, s.reproduced)
  {
  }

  lemma StepKeepsInvariant(s: State, e: Event)
    requires Invariant(s) && Enabled(s, e)
    ensures Invariant(Step(s, e))
  {
    hide Apply, Sound, Reproduces, Confirms, Activated, RunningCode;
    var t := Step(s, e);
    SoundGrows(s.stored, s.confirmed, s.reproduced, t);
    forall id | id in s.copies ensures Sound(s.copies[id], t.confirmed, t.reproduced) {
      SoundGrows(s.copies[id], s.confirmed, s.reproduced, t);
    }
    if e.Store? && Apply(s.copies[e.id], e.call.op, e.call.env).Some? {
      ApplyKeepsSound(s.copies[e.id], e.call, t.confirmed, t.reproduced);
    }
  }

  /** However operations overlap, nothing runs that was not confirmed and has not reproduced its fixture. */
  lemma {:induction false} NothingRunsUnconfirmed(s: State, events: seq<Event>)
    requires Invariant(s) && Possible(s, events)
    ensures Invariant(Play(s, events))
    decreases |events|
  {
    if events != [] {
      StepKeepsInvariant(s, events[0]);
      NothingRunsUnconfirmed(Step(s, events[0]), events[1..]);
    }
  }

  /**
   Storing undoes a hand edit exactly when the operation had loaded the binding
   before it, and is not an edit itself: before the first edit, when the mark goes
   too, or between two, when only the later code goes.  A reading of one step;
   HandEditStays draws the conclusion for whole histories.
   */
  lemma EditLostExactlyWhen(s: State, id: nat, call: Call)
    requires s.stored.edited && id in s.copies
    ensures !Step(s, Store(id, call)).stored.edited <==>
              !s.copies[id].edited && !call.op.Edit? && Apply(s.copies[id], call.op, call.env).Some?
    ensures s.copies[id].edited && !call.op.Edit? ==>
              (Code(Step(s, Store(id, call)).stored) != Code(s.stored) <==>
                 Apply(s.copies[id], call.op, call.env).Some? && Code(s.copies[id]) != Code(s.stored))
  {
  }

  lemma EditedKept(b: Binding, op: Op, env: Env)
    ensures b.edited && Apply(b, op, env).Some? ==>
              Apply(b, op, env).value.edited && (!op.Edit? ==> Code(Apply(b, op, env).value) == Code(b))
  {
  }

  /**
   With no operation in flight from before it, a hand edit is never undone: the mark
   stays, and without a later edit so does the code.
   */
  lemma {:induction false} HandEditStays(s: State, events: seq<Event>)
    requires s.stored.edited && (forall id :: id in s.copies ==> s.copies[id].edited) && Possible(s, events)
    ensures Play(s, events).stored.edited
    ensures (forall id :: id in s.copies ==> Code(s.copies[id]) == Code(s.stored)) &&
            (forall e :: e in events && e.Store? ==> !e.call.op.Edit?) ==>
              Code(Play(s, events).stored) == Code(s.stored)
    decreases |events|
  {
    if events != [] {
      assert forall e :: e in events[1..] ==> e in events;
      if events[0].Store? {
        EditedKept(s.copies[events[0].id], events[0].call.op, events[0].call.env);
      }
      hide Apply, Code;
      HandEditStays(Step(s, events[0]), events[1..]);
    }
  }

  /** An activation that overlaps a hand edit can throw the edit away. */
  lemma OverlappingActivationLosesEdit(b: Binding, env: Env, code: string)
    requires !b.edited && b.compute.Some? && b.golden.Some? && b.golden.value.rows > 0
    requires env.admin && env.stores && MayWrite(b, env)
    ensures var out := Some(b.golden.value.output);
            var loaded := Step(Step(State(b, map[], {}, {}), Load(0)), Load(1));
            var edited := Step(loaded, Store(0, Call(Edit(code, out), env)));
            var after := Step(edited, Store(1, Call(Activate(out), env)));
            edited.stored.edited && !after.stored.edited && Code(after.stored) == Code(b)
  {
  }

  // ---- The operations on a loaded binding ----

  /** A loaded binding; what an operation returns is what it stores. */
  class Loaded {
    var value: Binding

    constructor (b: Binding)
      ensures value == b
    {
      value := b;
    }

    method MarkStaleOnly()
      modifies this
      ensures value == Staled(old(value))
    {
      if value.compute.Some? {
        value := value.(compute := Some(value.compute.value.(stale := true)));
      }
    }

    method Persist(env: Env) returns (stored: Option<Binding>)
      ensures stored == if env.stores then Some(value) else None
    {
      stored := if env.stores then Some(value) else None;
    }

    method CompileCompute(instruction: Option<string>, extra: map<string, string>, force: bool, model: string,
                          probe: Option<Probe>, run: Option<string>, generated: Generated, env: Env)
      returns (stored: Option<Binding>)
      modifies this
      ensures stored == Apply(old(value), Compile(instruction, extra, force, model, probe, run, generated), env)
      ensures old(value).edited ==> value == old(value)
    {
      if !env.admin || !env.computeEnabled || (value.write && !env.writesEnabled) || value.edited {
        return None;
      }
      var text := if instruction.Some? then instruction.value else value.instruction;
      if Blank(text) || probe.None? {
        return None;
      }
      var merged := value.answers + extra;
      var drifted := Drifted(value, probe.value);
      if drifted && value.write {
        MarkStaleOnly();
        stored := Persist(env);
        return;
      }
      if drifted {
        value := value.(fingerprint := if probe.value.fingerprint != "" then probe.value.fingerprint else probe.value.ofHeaders);
      }
      var key := CacheKey(text, merged, value.fingerprint, model);
      if !force && value.compute.Some? && value.compute.value.key == Some(key) && !value.compute.value.stale {
        if Reproduces(value, run) {
          return None;
        }
        MarkStaleOnly();
        stored := Persist(env);
        return;
      }
      if !generated.Ok? {
        return None;
      }
      value := value.(compute := Some(Compute(generated.code, false, false, Some(key))));
      value := value.(instruction := text, answers := merged);
      value := value.(golden := Some(generated.golden));
      stored := Persist(env);
    }

    method EditComputeCode(code: string, run: Option<string>, env: Env) returns (stored: Option<Binding>)
      modifies this
      ensures stored == Apply(old(value), Edit(code, run), env)
    {
      if !env.admin || value.compute.None? || (value.write && !env.writesEnabled) {
        return None;
      }
      if value.golden.None? || value.golden.value.rows == 0 || run.None? {
        return None;
      }
      value := value.(compute := Some(value.compute.value.(code := code)));
      value := value.(compute := Some(value.compute.value.(activated := false)));
      value := value.(compute := Some(value.compute.value.(stale := false)));
      value := value.(edited := true);
      value := value.(golden := Some(value.golden.value.(output := run.value)));
      stored := Persist(env);
    }

    method ActivateCompute(run: Option<string>, env: Env) returns (stored: Option<Binding>)
      modifies this
      ensures stored == Apply(old(value), Activate(run), env)
    {
      if !env.admin || value.compute.None? || (value.write && !env.writesEnabled) {
        return None;
      }
      if !Reproduces(value, run) {
        MarkStaleOnly();
        stored := Persist(env);
        return;
      }
      value := value.(compute := Some(value.compute.value.(activated := true)));
      value := value.(compute := Some(value.compute.value.(stale := false)));
      stored := Persist(env);
    }

    method MarkComputeStale(env: Env) returns (stored: Option<Binding>)
      modifies this
      ensures stored == Apply(old(value), MarkStale, env)
    {
      if value.compute.None? {
        return None;
      }
      MarkStaleOnly();
      value := value.(compute := Some(value.compute.value.(activated := false)));
      stored := Persist(env);
    }

    method RetestCompute(probe: Option<Probe>, run: Option<string>, env: Env) returns (stored: Option<Binding>)
      modifies this
      ensures stored == Apply(old(value), Retest(probe, run), env)
    {
      if value.compute.None? || probe.None? {
        return None;
      }
      if Drifted(value, probe.value) || !Reproduces(value, run) {
        MarkStaleOnly();
        value := value.(compute := Some(value.compute.value.(activated := false)));
      } else {
        value := value.(compute := Some(value.compute.value.(stale := false)));
      }
      stored := Persist(env);
    }
  }
}
