/**
 Edges of a step list: app/application/step_normalization.py, and the graph
 builder whose fall-through rule it writes down
 (app/infrastructure/orchestration/yaml_graph.py:1319-1405).

 A step id is a string ("" stands for a missing or empty one).  A destination
 field may hold a string, another truthy value, or nothing.
 */
module StepNormalization {

  const END_MARKER := "END"

  datatype Field = Missing | Text(text: string) | Other {
    predicate Truthy() {
      match this
      case Missing => false
      case Text(t) => t != ""
      case Other => true
    }
  }

  /** The step types the edge rules tell apart. */
  datatype Kind = Parallel | ProceedOr | Ordinary

  datatype Entry =
    | Malformed
    | Step(id: string, kind: Kind, targets: seq<Field>, routes: seq<Field>, next: Field)

  predicate HasId(e: Entry) {
    e.Step? && e.id != ""
  }

  function Ids(steps: seq<Entry>): set<string> {
    set e | e in steps && HasId(e) :: e.id
  }

  /** `_declares_an_edge` */
  predicate Declares(e: Entry)
    requires e.Step?
  {
    if e.kind.Parallel? then e.targets != []
    else e.next.Truthy() || e.routes != []
  }

  /** A step declares nothing when the fields its type is read by are missing or empty. */
  lemma DeclaresNothingExactlyWhen(e: Entry)
    requires e.Step?
    ensures !Declares(e) <==>
              if e.kind == Parallel then |e.targets| == 0
              else |e.routes| == 0 && (e.next == Missing || e.next == Text(""))
  {
  }

  /** The step names `dest` in a field its type is read by. */
  predicate Names(e: Entry, dest: string)
    requires e.Step?
  {
    if e.kind.Parallel? then Text(dest) in e.targets
    else Text(dest) in e.routes || e.next == Text(dest)
  }

  function DestsAmong(e: Entry, ids: set<string>): set<string>
    requires e.Step?
  {
    set d | d in ids && Names(e, d)
  }

  ghost predicate IsDeclaredEdge(steps: seq<Entry>, a: string, b: string) {
    b in Ids(steps) && exists i :: 0 <= i < |steps| && StatesEdge(steps[i], a, b)
  }

  ghost predicate StatesEdge(e: Entry, a: string, b: string) {
    HasId(e) && e.id == a && Names(e, b)
  }

  /** `declared_edges`: the step-to-step edges the document states outright. */
  method DeclaredEdges(steps: seq<Entry>) returns (edges: set<(string, string)>)
    ensures forall a, b :: (a, b) in edges <==> IsDeclaredEdge(steps, a, b)
  {
    var ids := Ids(steps);
    edges := {};
    for i := 0 to |steps|
      invariant forall a, b :: (a, b) in edges <==>
                               b in ids && exists k :: 0 <= k < i && StatesEdge(steps[k], a, b)
    {
      var step := steps[i];
      if HasId(step) {
        var found := set d | d in DestsAmong(step, ids) :: (step.id, d);
        ghost var before := edges;
        edges := edges + found;
        forall a, b
          ensures (a, b) in edges <==> b in ids && exists k :: 0 <= k < i + 1 && StatesEdge(steps[k], a, b)
        {
          assert (a, b) in found <==> b in ids && StatesEdge(step, a, b);
          if (a, b) in edges && (a, b) in found {
            assert StatesEdge(steps[i], a, b);
          }
        }
      }
    }
  }

  // ---- Normalisation ----

  /** The id of the first step with an id after entry i, or "". */
  function NextId(steps: seq<Entry>, i: nat): string
    requires i < |steps|
    decreases |steps| - i
  {
    if i + 1 == |steps| then ""
    else if HasId(steps[i + 1]) then steps[i + 1].id
    else NextId(steps, i + 1)
  }

  function FallThrough(steps: seq<Entry>, i: nat): string
    requires i < |steps|
  {
    if NextId(steps, i) == "" then END_MARKER else NextId(steps, i)
  }

  function WithDestination(e: Entry, dest: string): Entry
    requires e.Step?
  {
    if e.kind.Parallel? then e.(targets := [Text(dest)]) else e.(next := Text(dest))
  }

  /** Entry i is a step whose destination the array order decides. */
  predicate FallsThrough(steps: seq<Entry>, i: nat)
    requires i < |steps|
  {
    HasId(steps[i]) && !Declares(steps[i])
  }

  function NormalizedEntry(steps: seq<Entry>, i: nat): Entry
    requires i < |steps|
  {
    if FallsThrough(steps, i) then WithDestination(steps[i], FallThrough(steps, i)) else steps[i]
  }

  function Normalized(steps: seq<Entry>): (out: seq<Entry>)
    ensures |out| == |steps|
    ensures forall i :: 0 <= i < |out| ==> out[i] == NormalizedEntry(steps, i)
  {
    seq(|steps|, i requires 0 <= i < |steps| => NormalizedEntry(steps, i))
  }

  /** `positions` lists, in order, exactly the entries that are steps with an id. */
  ghost predicate ListsSteps(steps: seq<Entry>, positions: seq<nat>, upTo: nat)
    requires upTo <= |steps|
  {
    && (forall k :: 0 <= k < |positions| ==> positions[k] < upTo && HasId(steps[positions[k]]))
    && (forall k, l :: 0 <= k < l < |positions| ==> positions[k] < positions[l])
    && (forall i :: 0 <= i < upTo && HasId(steps[i]) ==> i in positions)
  }

  lemma {:induction false} NextIdIsFirst(steps: seq<Entry>, i: nat, j: nat)
    requires i < j <= |steps|
    requires forall k :: i < k < j ==> !HasId(steps[k])
    requires j < |steps| ==> HasId(steps[j])
    ensures NextId(steps, i) == if j < |steps| then steps[j].id else ""
    decreases |steps| - i
  {
    if i + 1 < j {
      NextIdIsFirst(steps, i + 1, j);
    }
  }

  /** The neighbour read off the position list is the next step with an id. */
  lemma NeighbourIsNextId(steps: seq<Entry>, positions: seq<nat>, idx: nat)
    requires ListsSteps(steps, positions, |steps|) && idx < |positions|
    ensures NextId(steps, positions[idx]) ==
            if idx + 1 < |positions| then steps[positions[idx + 1]].id else ""
  {
    var j := if idx + 1 < |positions| then positions[idx + 1] else |steps|;
    forall k | positions[idx] < k < j
      ensures !HasId(steps[k])
    {
      if HasId(steps[k]) {
        var m :| 0 <= m < |positions| && positions[m] == k;
      }
    }
    NextIdIsFirst(steps, positions[idx], j);
  }

  /** Which entries are steps: the comprehension at the head of `normalize_edges`. */
  method StepPositions(steps: seq<Entry>) returns (positions: seq<nat>)
    ensures ListsSteps(steps, positions, |steps|)
  {
    positions := [];
    for i := 0 to |steps|
      invariant ListsSteps(steps, positions, i)
    {
      ghost var before := positions;
      if HasId(steps[i]) {
        positions := positions + [i];
      }
      assert forall p :: p in before ==> p in positions;
    }
  }

  /** `normalize_edges` edits a copy of the list, one step at a time. */
  method NormalizeEdges(steps: seq<Entry>) returns (out: seq<Entry>)
    ensures out == Normalized(steps)
  {
    hide Declares, WithDestination, NextId;
    out := steps;
    var positions := StepPositions(steps);
    for idx := 0 to |positions|
      invariant |out| == |steps|
      invariant forall k :: 0 <= k < idx ==> out[positions[k]] == NormalizedEntry(steps, positions[k])
      invariant forall k :: idx <= k < |positions| ==> out[positions[k]] == steps[positions[k]]
      invariant forall i :: 0 <= i < |steps| && i !in positions ==> out[i] == steps[i]
    {
      var step := out[positions[idx]];
      NeighbourIsNextId(steps, positions, idx);
      if !Declares(step) {
        var neighbour := if idx + 1 < |positions| then out[positions[idx + 1]].id else "";
        var dest := if neighbour != "" then neighbour else END_MARKER;
        out := out[positions[idx] := WithDestination(step, dest)];
      }
    }
    forall i | 0 <= i < |steps|
      ensures out[i] == NormalizedEntry(steps, i)
    {
      if i in positions {
        var k :| 0 <= k < |positions| && positions[k] == i;
      }
    }
  }

  // ---- What normalisation keeps ----

  lemma NormalizedKeepsIds(steps: seq<Entry>)
    ensures forall i :: 0 <= i < |steps| ==>
              && HasId(Normalized(steps)[i]) == HasId(steps[i])
              && (HasId(steps[i]) ==> Normalized(steps)[i].id == steps[i].id)
    ensures Ids(Normalized(steps)) == Ids(steps)
  {
    var out := Normalized(steps);
    forall d
      ensures d in Ids(out) <==> d in Ids(steps)
    {
      if d in Ids(out) {
        var i :| 0 <= i < |out| && HasId(out[i]) && out[i].id == d;
        assert HasId(steps[i]) && steps[i] in steps;
      }
      if d in Ids(steps) {
        var i :| 0 <= i < |steps| && HasId(steps[i]) && steps[i].id == d;
        assert HasId(out[i]) && out[i] in out;
      }
    }
  }

  lemma {:induction false} NormalizedKeepsNextId(steps: seq<Entry>, i: nat)
    requires i < |steps|
    ensures NextId(Normalized(steps), i) == NextId(steps, i)
    decreases |steps| - i
  {
    if i + 1 < |steps| {
      NormalizedKeepsNextId(steps, i + 1);
    }
  }

  lemma NothingFallsThroughTwice(steps: seq<Entry>, i: nat)
    requires i < |steps|
    ensures !FallsThrough(Normalized(steps), i)
  {
    assert FallThrough(steps, i) != "";
  }

  /** Normalising twice is normalising once. */
  lemma Idempotent(steps: seq<Entry>)
    ensures Normalized(Normalized(steps)) == Normalized(steps)
  {
    var once := Normalized(steps);
    forall i | 0 <= i < |steps|
      ensures Normalized(once)[i] == once[i]
    {
      NothingFallsThroughTwice(steps, i);
    }
  }

  /** The edge is one normalisation wrote: from a step that fell through to its fall-through destination. */
  ghost predicate Invented(steps: seq<Entry>, a: string, b: string) {
    b in Ids(steps) &&
    exists i :: 0 <= i < |steps| && FallsThrough(steps, i) && steps[i].id == a && FallThrough(steps, i) == b
  }

  /** The normalised list states the declared edges, the invented ones, and no others. */
  lemma NormalizedEdges(steps: seq<Entry>, a: string, b: string)
    ensures IsDeclaredEdge(Normalized(steps), a, b) <==> IsDeclaredEdge(steps, a, b) || Invented(steps, a, b)
  {
    var out := Normalized(steps);
    NormalizedKeepsIds(steps);
    if IsDeclaredEdge(out, a, b) {
      var i :| 0 <= i < |out| && StatesEdge(out[i], a, b);
      if !FallsThrough(steps, i) {
        assert StatesEdge(steps[i], a, b);
      } else {
        assert FallThrough(steps, i) == b;
      }
    }
    if IsDeclaredEdge(steps, a, b) {
      var i :| 0 <= i < |steps| && StatesEdge(steps[i], a, b);
      if FallsThrough(steps, i) {
        UndeclaredNamesNothing(steps[i], b);
      } else {
        assert StatesEdge(out[i], a, b);
      }
    }
    if Invented(steps, a, b) {
      var i :| 0 <= i < |steps| && FallsThrough(steps, i) && steps[i].id == a && FallThrough(steps, i) == b;
      assert StatesEdge(out[i], a, b);
    }
  }

  lemma UndeclaredNamesNothing(e: Entry, dest: string)
    requires HasId(e) && !Declares(e) && Names(e, dest)
    ensures dest == ""
  {
  }

  /** `implicit_edges`: what normalisation had to invent (the source sorts the result). */
  method ImplicitEdges(steps: seq<Entry>) returns (edges: set<(string, string)>)
    ensures forall a, b :: (a, b) in edges <==> Invented(steps, a, b) && !IsDeclaredEdge(steps, a, b)
  {
    var out := NormalizeEdges(steps);
    var all := DeclaredEdges(out);
    var stated := DeclaredEdges(steps);
    edges := all - stated;
    forall a, b
      ensures (a, b) in edges <==> Invented(steps, a, b) && !IsDeclaredEdge(steps, a, b)
    {
      NormalizedEdges(steps, a, b);
    }
  }

  /** After normalisation there is nothing left to invent. */
  lemma NothingLeftImplicit(steps: seq<Entry>, a: string, b: string)
    ensures !Invented(Normalized(steps), a, b)
  {
    var out := Normalized(steps);
    if Invented(out, a, b) {
      var i :| 0 <= i < |out| && FallsThrough(out, i) && out[i].id == a && FallThrough(out, i) == b;
      NothingFallsThroughTwice(steps, i);
    }
  }

  // ---- What the engine runs ----

  datatype Target = End | To(id: string)

  function Resolve(f: Field, ids: set<string>): Target {
    if f.Text? && f.text in ids then To(f.text) else End
  }

  function ResolveAll(fields: seq<Field>, ids: set<string>): set<Target> {
    set f | f in fields :: Resolve(f, ids)
  }

  /** What array order gives step i: the next step, or the end of the graph. */
  function Positional(steps: seq<Entry>, i: nat): Target
    requires i < |steps|
  {
    if NextId(steps, i) == "" then End else To(NextId(steps, i))
  }

  /** The one destination a `proceed_or` step is read by. */
  function Chosen(e: Entry): Field
    requires e.Step?
  {
    if e.next.Truthy() then e.next else if e.routes != [] then e.routes[0] else Missing
  }

  /** The destinations the graph builder connects step i to. */
  function EngineTargets(steps: seq<Entry>, i: nat): set<Target>
    requires i < |steps| && HasId(steps[i])
  {
    var e, ids := steps[i], Ids(steps);
    match e.kind
    case Parallel =>
      if e.targets == [] then {Positional(steps, i)} else ResolveAll(e.targets, ids)
    case ProceedOr =>
      if Resolve(Chosen(e), ids).To? then {Resolve(Chosen(e), ids)} else {Positional(steps, i)}
    case Ordinary =>
      if e.routes != [] then ResolveAll(e.routes, ids)
      else if e.next.Truthy() then {Resolve(e.next, ids)}
      else {Positional(steps, i)}
  }

  /** A step is called "END" and the last step relies on falling off the list. */
  ghost predicate EndCaptured(steps: seq<Entry>) {
    END_MARKER in Ids(steps) &&
    exists i :: 0 <= i < |steps| && FallsThrough(steps, i) && NextId(steps, i) == ""
  }

  lemma StepTargetsKept(steps: seq<Entry>, i: nat)
    requires i < |steps| && HasId(steps[i])
    requires HasId(Normalized(steps)[i])
    requires FallsThrough(steps, i) && NextId(steps, i) == "" ==> END_MARKER !in Ids(steps)
    ensures EngineTargets(Normalized(steps), i) == EngineTargets(steps, i)
  {
    var out := Normalized(steps);
    NormalizedKeepsIds(steps);
    NormalizedKeepsNextId(steps, i);
    if FallsThrough(steps, i) {
      NextIdIsAnId(steps, i);
      var dest := Text(FallThrough(steps, i));
      assert Resolve(dest, Ids(steps)) == Positional(steps, i);
      if steps[i].kind.Parallel? {
        assert out[i].targets == [dest];
        assert dest in out[i].targets;
      }
    }
  }

  lemma {:induction false} NextIdIsAnId(steps: seq<Entry>, i: nat)
    requires i < |steps|
    ensures NextId(steps, i) == "" || NextId(steps, i) in Ids(steps)
    decreases |steps| - i
  {
    if i + 1 < |steps| {
      if HasId(steps[i + 1]) {
        assert steps[i + 1] in steps;
      } else {
        NextIdIsAnId(steps, i + 1);
      }
    }
  }

  lemma CapturedTargetsChange(steps: seq<Entry>, i: nat)
    requires i < |steps| && FallsThrough(steps, i) && NextId(steps, i) == ""
    requires END_MARKER in Ids(steps)
    requires HasId(Normalized(steps)[i])
    ensures EngineTargets(steps, i) == {End}
    ensures EngineTargets(Normalized(steps), i) == {To(END_MARKER)}
  {
    var out := Normalized(steps);
    NormalizedKeepsIds(steps);
    if steps[i].kind.Parallel? {
      assert out[i].targets == [Text(END_MARKER)];
      assert Text(END_MARKER) in out[i].targets;
    }
  }

  /**
   Normalisation never changes what a definition runs, unless a step named
   "END" captures the marker written for a last step that declares nothing.
   */
  lemma MeaningKept(steps: seq<Entry>)
    ensures (forall i :: 0 <= i < |steps| && HasId(steps[i]) ==>
               && HasId(Normalized(steps)[i])
               && EngineTargets(Normalized(steps), i) == EngineTargets(steps, i))
            <==> !EndCaptured(steps)
  {
    NormalizedKeepsIds(steps);
    if EndCaptured(steps) {
      var i :| 0 <= i < |steps| && FallsThrough(steps, i) && NextId(steps, i) == "";
      CapturedTargetsChange(steps, i);
      assert To(END_MARKER) !in EngineTargets(steps, i);
    } else {
      forall i | 0 <= i < |steps| && HasId(steps[i])
        ensures HasId(Normalized(steps)[i])
        ensures EngineTargets(Normalized(steps), i) == EngineTargets(steps, i)
      {
        StepTargetsKept(steps, i);
      }
    }
  }

  // ---- What is drawn is what runs ----

  function Drawn(steps: seq<Entry>, i: nat): set<Target>
    requires i < |steps| && HasId(steps[i])
  {
    set d | d in DestsAmong(steps[i], Ids(steps)) :: To(d)
  }

  /**
   When the edges drawn from a step are the ones the engine follows: no route
   hides a `next`, and a `proceed_or` step names just the step it goes to.
   */
  ghost predicate DrawsWhatRuns(steps: seq<Entry>, i: nat)
    requires i < |steps| && HasId(steps[i])
  {
    var e, ids := steps[i], Ids(steps);
    match e.kind
    case Parallel => true
    case Ordinary => e.routes != [] && e.next.Text? && e.next.text in ids ==> e.next in e.routes
    case ProceedOr =>
      if Resolve(Chosen(e), ids).To? then
        forall d :: d in ids && Names(e, d) ==> d == Chosen(e).text
      else if NextId(steps, i) == "" then
        forall d :: d in ids ==> !Names(e, d)
      else
        forall d :: d in ids ==> (Names(e, d) <==> d == NextId(steps, i))
  }

  /** On a step that declares its edges, the canvas and the engine agree exactly under `DrawsWhatRuns`. */
  lemma DrawnIsRun(steps: seq<Entry>, i: nat)
    requires i < |steps| && HasId(steps[i]) && Declares(steps[i])
    ensures (forall d :: To(d) in Drawn(steps, i) <==> To(d) in EngineTargets(steps, i))
            <==> DrawsWhatRuns(steps, i)
  {
    var e, ids := steps[i], Ids(steps);
    NextIdIsAnId(steps, i);
    forall d
      ensures To(d) in Drawn(steps, i) <==> d in ids && Names(e, d)
    {
    }
    match e.kind
    case Parallel =>
      forall d
        ensures To(d) in EngineTargets(steps, i) <==> d in ids && Text(d) in e.targets
      {
        ResolvesTo(e.targets, ids, d);
      }
    case Ordinary =>
      forall d
        ensures To(d) in EngineTargets(steps, i) <==>
                d in ids && if e.routes != [] then Text(d) in e.routes else e.next == Text(d)
      {
        ResolvesTo(e.routes, ids, d);
      }
      if e.routes != [] && e.next.Text? && e.next.text in ids && e.next !in e.routes {
        assert To(e.next.text) in Drawn(steps, i);
      }
    case ProceedOr =>
      if Resolve(Chosen(e), ids).To? {
        assert To(Chosen(e).text) in EngineTargets(steps, i);
      }
  }

  lemma ResolvesTo(fields: seq<Field>, ids: set<string>, d: string)
    ensures To(d) in ResolveAll(fields, ids) <==> d in ids && Text(d) in fields
  {
    if d in ids && Text(d) in fields {
      assert Resolve(Text(d), ids) == To(d);
    }
  }

  /** A `proceed_or` that declares "END" mid-list is drawn as an end, and runs on. */
  lemma ProceedOrRunsPastItsEnd()
    ensures var steps := [Step("a", ProceedOr, [], [], Text(END_MARKER)), Step("b", Ordinary, [], [], Text(END_MARKER))];
            Drawn(steps, 0) == {} && EngineTargets(steps, 0) == {To("b")}
  {
    var steps := [Step("a", ProceedOr, [], [], Text(END_MARKER)), Step("b", Ordinary, [], [], Text(END_MARKER))];
    assert Ids(steps) == {"a", "b"} by {
      assert steps[0] in steps && steps[1] in steps;
    }
    assert NextId(steps, 0) == "b";
  }
}
