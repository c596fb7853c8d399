/**
 Streaming a stored data artifact: the bounded queue between the copying thread and
 the reader, the first block read early, and the framing of records as one JSON
 array, app/application/data_artifacts.py:392-491.
 */
module Streaming {
  import opened Common

  type Byte = b: int | 0 <= b < 256
  type Block = seq<Byte>

  function Concat(blocks: seq<Block>): Block {
    if blocks == [] then [] else Concat(blocks[..|blocks| - 1]) + blocks[|blocks| - 1]
  }

  lemma {:induction false} ConcatAppend(a: seq<Block>, b: seq<Block>)
    ensures Concat(a + b) == Concat(a) + Concat(b)
  {
    if b == [] {
      assert a + b == a;
    } else {
      var k := |b| - 1;
      ConcatAppend(a, b[..k]);
      assert (a + b)[..|a + b| - 1] == a + b[..k];
    }
  }

  lemma ConcatPrefix(blocks: seq<Block>, k: nat)
    requires k < |blocks|
    ensures Concat(blocks[..k + 1]) == Concat(blocks[..k]) + blocks[k]
  {
    assert blocks[..k + 1][..k] == blocks[..k];
  }

  lemma ConcatOne(block: Block)
    ensures Concat([block]) == block
  {
    assert [block][..0] == [];
  }

  // ---- The queue between the copy and the reader ----

  datatype Item = Data(block: Block) | Eof | Fault

  datatype Outcome = Reading | Complete | Raised

  /** The reader: at a yield, waiting for a take on a worker thread, or handed what that took. */
  datatype Reader = Idle | Asked | Got(item: Item)

  /**
   The store's thread writes `blocks` in order, `sent` of them so far.  The final
   item is put from the event loop itself: `held` is that put while it waits for
   room, and `ended` says it is done.
   */
  datatype State = State(blocks: seq<Block>, sent: nat, held: Option<Item>, ended: bool, queue: seq<Item>,
                         reader: Reader, yielded: seq<Block>, outcome: Outcome)

  datatype Event =
    | Write                   // the copying thread puts a block
    | Enter(error: bool)      // the copy is over and the loop calls finish
    | Finish                  // its put finds room
    | Ask                     // the reader asks for a take
    | Take                    // the take gets an item, on its own thread
    | Receive                 // the reader goes on with it

  /** Nothing but threads runs while the final put holds the event loop. */
  predicate LoopRuns(s: State) {
    s.held.None?
  }

  predicate Enabled(s: State, depth: nat, e: Event) {
    match e
    case Write => !s.ended && s.held.None? && s.sent < |s.blocks| && (s.blocks[s.sent] == [] || |s.queue| < depth)
    case Enter(error) => LoopRuns(s) && !s.ended && (error || s.sent == |s.blocks|)
    case Finish => s.held.Some? && |s.queue| < depth
    case Ask => LoopRuns(s) && s.outcome.Reading? && s.reader.Idle?
    case Take => s.reader.Asked? && s.queue != []
    case Receive => LoopRuns(s) && s.reader.Got?
  }

  function Step(s: State, depth: nat, e: Event): State
    requires Enabled(s, depth, e)
  {
    match e
    case Write =>
      var block := s.blocks[s.sent];
      s.(sent := s.sent + 1, queue := if block == [] then s.queue else s.queue + [Data(block)])
    case Enter(error) => s.(held := Some(if error then Fault else Eof))
    case Finish => s.(held := None, ended := true, queue := s.queue + [s.held.value])
    case Ask => s.(reader := Asked)
    case Take => s.(reader := Got(s.queue[0]), queue := s.queue[1..])
    case Receive =>
      var t := s.(reader := Idle);
      match s.reader.item
      case Data(block) => t.(yielded := s.yielded + [block])
      case Eof => t.(outcome := Complete)
      case Fault => t.(outcome := Raised)
  }

  predicate Possible(s: State, depth: nat, events: seq<Event>)
    decreases |events|
  {
    events == [] || (Enabled(s, depth, events[0]) && Possible(Step(s, depth, events[0]), depth, events[1..]))
  }

  function Play(s: State, depth: nat, events: seq<Event>): State
    requires Possible(s, depth, events)
    decreases |events|
  {
    if events == [] then s else Play(Step(s, depth, events[0]), depth, events[1..])
  }

  function Start(blocks: seq<Block>): State {
    State(blocks, 0, None, false, [], Idle, [], Reading)
  }

  /** What has been put and not yet passed on, oldest first. */
  function InFlight(s: State): seq<Item> {
    (if s.reader.Got? then [s.reader.item] else []) + s.queue
  }

  /** The data among the items. */
  function Queued(queue: seq<Item>): Block {
    if queue == [] then []
    else
      var k := |queue| - 1;
      Queued(queue[..k]) + if queue[k].Data? then queue[k].block else []
  }

  lemma QueuedLast(items: seq<Item>, item: Item)
    ensures Queued(items + [item]) == Queued(items) + if item.Data? then item.block else []
  {
    assert (items + [item])[..|items|] == items;
  }

  lemma {:induction false} QueuedFirst(queue: seq<Item>)
    requires queue != []
    ensures Queued(queue) == (if queue[0].Data? then queue[0].block else []) + Queued(queue[1..])
  {
    NothingQueued();
    hide Queued;
    var k := |queue| - 1;
    var front, item := queue[..k], queue[k];
    assert queue == front + [item];
    QueuedLast(front, item);
    if k == 0 {
      assert front == [] && queue[1..] == [];
    } else {
      QueuedFirst(front);
      assert queue[1..] == front[1..] + [item];
      QueuedLast(front[1..], item);
    }
  }

  lemma NothingQueued()
    ensures Queued([]) == []
  {
  }

  function NonEmpty(blocks: seq<Block>): nat {
    if blocks == [] then 0
    else NonEmpty(blocks[..|blocks| - 1]) + if blocks[|blocks| - 1] == [] then 0 else 1
  }

  /** Nothing is lost or reordered. */
  ghost predicate Conserved(s: State) {
    s.sent <= |s.blocks| && Concat(s.yielded) + Queued(InFlight(s)) == Concat(s.blocks[..s.sent])
  }

  /** Only the last item can be an end, it is there once put, and one without an error comes after all blocks. */
  ghost predicate EndsIn(items: seq<Item>, ended: bool, outcome: Outcome, whole: bool) {
    && (forall i :: 0 <= i < |items| && !items[i].Data? ==> ended && i == |items| - 1)
    && (ended && outcome.Reading? ==> items != [] && !items[|items| - 1].Data?)
    && (!outcome.Reading? ==> ended && items == [])
    && (outcome.Complete? || (items != [] && items[|items| - 1].Eof?) ==> whole)
  }

  ghost predicate EndsLast(s: State) {
    && EndsIn(InFlight(s), s.ended, s.outcome, s.sent == |s.blocks|)
    && (s.held.Some? ==> !s.ended && !s.held.value.Data? && (s.held.value.Eof? ==> s.sent == |s.blocks|))
  }

  ghost predicate Invariant(s: State, depth: nat) {
    && Conserved(s) && EndsLast(s) && |s.queue| <= depth
    && (!s.ended ==> |s.queue| <= NonEmpty(s.blocks[..s.sent]))
  }

  lemma WriteConserves(s: State, depth: nat)
    requires Conserved(s) && Enabled(s, depth, Write)
    ensures Conserved(Step(s, depth, Write))
  {
    hide Concat, Queued;
    var t, items, block := Step(s, depth, Write), InFlight(s), s.blocks[s.sent];
    ConcatPrefix(s.blocks, s.sent);
    assert InFlight(t) == if block == [] then items else items + [Data(block)];
    QueuedLast(items, Data(block));
    assert Concat(s.yielded) + (Queued(items) + block) == (Concat(s.yielded) + Queued(items)) + block;
  }

  lemma ReceiveConserves(s: State, depth: nat)
    requires Conserved(s) && Enabled(s, depth, Receive)
    ensures Conserved(Step(s, depth, Receive))
  {
    hide Concat, Queued;
    var t, items := Step(s, depth, Receive), InFlight(s);
    QueuedFirst(items);
    assert items[1..] == InFlight(t);
    if s.reader.item.Data? {
      var block := s.reader.item.block;
      ConcatPrefix(t.yielded, |s.yielded|);
      assert t.yielded[..|s.yielded|] == s.yielded && t.yielded[..|s.yielded| + 1] == t.yielded;
      assert Concat(s.yielded) + (block + Queued(t.queue)) == (Concat(s.yielded) + block) + Queued(t.queue);
    }
  }

  lemma StepConserves(s: State, depth: nat, e: Event)
    requires Conserved(s) && Enabled(s, depth, e) && (s.held.Some? ==> !s.held.value.Data?)
    ensures Conserved(Step(s, depth, e))
  {
    var t, items := Step(s, depth, e), InFlight(s);
    match e
    case Write => WriteConserves(s, depth);
    case Receive => ReceiveConserves(s, depth);
    case Finish =>
      assert InFlight(t) == items + [s.held.value];
      QueuedLast(items, s.held.value);
    case Take =>
      hide Queued, Concat;
      assert InFlight(t) == items;
    case _ =>
      hide Queued, Concat;
      assert InFlight(t) == items;
  }

  lemma EndsInMore(items: seq<Item>, item: Item, outcome: Outcome, whole: bool, after: bool)
    requires EndsIn(items, false, outcome, whole) && (item.Eof? ==> after)
    ensures EndsIn(items + [item], !item.Data?, outcome, after)
  {
  }

  lemma EndsInRest(item: Item, rest: seq<Item>, ended: bool, outcome: Outcome, whole: bool)
    requires EndsIn([item] + rest, ended, outcome, whole)
    ensures item.Data? ==> EndsIn(rest, ended, outcome, whole)
    ensures !item.Data? ==> rest == [] && ended && EndsIn([], ended, if item.Eof? then Complete else Raised, whole)
  {
    var items := [item] + rest;
    assert items[0] == item;
    assert forall i :: 0 <= i < |rest| ==> rest[i] == items[i + 1];
  }

  lemma StepEndsLast(s: State, depth: nat, e: Event)
    requires EndsLast(s) && Enabled(s, depth, e)
    ensures EndsLast(Step(s, depth, e))
  {
    var t, items := Step(s, depth, e), InFlight(s);
    match e
    case Write =>
      var block := s.blocks[s.sent];
      assert InFlight(t) == if block == [] then items else items + [Data(block)];
      EndsInMore(items, Data(block), s.outcome, false, t.sent == |t.blocks|);
    case Finish =>
      assert InFlight(t) == items + [s.held.value];
      EndsInMore(items, s.held.value, s.outcome, s.sent == |s.blocks|, s.sent == |s.blocks|);
    case Receive => EndsInRest(s.reader.item, s.queue, s.ended, s.outcome, s.sent == |s.blocks|);
    case _ =>
      hide EndsIn;
      assert InFlight(t) == items;
  }

  lemma StepKeepsInvariant(s: State, depth: nat, e: Event)
    requires Invariant(s, depth) && Enabled(s, depth, e)
    ensures Invariant(Step(s, depth, e), depth)
  {
    assert s.held.Some? ==> !s.held.value.Data?;
    assert s.sent <= |s.blocks|;
    hide Conserved, EndsLast;
    StepConserves(s, depth, e);
    StepEndsLast(s, depth, e);
    if e.Write? {
      var t := Step(s, depth, e);
      assert t.blocks[..t.sent][..s.sent] == s.blocks[..s.sent];
    }
  }

  lemma {:induction false} PlayKeepsInvariant(s: State, depth: nat, events: seq<Event>)
    requires Invariant(s, depth) && Possible(s, depth, events)
    ensures Invariant(Play(s, depth, events), depth) && Play(s, depth, events).blocks == s.blocks
    decreases |events|
  {
    hide Invariant;
    if events != [] {
      StepKeepsInvariant(s, depth, events[0]);
      PlayKeepsInvariant(Step(s, depth, events[0]), depth, events[1..]);
    }
  }

  lemma StartInvariant(blocks: seq<Block>, depth: nat)
    ensures Invariant(Start(blocks), depth)
  {
    assert blocks[..0] == [];
  }

  /**
   For every schedule of the two sides, a download that completes has yielded
   exactly the stored bytes, and one that raises or is still going a prefix of them.
   */
  lemma DownloadsAreExact(blocks: seq<Block>, depth: nat, events: seq<Event>)
    requires Possible(Start(blocks), depth, events)
    ensures var t := Play(Start(blocks), depth, events);
            && Concat(t.yielded) <= Concat(blocks)
            && (t.outcome.Complete? ==> Concat(t.yielded) == Concat(blocks))
            && |t.queue| <= depth
  {
    StartInvariant(blocks, depth);
    PlayKeepsInvariant(Start(blocks), depth, events);
    var t := Play(Start(blocks), depth, events);
    hide Play, Possible, Concat, Queued;
    YieldedIsPrefix(t, depth);
  }

  lemma YieldedIsPrefix(t: State, depth: nat)
    requires Invariant(t, depth)
    ensures Concat(t.yielded) <= Concat(t.blocks)
    ensures t.outcome.Complete? ==> Concat(t.yielded) == Concat(t.blocks)
  {
    var y, q, rest := Concat(t.yielded), Queued(InFlight(t)), Concat(t.blocks[t.sent..]);
    assert t.blocks == t.blocks[..t.sent] + t.blocks[t.sent..];
    ConcatAppend(t.blocks[..t.sent], t.blocks[t.sent..]);
    assert Concat(t.blocks) == y + (q + rest);
    if t.outcome.Complete? {
      assert InFlight(t) == [] && t.sent == |t.blocks|;
      assert t.blocks[t.sent..] == [];
    }
  }

  // ---- When a download comes to a standstill ----

  /** What is left to put, to take and to pass on. */
  function Work(s: State): int {
    4 * (|s.blocks| - s.sent) + (if s.ended then 0 else if s.held.Some? then 4 else 5) + 3 * |s.queue|
    + match s.reader case Idle => 1 case Asked => 0 case Got(_) => 2
  }

  /** The final put waits for room on the event loop, and no take is under way that could make any. */
  predicate Stalled(s: State, depth: nat) {
    s.held.Some? && |s.queue| == depth && !s.reader.Asked?
  }

  lemma WorkShrinks(s: State, depth: nat, e: Event)
    requires Enabled(s, depth, e) && (s.held.Some? ==> !s.ended)
    ensures Work(Step(s, depth, e)) < Work(s)
  {
  }

  /** Every move uses up work, and while the reader reads there is one unless the download has stalled. */
  lemma SomebodyCanMove(s: State, depth: nat)
    requires Invariant(s, depth) && depth > 0
    ensures Work(s) >= 0 && forall e :: Enabled(s, depth, e) ==> Work(Step(s, depth, e)) < Work(s)
    ensures s.outcome.Reading? ==> ((forall e :: !Enabled(s, depth, e)) <==> Stalled(s, depth))
  {
    forall e | Enabled(s, depth, e)
      ensures Work(Step(s, depth, e)) < Work(s)
    {
      WorkShrinks(s, depth, e);
    }
    assert s.sent <= |s.blocks|;
    hide Conserved, NonEmpty, Step;
    if s.outcome.Reading? && !Stalled(s, depth) {
      assert Enabled(s, depth, Finish) || Enabled(s, depth, Take) || Enabled(s, depth, Ask) || Enabled(s, depth, Receive)
             || Enabled(s, depth, Write) || Enabled(s, depth, Enter(false));
    }
  }

  /** So no schedule goes on for ever, and one that cannot go on has come to its end or stalled. */
  lemma {:induction false} DownloadsEnd(s: State, depth: nat, events: seq<Event>)
    requires Invariant(s, depth) && Possible(s, depth, events) && depth > 0
    ensures |events| <= Work(s)
    ensures var t := Play(s, depth, events);
            (forall e :: !Enabled(t, depth, e)) ==> !t.outcome.Reading? || Stalled(t, depth)
    decreases |events|
  {
    hide Invariant;
    SomebodyCanMove(s, depth);
    if events != [] {
      StepKeepsInvariant(s, depth, events[0]);
      DownloadsEnd(Step(s, depth, events[0]), depth, events[1..]);
    }
  }

  lemma {:induction false} NonEmptyPrefix(blocks: seq<Block>, n: nat)
    requires n <= |blocks|
    ensures NonEmpty(blocks[..n]) <= NonEmpty(blocks)
    decreases |blocks| - n
  {
    if n < |blocks| {
      NonEmptyPrefix(blocks, n + 1);
      assert blocks[..n + 1][..n] == blocks[..n];
    } else {
      assert blocks[..n] == blocks;
    }
  }

  /** A reader that keeps the queue full, and is not asking when the copy ends, stalls the download. */
  lemma {:induction false} StallingSchedule(s: State, depth: nat) returns (events: seq<Event>)
    requires Invariant(s, depth) && depth > 0 && s.held.None? && !s.ended && s.reader.Idle?
    requires |s.queue| + NonEmpty(s.blocks) - NonEmpty(s.blocks[..s.sent]) >= depth
    ensures Possible(s, depth, events) && Stalled(Play(s, depth, events), depth)
    decreases |s.blocks| - s.sent, |s.queue|
  {
    assert s.sent <= |s.blocks|;
    hide Possible, Play, Conserved, EndsLast;
    if s.sent == |s.blocks| {
      assert s.blocks[..s.sent] == s.blocks;
      events := StallsAtTheEnd(s, depth);
    } else if s.blocks[s.sent] == [] || |s.queue| < depth {
      var t := Step(s, depth, Write);
      StepKeepsInvariant(s, depth, Write);
      assert s.blocks[..s.sent + 1][..s.sent] == s.blocks[..s.sent];
      var rest := StallingSchedule(t, depth);
      Before(s, depth, Write, rest);
      events := [Write] + rest;
    } else {
      assert s.blocks[..s.sent + 1][..s.sent] == s.blocks[..s.sent];
      NonEmptyPrefix(s.blocks, s.sent + 1);
      var t := OneRound(s, depth);
      var rest := StallingSchedule(t, depth);
      var asked := Step(s, depth, Ask);
      Before(Step(asked, depth, Take), depth, Receive, rest);
      Before(asked, depth, Take, [Receive] + rest);
      Before(s, depth, Ask, [Take] + ([Receive] + rest));
      events := [Ask] + ([Take] + ([Receive] + rest));
    }
  }

  lemma StallsAtTheEnd(s: State, depth: nat) returns (events: seq<Event>)
    requires s.held.None? && !s.ended && s.reader.Idle? && s.sent == |s.blocks| && |s.queue| == depth
    ensures Possible(s, depth, events) && Stalled(Play(s, depth, events), depth)
  {
    Before(s, depth, Enter(false), []);
    events := [Enter(false)] + [];
  }

  lemma Before(s: State, depth: nat, e: Event, rest: seq<Event>)
    requires Enabled(s, depth, e) && Possible(Step(s, depth, e), depth, rest)
    ensures Possible(s, depth, [e] + rest)
    ensures Play(s, depth, [e] + rest) == Play(Step(s, depth, e), depth, rest)
  {
    assert ([e] + rest)[1..] == rest;
  }

  /** The reader takes one block off a queue that has no end in it. */
  lemma OneRound(s: State, depth: nat) returns (t: State)
    requires Invariant(s, depth) && s.held.None? && !s.ended && s.reader.Idle? && s.queue != []
    ensures Enabled(s, depth, Ask) && Enabled(Step(s, depth, Ask), depth, Take)
    ensures Enabled(Step(Step(s, depth, Ask), depth, Take), depth, Receive)
    ensures t == Step(Step(Step(s, depth, Ask), depth, Take), depth, Receive)
    ensures Invariant(t, depth) && t.held.None? && !t.ended && t.reader.Idle?
    ensures t.blocks == s.blocks && t.sent == s.sent && t.queue == s.queue[1..]
  {
    assert InFlight(s) == s.queue;
    StepKeepsInvariant(s, depth, Ask);
    var asked := Step(s, depth, Ask);
    StepKeepsInvariant(asked, depth, Take);
    var after := Step(asked, depth, Take);
    StepKeepsInvariant(after, depth, Receive);
    t := Step(after, depth, Receive);
  }

  /** An artifact can stall exactly when its non-empty blocks fill the queue. */
  lemma StallsExactlyWhenQueueFills(blocks: seq<Block>, depth: nat)
    requires depth > 0
    ensures (exists events :: Possible(Start(blocks), depth, events) && Stalled(Play(Start(blocks), depth, events), depth))
            <==> NonEmpty(blocks) >= depth
  {
    StartInvariant(blocks, depth);
    if events :| Possible(Start(blocks), depth, events) && Stalled(Play(Start(blocks), depth, events), depth) {
      PlayKeepsInvariant(Start(blocks), depth, events);
      NonEmptyPrefix(blocks, Play(Start(blocks), depth, events).sent);
    }
    if NonEmpty(blocks) >= depth {
      assert blocks[..0] == [];
      var events := StallingSchedule(Start(blocks), depth);
    }
  }

  // ---- A reader that leaves ----

  /**
   After the reader is gone: the items in the queue, the blocks the copying thread
   still has to put, whether the final item is still to be put, and whether a take
   the reader asked for is still under way.
   */
  datatype Left = Left(queued: nat, blocks: nat, final: bool, taking: bool)

  function LeftBehind(s: State): Left
    requires s.sent <= |s.blocks|
  {
    Left(|s.queue|, if s.ended then 0 else NonEmpty(s.blocks[s.sent..]), !s.ended, s.reader.Asked?)
  }

  lemma {:induction false} NonEmptyFirst(blocks: seq<Block>)
    requires blocks != []
    ensures NonEmpty(blocks) == (if blocks[0] == [] then 0 else 1) + NonEmpty(blocks[1..])
  {
    var k := |blocks| - 1;
    if k > 0 {
      NonEmptyFirst(blocks[..k]);
      assert blocks[..k][1..] == blocks[1..][..k - 1];
    } else {
      assert blocks[..0] == [] && blocks[1..] == [];
    }
  }

  datatype Move = PutBlock | PutFinal | Drain

  predicate CanMove(l: Left, depth: nat, m: Move) {
    match m
    case PutBlock => l.queued < depth && l.blocks > 0
    case PutFinal => l.queued < depth && l.final
    case Drain => l.taking && l.queued > 0
  }

  /** Neither the thread nor the clean-up can go on: each is done or waits for room nobody makes. */
  predicate Blocked(l: Left, depth: nat) {
    !CanMove(l, depth, PutBlock) && !CanMove(l, depth, PutFinal) && !CanMove(l, depth, Drain)
  }

  function AfterMove(l: Left, depth: nat, m: Move): Left
    requires CanMove(l, depth, m)
  {
    match m
    case PutBlock => l.(queued := l.queued + 1, blocks := l.blocks - 1)
    case PutFinal => l.(queued := l.queued + 1, final := false)
    case Drain => l.(queued := l.queued - 1, taking := false)
  }

  /** What is left changes with each step of the copy and the take just as the moves say. */
  lemma LeftFollows(s: State, depth: nat, e: Event)
    requires Invariant(s, depth) && Enabled(s, depth, e)
    ensures s.sent <= |s.blocks| && Step(s, depth, e).sent <= |Step(s, depth, e).blocks|
    ensures var l, m := LeftBehind(s), LeftBehind(Step(s, depth, e));
            && (e.Write? && s.blocks[s.sent] == [] ==> m == l)
            && (e.Write? && s.blocks[s.sent] != [] ==> CanMove(l, depth, PutBlock) && m == AfterMove(l, depth, PutBlock))
            && (e.Finish? && s.sent == |s.blocks| ==> CanMove(l, depth, PutFinal) && m == AfterMove(l, depth, PutFinal))
            && (e.Take? ==> CanMove(l, depth, Drain) && m == AfterMove(l, depth, Drain))
            && (e.Enter? ==> m == l)
  {
    SentFits(s, depth);
    hide Invariant, Conserved, EndsIn;
    if e.Write? {
      NonEmptyFirst(s.blocks[s.sent..]);
      assert s.blocks[s.sent..][1..] == s.blocks[s.sent + 1..];
    }
  }

  lemma SentFits(s: State, depth: nat)
    requires Invariant(s, depth)
    ensures s.sent <= |s.blocks|
  {
  }

  predicate PossibleMoves(l: Left, depth: nat, moves: seq<Move>)
    decreases |moves|
  {
    moves == [] || (CanMove(l, depth, moves[0]) && PossibleMoves(AfterMove(l, depth, moves[0]), depth, moves[1..]))
  }

  function AfterMoves(l: Left, depth: nat, moves: seq<Move>): Left
    requires PossibleMoves(l, depth, moves)
    decreases |moves|
  {
    if moves == [] then l else AfterMoves(AfterMove(l, depth, moves[0]), depth, moves[1..])
  }

  function Items(l: Left): nat {
    l.blocks + if l.final then 1 else 0
  }

  /**
   Only a take already under way still drains the queue, so in whichever order the
   rest happens, the copy and its final item both get done exactly when all of it
   fits; otherwise one of them stays blocked on the full queue.
   */
  lemma {:induction false} AbandonedCopyEndsExactlyWhenRoom(l: Left, depth: nat, moves: seq<Move>)
    requires depth > 0 && l.queued <= depth && PossibleMoves(l, depth, moves)
    requires Blocked(AfterMoves(l, depth, moves), depth)
    ensures Items(AfterMoves(l, depth, moves)) == 0 <==> l.queued + Items(l) <= depth + if l.taking then 1 else 0
    decreases |moves|
  {
    if moves != [] {
      AbandonedCopyEndsExactlyWhenRoom(AfterMove(l, depth, moves[0]), depth, moves[1..]);
    }
  }

  /** A reader that leaves between two takes while the queue is full blocks the copy, and with it its own clean-up. */
  lemma LeavingAFullQueueBlocks(blocks: seq<Block>, depth: nat, events: seq<Event>)
    requires depth > 0 && Possible(Start(blocks), depth, events)
    requires var t := Play(Start(blocks), depth, events); |t.queue| == depth && !t.ended && !t.reader.Asked?
    ensures var t := Play(Start(blocks), depth, events);
            && t.sent <= |blocks| == |t.blocks|
            && LeftBehind(t).final && Blocked(LeftBehind(t), depth)
  {
    StartInvariant(blocks, depth);
    PlayKeepsInvariant(Start(blocks), depth, events);
  }

  // ---- The first block ----

  /** `_started`: the first block is read at once and handed out again, unless it is empty. */
  function Started(chunks: seq<Block>): seq<Block> {
    if chunks == [] then [] else (if chunks[0] == [] then [] else [chunks[0]]) + chunks[1..]
  }

  lemma StartedKeepsContent(chunks: seq<Block>)
    ensures Concat(Started(chunks)) == Concat(chunks)
  {
    if chunks != [] {
      assert chunks == [chunks[0]] + chunks[1..];
      ConcatAppend([chunks[0]], chunks[1..]);
      ConcatOne(chunks[0]);
      assert chunks[0] == [] ==> Started(chunks) == chunks[1..];
    }
  }

  // ---- The sink ----

  /** The sink; a put returns once there is room. */
  class QueueSink {
    const depth: nat
    var queue: seq<Item>

    constructor (depth: nat)
      ensures this.depth == depth && queue == []
    {
      this.depth := depth;
      queue := [];
    }

    method Write(block: Block) returns (n: nat)
      requires block == [] || |queue| < depth
      modifies this`queue
      ensures n == |block| && Queued(queue) == Queued(old(queue)) + block
      ensures queue == if block == [] then old(queue) else old(queue) + [Data(block)]
    {
      if block != [] {
        queue := queue + [Data(block)];
        assert queue[..|queue| - 1] == old(queue);
      }
      n := |block|;
    }

    method Finish(error: bool)
      requires |queue| < depth
      modifies this`queue
      ensures queue == old(queue) + [if error then Fault else Eof]
    {
      queue := queue + [if error then Fault else Eof];
    }

    method Take() returns (item: Item)
      requires queue != []
      modifies this`queue
      ensures old(queue) == [item] + queue
    {
      item := queue[0];
      queue := queue[1..];
    }
  }
}
