/**
 Records re-framed as one JSON array, `_json_array_chunks` of
 app/application/data_artifacts.py:450-470, against a reader of arrays
 (section 5 of RFC 8259) that knows nothing of how they were written.
 */
module JsonFraming {

  import opened Common
  import opened Streaming

  const OPEN: Byte := 91       // [
  const CLOSE: Byte := 93      // ]
  const COMMA: Byte := 44
  const QUOTE: Byte := 34
  const BACKSLASH: Byte := 92
  const OPEN_BRACE: Byte := 123
  const CLOSE_BRACE: Byte := 125
  const COLON: Byte := 58

  // ---- Reading an array ----

  /** Where a reader of JSON text is: how deep in brackets and braces, in a string, after a backslash. */
  datatype Place = Place(depth: nat, inString: bool, escaped: bool)

  const OUTSIDE := Place(0, false, false)

  /** Outside every bracket and string. */
  predicate AtTop(p: Place) {
    p.depth == 0 && !p.inString
  }

  function Advance(p: Place, b: Byte): Place {
    if p.inString then
      if p.escaped then p.(escaped := false)
      else if b == BACKSLASH then p.(escaped := true)
      else if b == QUOTE then p.(inString := false)
      else p
    else if b == QUOTE then p.(inString := true)
    else if b == OPEN || b == OPEN_BRACE then p.(depth := p.depth + 1)
    else if (b == CLOSE || b == CLOSE_BRACE) && p.depth > 0 then p.(depth := p.depth - 1)
    else p
  }

  /** The rest of one JSON value: it ends outside, and no comma or closing bracket before that is at the top. */
  predicate ValueFrom(text: Block, p: Place) {
    if text == [] then p == OUTSIDE
    else !(AtTop(p) && text[0] in {COMMA, CLOSE, CLOSE_BRACE}) && ValueFrom(text[1..], Advance(p, text[0]))
  }

  /** The text of one JSON value. */
  predicate IsValue(text: Block) {
    text != [] && ValueFrom(text, OUTSIDE)
  }

  /** The elements of an array after its opening bracket, with `current` of the first one already read. */
  function Elements(text: Block, p: Place, current: Block): Option<seq<Block>>
    decreases |text|
  {
    if text == [] then None
    else if AtTop(p) && text[0] == COMMA then
      match Elements(text[1..], OUTSIDE, [])
      case None => None
      case Some(rest) => Some([current] + rest)
    else if AtTop(p) && text[0] == CLOSE then if text[1..] == [] then Some([current]) else None
    else Elements(text[1..], Advance(p, text[0]), current + [text[0]])
  }

  /** The element texts of a JSON array. */
  function ReadArray(text: Block): Option<seq<Block>> {
    if text == [] || text[0] != OPEN then None
    else if text[1..] == [CLOSE] then Some([])
    else Elements(text[1..], OUTSIDE, [])
  }

  // ---- What the reader takes to be one value ----

  /** The rest after a value is read as if it stood alone. */
  lemma {:induction false} PastValue(value: Block, rest: Block, p: Place)
    requires ValueFrom(value, p)
    ensures ValueFrom(value + rest, p) <==> ValueFrom(rest, OUTSIDE)
    decreases |value|
  {
    if value == [] {
      assert value + rest == rest;
    } else {
      assert (value + rest)[1..] == value[1..] + rest;
      PastValue(value[1..], rest, Advance(p, value[0]));
    }
  }

  /** A comma or a closing bracket after a value is not part of it. */
  lemma ValuesEndAtSeparators(value: Block, b: Byte, rest: Block)
    requires IsValue(value) && b in {COMMA, CLOSE, CLOSE_BRACE}
    ensures !IsValue(value + ([b] + rest))
  {
    PastValue(value, [b] + rest, OUTSIDE);
  }

  /** A string's characters, its quotes and backslashes behind a backslash. */
  function Escaped(text: Block): Block {
    if text == [] then []
    else (if text[0] == QUOTE || text[0] == BACKSLASH then [BACKSLASH, text[0]] else [text[0]]) + Escaped(text[1..])
  }

  /** Whatever is in a string, commas, brackets, quotes and backslashes included, it is one value. */
  lemma {:induction false} StringIsValue(text: Block)
    ensures IsValue([QUOTE] + (Escaped(text) + [QUOTE]))
  {
    var rest := Escaped(text) + [QUOTE];
    InString(text);
    assert ([QUOTE] + rest)[1..] == rest;
  }

  lemma {:induction false} InString(text: Block)
    ensures ValueFrom(Escaped(text) + [QUOTE], Place(0, true, false))
  {
    var inside := Place(0, true, false);
    if text == [] {
      assert [] + [QUOTE] == [QUOTE] && [QUOTE][1..] == [];
      assert Advance(inside, QUOTE) == OUTSIDE;
    } else {
      InString(text[1..]);
      var rest := Escaped(text[1..]) + [QUOTE];
      if text[0] == QUOTE || text[0] == BACKSLASH {
        assert (Escaped(text) + [QUOTE])[1..][1..] == rest;
        assert Advance(Advance(inside, BACKSLASH), text[0]) == inside;
        assert ValueFrom((Escaped(text) + [QUOTE])[1..], Advance(inside, BACKSLASH));
      } else {
        assert (Escaped(text) + [QUOTE])[1..] == rest;
      }
    }
  }

  const INSIDE := Place(1, false, false)

  /** A value may stand inside brackets. */
  lemma {:induction false} ValueInside(value: Block, rest: Block, p: Place)
    requires ValueFrom(value, p) && ValueFrom(rest, INSIDE)
    ensures ValueFrom(value + rest, p.(depth := p.depth + 1))
    decreases |value|
  {
    if value == [] {
      assert value + rest == rest;
    } else {
      assert (value + rest)[1..] == value[1..] + rest;
      ValueInside(value[1..], rest, Advance(p, value[0]));
    }
  }

  /** Values next to each other, such as a name, a colon and what it names, are read as one. */
  lemma MemberIsValue(name: Block, value: Block)
    requires IsValue(name) && IsValue(value)
    ensures IsValue(name + ([COLON] + value))
  {
    assert ([COLON] + value)[1..] == value;
    PastValue(name, [COLON] + value, OUTSIDE);
  }

  lemma {:induction false} ListInside(values: seq<Block>, close: Byte)
    requires close in {CLOSE, CLOSE_BRACE} && forall v :: v in values ==> IsValue(v)
    ensures ValueFrom(Joined(values) + [close], INSIDE)
  {
    assert [close][1..] == [] && Advance(INSIDE, close) == OUTSIDE && Advance(INSIDE, COMMA) == INSIDE;
    assert ValueFrom([], OUTSIDE);
    assert values != [] ==> values[0] in values;
    if values == [] {
      assert [] + [close] == [close];
    } else if |values| == 1 {
      ValueInside(values[0], [close], OUTSIDE);
    } else {
      ListInside(values[1..], close);
      var rest := [COMMA] + (Joined(values[1..]) + [close]);
      assert rest[1..] == Joined(values[1..]) + [close];
      ValueInside(values[0], rest, OUTSIDE);
      assert Joined(values) + [close] == values[0] + rest;
    }
  }

  /** Values joined by commas, between brackets or between braces, are one value: arrays and objects nest. */
  lemma ListIsValue(values: seq<Block>)
    requires forall v :: v in values ==> IsValue(v)
    ensures IsValue([OPEN] + (Joined(values) + [CLOSE]))
    ensures IsValue([OPEN_BRACE] + (Joined(values) + [CLOSE_BRACE]))
  {
    ListInside(values, CLOSE);
    ListInside(values, CLOSE_BRACE);
    assert ([OPEN] + (Joined(values) + [CLOSE]))[1..] == Joined(values) + [CLOSE];
    assert ([OPEN_BRACE] + (Joined(values) + [CLOSE_BRACE]))[1..] == Joined(values) + [CLOSE_BRACE];
  }

  // ---- Writing one ----

  /** "[", the records joined by ",", and "]". */
  function Framed(records: seq<Block>): Block {
    [OPEN] + Joined(records) + [CLOSE]
  }

  function Joined(records: seq<Block>): Block {
    if records == [] then []
    else if |records| == 1 then records[0]
    else records[0] + [COMMA] + Joined(records[1..])
  }

  lemma {:induction false} JoinedAppend(records: seq<Block>, line: Block)
    ensures Joined(records + [line]) == if records == [] then line else Joined(records) + [COMMA] + line
  {
    if |records| > 1 {
      JoinedAppend(records[1..], line);
      assert (records + [line])[1..] == records[1..] + [line];
    } else if |records| == 1 {
      assert (records + [line])[1..] == [line];
    }
  }

  lemma ConcatNone()
    ensures Concat([]) == [] && Joined([]) == []
  {
  }

  lemma BlockJoins(joined: Block, line: Block)
    ensures ([OPEN] + joined) + ([COMMA] + line) == [OPEN] + (joined + [COMMA] + line)
  {
  }

  /** The generator; each record's text is one block with the bracket or comma before it. */
  method JsonArrayChunks(records: seq<Block>) returns (chunks: seq<Block>)
    ensures Concat(chunks) == Framed(records)
    ensures |chunks| == |records| + 1 && forall k :: 0 <= k < |chunks| ==> chunks[k] != []
  {
    hide Concat, Joined;
    var first := true;
    chunks := [];
    ConcatNone();
    for i := 0 to |records|
      invariant first <==> i == 0
      invariant |chunks| == i && forall k :: 0 <= k < i ==> chunks[k] != []
      invariant Concat(chunks) == if i == 0 then [] else [OPEN] + Joined(records[..i])
    {
      var block := if first then [OPEN] + records[i] else [COMMA] + records[i];
      JoinedAppend(records[..i], records[i]);
      assert records[..i + 1] == records[..i] + [records[i]];
      ConcatAppend(chunks, [block]);
      ConcatOne(block);
      BlockJoins(Joined(records[..i]), records[i]);
      chunks := chunks + [block];
      first := false;
    }
    assert records[..|records|] == records;
    var last := if first then [OPEN, CLOSE] else [CLOSE];
    ConcatAppend(chunks, [last]);
    ConcatOne(last);
    assert [OPEN] + [] + [CLOSE] == [OPEN, CLOSE];
    chunks := chunks + [last];
  }

  // ---- The round trip ----

  /** Reading one value moves past exactly it. */
  lemma {:induction false} ElementsPastValue(value: Block, rest: Block, p: Place, current: Block)
    requires ValueFrom(value, p)
    ensures Elements(value + rest, p, current) == Elements(rest, OUTSIDE, current + value)
    decreases |value|
  {
    if value == [] {
      assert value + rest == rest && current + value == current;
    } else {
      var b := value[0];
      assert (value + rest)[0] == b && (value + rest)[1..] == value[1..] + rest;
      ElementsPastValue(value[1..], rest, Advance(p, b), current + [b]);
      assert current + [b] + value[1..] == current + value;
    }
  }

  lemma {:induction false} ElementsOfJoined(records: seq<Block>)
    requires records != [] && forall r :: r in records ==> IsValue(r)
    ensures Elements(Joined(records) + [CLOSE], OUTSIDE, []) == Some(records)
  {
    hide ValueFrom, Advance;
    assert records[0] in records;
    if |records| == 1 {
      ElementsPastValue(records[0], [CLOSE], OUTSIDE, []);
      assert [] + records[0] == records[0] && records == [records[0]];
      assert [CLOSE][1..] == [];
    } else {
      var tail := [COMMA] + (Joined(records[1..]) + [CLOSE]);
      assert Joined(records) + [CLOSE] == records[0] + tail;
      ElementsPastValue(records[0], tail, OUTSIDE, []);
      ElementsOfJoined(records[1..]);
      assert tail[1..] == Joined(records[1..]) + [CLOSE];
      assert [] + records[0] == records[0];
      assert records == [records[0]] + records[1..];
    }
  }

  /** Whatever the records are, reading the framed array gives back exactly them. */
  lemma ArrayRoundTrip(records: seq<Block>)
    requires forall r :: r in records ==> IsValue(r)
    ensures ReadArray(Framed(records)) == Some(records)
  {
    var text := Framed(records);
    assert text[1..] == Joined(records) + [CLOSE];
    if records != [] {
      ElementsOfJoined(records);
      assert records[0] in records;
      assert |Joined(records)| >= |records[0]| > 0;
    }
  }

  /** The framing also shows how many records there were. */
  lemma FramingIsInjective(a: seq<Block>, b: seq<Block>)
    requires (forall r :: r in a ==> IsValue(r)) && (forall r :: r in b ==> IsValue(r))
    ensures Framed(a) == Framed(b) ==> a == b
  {
    ArrayRoundTrip(a);
    ArrayRoundTrip(b);
  }
}
