/**
 Reading a data artifact page by page: the windowing loop of
 `read_run_data_artifact`, app/application/management_tools.py:690-790, and the
 pages put together again, as bytes and as UTF-8 text (section 3 of RFC 3629).
 */
module Paging {

  import opened Streaming

  const READ_LIMIT: nat := 200_000

  function Min(a: int, b: int): int { if a <= b then a else b }

  function Max(a: int, b: int): int { if a >= b then a else b }

  // ---- One page ----

  /** The bytes of `all` from `offset`, at most `limit` of them. */
  function Window(all: Block, offset: nat, limit: nat): (w: Block) {
    if offset >= |all| then [] else all[offset..Min(offset + limit, |all|)]
  }

  /** What is kept of one more chunk is the window over everything seen so far. */
  lemma WindowGrows(seen: Block, chunk: Block, offset: nat, limit: nat)
    requires |Window(seen, offset, limit)| < limit
    ensures var start := Max(0, offset - |seen|);
            Window(seen + chunk, offset, limit) ==
            Window(seen, offset, limit) +
            (if start < |chunk| then chunk[start..Min(start + limit - |Window(seen, offset, limit)|, |chunk|)] else [])
  {
    var all, w := seen + chunk, Window(seen, offset, limit);
    var start := Max(0, offset - |seen|);
    if start < |chunk| {
      if offset < |seen| {
        assert w == seen[offset..];
        var to := Min(limit - |w|, |chunk|);
        assert all[offset..offset + |w| + to] == seen[offset..] + chunk[..to];
      } else {
        assert w == [];
        var to := Min(start + limit, |chunk|);
        assert all[offset..|seen| + to] == chunk[start..to];
      }
    } else if offset < |seen| {
      assert all == seen;
    }
  }

  /** Once the window is full, what follows does not change it. */
  lemma WindowIsSettled(seen: Block, rest: Block, offset: nat, limit: nat)
    requires |Window(seen, offset, limit)| == limit && limit > 0
    ensures Window(seen + rest, offset, limit) == Window(seen, offset, limit)
    ensures offset + limit <= |seen|
  {
    assert (seen + rest)[offset..offset + limit] == seen[offset..offset + limit];
  }

  /**
   The windowing loop.  It returns the bytes of the window however the stream is
   cut into chunks, and says that more follows exactly when the window is full.
   */
  method ReadWindow(chunks: seq<Block>, offset: int, limit: int)
    returns (page: Block, more: bool, next: nat)
    ensures var from, count := Max(0, offset), Max(1, Min(limit, READ_LIMIT));
            && page == Window(Concat(chunks), from, count)
            && (more <==> from + count <= |Concat(chunks)|)
            && next == from + |page|
  {
    var from: nat, count: nat := Max(0, offset), Max(1, Min(limit, READ_LIMIT));
    page, more := [], false;
    var seen: nat := 0;
    ghost var read: Block := [];
    var i := 0;
    while i < |chunks|
      invariant 0 <= i <= |chunks| && read == Concat(chunks[..i]) && seen == |read|
      invariant page == Window(read, from, count) && |page| < count
      invariant !more
    {
      var chunk := chunks[i];
      assert chunks[..i + 1][..i] == chunks[..i];
      assert Concat(chunks[..i + 1]) == read + chunk;
      i := i + 1;
      if chunk != [] {
        WindowGrows(read, chunk, from, count);
        var start := Max(0, from - seen);
        if start < |chunk| {
          page := page + chunk[start..Min(start + count - |page|, |chunk|)];
        }
        seen := seen + |chunk|;
        read := read + chunk;
        if |page| >= count {
          more := true;
          assert chunks == chunks[..i] + chunks[i..];
          ConcatAppend(chunks[..i], chunks[i..]);
          WindowIsSettled(read, Concat(chunks[i..]), from, count);
          return page, more, from + |page|;
        }
      } else {
        assert read + chunk == read;
      }
    }
    assert chunks[..i] == chunks;
    next := from + |page|;
  }

  // ---- All pages ----

  /** The pages a caller gets who starts at `offset` and reads on while more is said to follow. */
  function Pages(all: Block, offset: nat, limit: nat): seq<Block>
    requires limit > 0
    decreases Max(0, |all| - offset)
  {
    [Window(all, offset, limit)] + if offset + limit <= |all| then Pages(all, offset + limit, limit) else []
  }

  /** The pages are the artifact, byte for byte. */
  lemma {:induction false} PagesReassemble(all: Block, offset: nat, limit: nat)
    requires limit > 0 && offset <= |all|
    ensures Concat(Pages(all, offset, limit)) == all[offset..]
    decreases |all| - offset
  {
    var first := Window(all, offset, limit);
    if offset + limit <= |all| {
      var rest := Pages(all, offset + limit, limit);
      PagesReassemble(all, offset + limit, limit);
      ConcatAppend([first], rest);
      ConcatOne(first);
      assert all[offset..] == all[offset..offset + limit] + all[offset + limit..];
    } else {
      ConcatOne(first);
      assert [first] + [] == [first];
    }
  }

  /** The bytes in `count` full pages. */
  function FullPages(count: nat, limit: nat): nat {
    if count == 0 then 0 else FullPages(count - 1, limit) + limit
  }

  /**
   Every page but the last is full, and the last one is not.  It is empty, and "more
   follows" was said in vain, exactly when the pages before it hold all bytes.
   */
  lemma {:induction false} PageCount(all: Block, offset: nat, limit: nat)
    requires limit > 0 && offset <= |all|
    ensures var pages := Pages(all, offset, limit);
            var last := |pages| - 1;
            && (forall i :: 0 <= i < last ==> |pages[i]| == limit)
            && |pages[last]| < limit && |all| - offset == FullPages(last, limit) + |pages[last]|
    decreases |all| - offset
  {
    if offset + limit <= |all| {
      PageCount(all, offset + limit, limit);
    }
  }

  /** Reading a whole artifact through the windowing loop. */
  method ReadAll(chunks: seq<Block>, limit: int) returns (bytes: Block)
    ensures bytes == Concat(chunks)
  {
    ghost var all := Concat(chunks);
    var offset: nat := 0;
    bytes := [];
    var more := true;
    while more
      invariant offset <= |all| && bytes == all[..offset]
      invariant !more ==> offset == |all|
      decreases more, |all| - offset
    {
      var page, next;
      page, more, next := ReadWindow(chunks, offset, limit);
      assert all[..offset] + page == all[..next];
      bytes, offset := bytes + page, next;
    }
  }

  // ---- Pages as text ----

  /** A decoded character: what its bytes say, or the replacement character. */
  datatype Char = Scalar(bytes: Block) | Replacement

  /** How many bytes the character with this lead byte has; 0 for a byte that cannot lead. */
  function Size(lead: Byte): nat {
    if lead < 0x80 then 1 else if 0xC2 <= lead < 0xE0 then 2 else if 0xE0 <= lead < 0xF0 then 3
    else if 0xF0 <= lead < 0xF5 then 4 else 0
  }

  /** Whether `b` can be byte number `i` after this lead. */
  predicate Follows(lead: Byte, i: nat, b: Byte) {
    if i == 1 && lead == 0xE0 then 0xA0 <= b < 0xC0
    else if i == 1 && lead == 0xED then 0x80 <= b < 0xA0
    else if i == 1 && lead == 0xF0 then 0x90 <= b < 0xC0
    else if i == 1 && lead == 0xF4 then 0x80 <= b < 0x90
    else 0x80 <= b < 0xC0
  }

  predicate IsChar(c: Block) {
    c != [] && |c| == Size(c[0]) && forall i :: 1 <= i < |c| ==> Follows(c[0], i, c[i])
  }

  /** The Unicode scalar values: the code points that are not surrogates. */
  predicate IsScalarValue(u: nat) {
    u < 0xD800 || 0xE000 <= u < 0x110000
  }

  /** The UTF-8 encoding of a scalar value (section 3 of RFC 3629). */
  function Encoded(u: nat): Block
    requires IsScalarValue(u)
  {
    if u < 0x80 then [u]
    else if u < 0x800 then [0xC0 + u / 0x40, 0x80 + u % 0x40]
    else if u < 0x10000 then [0xE0 + u / 0x1000, 0x80 + u / 0x40 % 0x40, 0x80 + u % 0x40]
    else [0xF0 + u / 0x40000, 0x80 + u / 0x1000 % 0x40, 0x80 + u / 0x40 % 0x40, 0x80 + u % 0x40]
  }

  lemma EncodedIsChar(u: nat)
    requires IsScalarValue(u)
    ensures IsChar(Encoded(u))
  {
    var c := Encoded(u);
    if 0x800 <= u < 0x10000 {
      assert c[0] == 0xE0 ==> u / 0x40 % 0x40 >= 0x20;
      assert c[0] == 0xED ==> u / 0x40 % 0x40 < 0x20;
    }
  }

  /** Six bits at a time. */
  lemma Digits(a: nat, b: nat, c: nat, d: nat)
    requires b < 0x40 && c < 0x40 && d < 0x40
    ensures var u := ((a * 0x40 + b) * 0x40 + c) * 0x40 + d;
            u % 0x40 == d && u / 0x40 % 0x40 == c && u / 0x1000 % 0x40 == b && u / 0x40000 == a
  {
    var u := ((a * 0x40 + b) * 0x40 + c) * 0x40 + d;
    assert u / 0x40 == (a * 0x40 + b) * 0x40 + c;
    assert u / 0x1000 == a * 0x40 + b;
  }

  lemma CharIsEncoded(c: Block) returns (u: nat)
    requires IsChar(c)
    ensures IsScalarValue(u) && Encoded(u) == c
  {
    assert forall i :: 1 <= i < |c| ==> Follows(c[0], i, c[i]) && 0x80 <= c[i] < 0xC0;
    var a: int, b: int := c[0], if |c| > 1 then c[1] - 0x80 else 0;
    if |c| == 1 {
      u := a;
    } else if |c| == 2 {
      u := (a - 0xC0) * 0x40 + b;
      assert u / 0x40 == a - 0xC0;
    } else if |c| == 3 {
      u := ThreeBytes(c);
    } else {
      u := FourBytes(c);
    }
  }

  lemma ThreeBytes(c: Block) returns (u: nat)
    requires IsChar(c) && |c| == 3
    ensures IsScalarValue(u) && Encoded(u) == c
  {
    assert Follows(c[0], 1, c[1]) && Follows(c[0], 2, c[2]);
    var a: int, b: int, d: int := c[0] as int - 0xE0, c[1] as int - 0x80, c[2] as int - 0x80;
    hide Size, Follows, IsChar;
    Digits(0, a, b, d);
    Digits(0, 0, a, b);
    u := (a * 0x40 + b) * 0x40 + d;
    assert u / 0x1000 == a;
  }

  lemma FourBytes(c: Block) returns (u: nat)
    requires IsChar(c) && |c| == 4
    ensures IsScalarValue(u) && Encoded(u) == c
  {
    assert Follows(c[0], 1, c[1]) && Follows(c[0], 2, c[2]) && Follows(c[0], 3, c[3]);
    var a: int, b: int, d: int, e: int := c[0] as int - 0xF0, c[1] as int - 0x80, c[2] as int - 0x80, c[3] as int - 0x80;
    hide Size, Follows, IsChar;
    Digits(a, b, d, e);
    u := ((a * 0x40 + b) * 0x40 + d) * 0x40 + e;
  }

  /** What the decoder takes to be one character is exactly what encodes one scalar value. */
  lemma CharsAreEncodings(c: Block)
    ensures IsChar(c) <==> exists u: nat :: IsScalarValue(u) && Encoded(u) == c
  {
    if IsChar(c) {
      var u := CharIsEncoded(c);
    }
    if u: nat :| IsScalarValue(u) && Encoded(u) == c {
      EncodedIsChar(u);
    }
  }

  /** How many bytes at the front go together, up to a whole character. */
  function Front(text: Block, have: nat): (n: nat)
    requires 1 <= have <= |text| && have <= Size(text[0])
    requires forall i :: 1 <= i < have ==> Follows(text[0], i, text[i])
    ensures have <= n <= |text| && n <= Size(text[0])
    ensures forall i :: 1 <= i < n ==> Follows(text[0], i, text[i])
    ensures n == Size(text[0]) || n == |text| || !Follows(text[0], n, text[n])
    decreases |text| - have
  {
    if have == Size(text[0]) || have == |text| || !Follows(text[0], have, text[have]) then have
    else Front(text, have + 1)
  }

  /** Decoding with errors replaced: a longest beginning of a character that is none becomes one replacement. */
  function Decode(text: Block): seq<Char>
    decreases |text|
  {
    if text == [] then []
    else if Size(text[0]) == 0 then [Replacement] + Decode(text[1..])
    else
      var n := Front(text, 1);
      (if n == Size(text[0]) then [Scalar(text[..n])] else [Replacement]) + Decode(text[n..])
  }

  predicate AllChars(chars: seq<Block>) {
    forall c :: c in chars ==> IsChar(c)
  }

  function Scalars(chars: seq<Block>): (s: seq<Char>)
    ensures |s| == |chars| && forall i :: 0 <= i < |s| ==> s[i] == Scalar(chars[i])
  {
    seq(|chars|, i requires 0 <= i < |chars| => Scalar(chars[i]))
  }

  lemma ConcatFirst(blocks: seq<Block>)
    requires blocks != []
    ensures Concat(blocks) == blocks[0] + Concat(blocks[1..])
  {
    assert blocks == [blocks[0]] + blocks[1..];
    ConcatAppend([blocks[0]], blocks[1..]);
    ConcatOne(blocks[0]);
  }

  lemma DecodeFirst(c: Block, rest: Block)
    requires IsChar(c)
    ensures Decode(c + rest) == [Scalar(c)] + Decode(rest)
  {
    var text := c + rest;
    assert forall i :: 0 <= i < |c| ==> text[i] == c[i];
    var n := Front(text, 1);
    assert n == |c|;
    assert text[..n] == c && text[n..] == rest;
  }

  /** Text survives its encoding. */
  lemma {:induction false} DecodeWhole(chars: seq<Block>)
    requires AllChars(chars)
    ensures Decode(Concat(chars)) == Scalars(chars)
  {
    assert Concat([]) == [] && Decode([]) == [];
    hide Decode, IsChar, Concat;
    if chars != [] {
      assert chars[0] in chars && forall c :: c in chars[1..] ==> c in chars;
      DecodeWhole(chars[1..]);
      ConcatFirst(chars);
      DecodeFirst(chars[0], Concat(chars[1..]));
      assert Scalars(chars) == [Scalar(chars[0])] + Scalars(chars[1..]);
    }
  }

  /** A cut between two characters of a text, or at one of its ends. */
  ghost predicate BetweenChars(chars: seq<Block>, cut: nat) {
    exists j :: 0 <= j <= |chars| && |Concat(chars[..j])| == cut
  }

  lemma CutMovesOn(chars: seq<Block>, cut: nat)
    requires chars != [] && cut >= |chars[0]|
    ensures BetweenChars(chars[1..], cut - |chars[0]|) ==> BetweenChars(chars, cut)
  {
    if BetweenChars(chars[1..], cut - |chars[0]|) {
      var j :| 0 <= j <= |chars[1..]| && |Concat(chars[1..][..j])| == cut - |chars[0]|;
      assert chars[..j + 1][1..] == chars[1..][..j];
      ConcatFirst(chars[..j + 1]);
      assert |Concat(chars[..j + 1])| == cut;
    }
  }

  /** At a cut that splits a character the rest begins with a byte that cannot lead one. */
  lemma {:induction false} SplitIsStray(chars: seq<Block>, cut: nat)
    requires AllChars(chars) && cut <= |Concat(chars)| && !BetweenChars(chars, cut)
    ensures cut < |Concat(chars)| && Size(Concat(chars)[cut]) == 0
  {
    assert |Concat(chars[..0])| == 0;
    assert chars[..|chars|] == chars;
    if chars != [] {
      var c := chars[0];
      assert c in chars && forall d :: d in chars[1..] ==> d in chars;
      ConcatFirst(chars);
      if cut >= |c| {
        CutMovesOn(chars, cut);
        SplitIsStray(chars[1..], cut - |c|);
      } else {
        assert cut > 0;
        assert Concat(chars)[cut] == c[cut];
      }
    }
  }

  lemma WholeTextHasNoReplacement(chars: seq<Block>)
    requires AllChars(chars)
    ensures Replacement !in Decode(Concat(chars))
  {
    DecodeWhole(chars);
  }

  /** What a caller has after putting the decoded pages together. */
  function PagedText(pages: seq<Block>): seq<Char> {
    if pages == [] then [] else Decode(pages[0]) + PagedText(pages[1..])
  }

  lemma DecodeStray(text: Block)
    requires text != [] && Size(text[0]) == 0
    ensures Replacement in Decode(text)
  {
    assert Decode(text)[0] == Replacement;
  }

  /** No page ends inside a character. */
  ghost predicate CutsBetweenChars(chars: seq<Block>, offset: nat, limit: nat)
    requires limit > 0
    decreases Max(0, |Concat(chars)| - offset)
  {
    offset + limit <= |Concat(chars)| ==>
      BetweenChars(chars, offset + limit) && CutsBetweenChars(chars, offset + limit, limit)
  }

  /** Two pieces of a text decode to the whole exactly when the cut is between two characters. */
  lemma TwoPieces(chars: seq<Block>, cut: nat)
    requires AllChars(chars) && cut <= |Concat(chars)|
    ensures var text := Concat(chars);
            Decode(text[..cut]) + Decode(text[cut..]) == Decode(text) <==> BetweenChars(chars, cut)
  {
    var text := Concat(chars);
    if BetweenChars(chars, cut) {
      var j :| 0 <= j <= |chars| && |Concat(chars[..j])| == cut;
      SplitAt(chars, j);
    } else {
      SplitIsStray(chars, cut);
      DecodeStray(text[cut..]);
      WholeTextHasNoReplacement(chars);
    }
  }

  lemma SplitAt(chars: seq<Block>, j: nat)
    requires AllChars(chars) && j <= |chars|
    ensures var text, cut := Concat(chars), |Concat(chars[..j])|;
            && cut <= |text|
            && text[..cut] == Concat(chars[..j]) && text[cut..] == Concat(chars[j..])
            && Decode(text[..cut]) + Decode(text[cut..]) == Decode(text)
  {
    assert chars == chars[..j] + chars[j..];
    ConcatAppend(chars[..j], chars[j..]);
    DecodeWhole(chars);
    DecodeWhole(chars[..j]);
    DecodeWhole(chars[j..]);
    assert Scalars(chars) == Scalars(chars[..j]) + Scalars(chars[j..]);
  }

  lemma LaterCut(chars: seq<Block>, i: nat, j: nat)
    requires i <= |chars| && j <= |chars|
    ensures |Concat(chars[..j])| > |Concat(chars[..i])| ==> j > i
    ensures j >= i ==> |Concat(chars[i..][..j - i])| == |Concat(chars[..j])| - |Concat(chars[..i])|
  {
    if j <= i {
      assert chars[..i] == chars[..j] + chars[j..i];
      ConcatAppend(chars[..j], chars[j..i]);
    }
    if j >= i {
      assert chars[..j] == chars[..i] + chars[i..][..j - i];
      ConcatAppend(chars[..i], chars[i..][..j - i]);
    }
  }

  /** The rest of the text after a page that ends between two characters. */
  lemma PageSplits(chars: seq<Block>, i: nat, limit: nat)
    requires AllChars(chars) && i <= |chars| && limit > 0
    requires var offset := |Concat(chars[..i])|;
             offset + limit <= |Concat(chars)| && BetweenChars(chars, offset + limit)
    ensures var text, offset := Concat(chars), |Concat(chars[..i])|;
            Decode(text[offset..offset + limit]) + Decode(text[offset + limit..]) == Decode(text[offset..])
  {
    hide Decode, IsChar, Concat;
    var text, offset := Concat(chars), |Concat(chars[..i])|;
    var j :| 0 <= j <= |chars| && |Concat(chars[..j])| == offset + limit;
    LaterCut(chars, i, j);
    SplitAt(chars, i);
    assert forall c :: c in chars[i..] ==> c in chars;
    SplitAt(chars[i..], j - i);
    assert text[offset..][..limit] == text[offset..offset + limit];
    assert text[offset..][limit..] == text[offset + limit..];
  }

  /** A page that starts inside a character shows a replacement. */
  lemma StrayPage(chars: seq<Block>, offset: nat, limit: nat)
    requires AllChars(chars) && limit > 0 && offset <= |Concat(chars)| && !BetweenChars(chars, offset)
    ensures Replacement in PagedText(Pages(Concat(chars), offset, limit))
  {
    var all := Concat(chars);
    SplitIsStray(chars, offset);
    var page := Window(all, offset, limit);
    assert page[0] == all[offset];
    DecodeStray(page);
    assert Pages(all, offset, limit)[0] == page;
  }

  lemma NoReplacementAfter(chars: seq<Block>, i: nat)
    requires AllChars(chars) && i <= |chars|
    ensures |Concat(chars[..i])| <= |Concat(chars)| && Replacement !in Decode(Concat(chars)[|Concat(chars[..i])|..])
  {
    SplitAt(chars, i);
    assert forall c :: c in chars[i..] ==> c in chars;
    WholeTextHasNoReplacement(chars[i..]);
  }

  lemma {:induction false} PagesFrom(chars: seq<Block>, i: nat, limit: nat)
    requires AllChars(chars) && limit > 0 && i <= |chars|
    ensures var all, offset := Concat(chars), |Concat(chars[..i])|;
            && offset <= |all|
            && (PagedText(Pages(all, offset, limit)) == Decode(all[offset..]) <==> CutsBetweenChars(chars, offset, limit))
    decreases |Concat(chars)| - |Concat(chars[..i])|
  {
    hide Decode, Concat, AllChars;
    var all, offset := Concat(chars), |Concat(chars[..i])|;
    NoReplacementAfter(chars, i);
    var first := Window(all, offset, limit);
    if offset + limit > |all| {
      assert Pages(all, offset, limit) == [first] && first == all[offset..];
      assert PagedText([first]) == Decode(first) + [];
    } else {
      var next := Pages(all, offset + limit, limit);
      assert Pages(all, offset, limit) == [first] + next;
      assert PagedText([first] + next) == Decode(first) + PagedText(next);
      if BetweenChars(chars, offset + limit) {
        PageSplits(chars, i, limit);
        var j :| 0 <= j <= |chars| && |Concat(chars[..j])| == offset + limit;
        PagesFrom(chars, j, limit);
        Cancel(Decode(first), PagedText(next), Decode(all[offset + limit..]));
      } else {
        StrayPage(chars, offset + limit, limit);
      }
    }
  }

  lemma Cancel(a: seq<Char>, b: seq<Char>, c: seq<Char>)
    ensures a + b == a + c <==> b == c
  {
    assert (a + b)[|a|..] == b && (a + c)[|a|..] == c;
  }

  /** Pages put together as text are the text exactly when no page ends inside a character. */
  lemma PagedTextIsWholeExactlyWhen(chars: seq<Block>, limit: nat)
    requires AllChars(chars) && limit > 0
    ensures PagedText(Pages(Concat(chars), 0, limit)) == Scalars(chars) <==> CutsBetweenChars(chars, 0, limit)
  {
    assert |Concat(chars[..0])| == 0;
    PagesFrom(chars, 0, limit);
    DecodeWhole(chars);
    assert Concat(chars)[0..] == Concat(chars);
  }

  /** "e" with an acute accent read one byte at a time comes out as two replacements. */
  lemma SplitCharacterIsLost()
    ensures var e: Block := [0xC3, 0xA9];
            IsChar(e) && !CutsBetweenChars([e], 0, 1) && PagedText(Pages(Concat([e]), 0, 1)) != Scalars([e])
  {
    var e: Block := [0xC3, 0xA9];
    ConcatOne(e);
    assert [e][..0] == [] && [e][..1] == [e];
    assert !BetweenChars([e], 1) by {
      forall j | 0 <= j <= |[e]| ensures |Concat([e][..j])| != 1 {
        assert j == 0 || j == 1;
      }
    }
    PagedTextIsWholeExactlyWhen([e], 1);
  }
}
