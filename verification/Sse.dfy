/** Splitting a server-sent event stream into its `data:` payloads, chunk by chunk. */
module Sse {
  import opened Wrappers

  type Byte = b: int | 0 <= b < 256
  type Bytes = seq<Byte>

  const CR: Byte := 13
  const LF: Byte := 10
  /** `data:` in ASCII. */
  const DATA: Bytes := [100, 97, 116, 97, 58]

  function WithoutCr(s: Bytes): Bytes {
    if s == [] then [] else if s[0] == CR then WithoutCr(s[1..]) else [s[0]] + WithoutCr(s[1..])
  }

  /** Where the first empty line starts: the leftmost pair of newlines. */
  function FindBlank(s: Bytes): (r: Option<nat>)
    ensures r.Some? ==> r.value + 1 < |s| && s[r.value] == LF && s[r.value + 1] == LF
    ensures r.Some? ==> forall i :: 0 <= i < r.value ==> !(s[i] == LF && s[i + 1] == LF)
    ensures r.None? ==> forall i :: 0 <= i < |s| - 1 ==> !(s[i] == LF && s[i + 1] == LF)
  {
    if |s| < 2 then None
    else if s[0] == LF && s[1] == LF then Some(0)
    else match FindBlank(s[1..])
      case None => None
      case Some(i) => Some(i + 1)
  }

  function Lines(s: Bytes): (r: seq<Bytes>)
    ensures |r| >= 1
  {
    if s == [] then [[]]
    else if s[0] == LF then [[]] + Lines(s[1..])
    else var rest := Lines(s[1..]); [[s[0]] + rest[0]] + rest[1..]
  }

  /** The whitespace that `bytes.strip` removes. */
  predicate IsSpace(b: Byte) {
    b == 32 || 9 <= b <= 13
  }

  function LStrip(s: Bytes): Bytes {
    if s != [] && IsSpace(s[0]) then LStrip(s[1..]) else s
  }

  function RStrip(s: Bytes): Bytes {
    if s != [] && IsSpace(s[|s| - 1]) then RStrip(s[..|s| - 1]) else s
  }

  function Strip(s: Bytes): Bytes {
    RStrip(LStrip(s))
  }

  function DataOf(lines: seq<Bytes>): seq<Bytes> {
    if lines == [] then []
    else (if DATA <= lines[0] then [Strip(lines[0][5..])] else []) + DataOf(lines[1..])
  }

  /** Payloads of the complete blocks, and what is left over. */
  datatype Pieces = Pieces(payloads: seq<Bytes>, tail: Bytes)

  function Split(s: Bytes): Pieces {
    match FindBlank(s)
    case None => Pieces([], s)
    case Some(i) =>
      var rest := Split(s[i + 2..]);
      Pieces(DataOf(Lines(s[..i])) + rest.payloads, rest.tail)
  }

  // ----- the splitter, in place ---------------------------------------------------------------

  method StripCr(s: Bytes) returns (r: Bytes)
    ensures r == WithoutCr(s)
  {
    r := [];
    for i := 0 to |s|
      invariant r + WithoutCr(s[i..]) == WithoutCr(s)
    {
      assert s[i..][1..] == s[i + 1..];
      if s[i] != CR {
        r := r + [s[i]];
      }
    }
    assert r + [] == r;
  }

  method DataLines(block: Bytes) returns (payloads: seq<Bytes>)
    ensures payloads == DataOf(Lines(block))
  {
    var lines := Lines(block);
    payloads := [];
    for i := 0 to |lines|
      invariant payloads + DataOf(lines[i..]) == DataOf(lines)
    {
      assert lines[i..][1..] == lines[i + 1..];
      if DATA <= lines[i] {
        payloads := payloads + [Strip(lines[i][5..])];
      }
    }
    assert payloads + [] == payloads;
  }

  method SplitSse(input: Bytes) returns (events: seq<Bytes>, buffer: Bytes)
    ensures Pieces(events, buffer) == Split(WithoutCr(input))
    ensures FindBlank(buffer).None?
  {
    hide WithoutCr, DataOf, Lines, Split, FindBlank;
    buffer := StripCr(input);
    ghost var whole := buffer;
    events := [];
    var at := FindBlank(buffer);
    while at.Some?
      invariant at == FindBlank(buffer)
      invariant Pieces(events + Split(buffer).payloads, Split(buffer).tail) == Split(whole)
      decreases |buffer|
    {
      SplitOne(buffer, at.value, events);
      var payloads := DataLines(buffer[..at.value]);
      events := events + payloads;
      buffer := buffer[at.value + 2..];
      at := FindBlank(buffer);
    }
    SplitNone(buffer, events);
  }

  lemma SplitOne(s: Bytes, i: nat, before: seq<Bytes>)
    requires FindBlank(s) == Some(i)
    ensures var rest := Split(s[i + 2..]);
      && Split(s).tail == rest.tail
      && before + Split(s).payloads == before + DataOf(Lines(s[..i])) + rest.payloads
  {
    hide FindBlank, DataOf, Lines;
  }

  lemma SplitNone(s: Bytes, before: seq<Bytes>)
    requires FindBlank(s).None?
    ensures before + Split(s).payloads == before && Split(s).tail == s
  {
  }

  // ----- chunks -------------------------------------------------------------------------------

  lemma {:induction false} WithoutCrConcat(a: Bytes, b: Bytes)
    ensures WithoutCr(a + b) == WithoutCr(a) + WithoutCr(b)
  {
    if a == [] {
      assert a + b == b;
    } else {
      assert (a + b)[1..] == a[1..] + b;
      WithoutCrConcat(a[1..], b);
    }
  }

  lemma {:induction false} WithoutCrTwice(a: Bytes)
    ensures WithoutCr(WithoutCr(a)) == WithoutCr(a)
  {
    if a != [] {
      WithoutCrTwice(a[1..]);
      if a[0] != CR {
        assert WithoutCr(a)[1..] == WithoutCr(a[1..]);
      }
    }
  }

  lemma {:induction false} FindConcat(a: Bytes, b: Bytes)
    requires FindBlank(a).Some?
    ensures FindBlank(a + b) == FindBlank(a)
  {
    assert (a + b)[1..] == a[1..] + b;
    if !(a[0] == LF && a[1] == LF) {
      FindConcat(a[1..], b);
    }
  }

  /** Splitting a longer text: the payloads already complete stay, and the tail is split on. */
  lemma {:induction false} SplitConcat(a: Bytes, b: Bytes)
    ensures var first := Split(a);
      var second := Split(first.tail + b);
      Split(a + b) == Pieces(first.payloads + second.payloads, second.tail)
    decreases |a|
  {
    hide Split, FindBlank, DataOf, Lines;
    if FindBlank(a).Some? {
      var i := FindBlank(a).value;
      FindConcat(a, b);
      assert (a + b)[..i] == a[..i] && (a + b)[i + 2..] == a[i + 2..] + b;
      SplitConcat(a[i + 2..], b);
      SplitAt(a, i);
      SplitAt(a + b, i);
    } else {
      SplitNone(a, []);
      assert Split(a).payloads == [];
    }
  }

  lemma SplitAt(s: Bytes, i: nat)
    requires FindBlank(s) == Some(i)
    ensures var rest := Split(s[i + 2..]);
      Split(s) == Pieces(DataOf(Lines(s[..i])) + rest.payloads, rest.tail)
  {
    hide FindBlank, DataOf, Lines;
  }

  lemma {:induction false} TailHasNoCr(s: Bytes)
    requires WithoutCr(s) == s
    ensures WithoutCr(Split(s).tail) == Split(s).tail
    decreases |s|
  {
    hide FindBlank, WithoutCr, DataOf, Lines;
    if FindBlank(s).Some? {
      var i := FindBlank(s).value;
      assert s == s[..i + 2] + s[i + 2..];
      WithoutCrConcat(s[..i + 2], s[i + 2..]);
      WithoutCrShorter(s[..i + 2]);
      WithoutCrShorter(s[i + 2..]);
      TailHasNoCr(s[i + 2..]);
    }
  }

  /** Stripping never lengthens, and keeps the length only when there is nothing to strip. */
  lemma {:induction false} WithoutCrShorter(s: Bytes)
    ensures |WithoutCr(s)| <= |s|
    ensures |WithoutCr(s)| == |s| ==> WithoutCr(s) == s
  {
    if s != [] {
      WithoutCrShorter(s[1..]);
    }
  }

  function Concat(chunks: seq<Bytes>): Bytes {
    if chunks == [] then [] else chunks[0] + Concat(chunks[1..])
  }

  /** The stream read so far, chunk by chunk, with the tail carried. */
  function Feed(tail: Bytes, chunks: seq<Bytes>): Pieces
    decreases |chunks|
  {
    if chunks == [] then Pieces([], tail)
    else
      var first := Split(WithoutCr(tail + chunks[0]));
      var rest := Feed(first.tail, chunks[1..]);
      Pieces(first.payloads + rest.payloads, rest.tail)
  }

  lemma ConcatNothing(tail: Bytes)
    ensures tail + WithoutCr(Concat([])) == tail
  {
  }

  lemma {:induction false} FeedIsSplit(tail: Bytes, chunks: seq<Bytes>)
    requires WithoutCr(tail) == tail && FindBlank(tail).None?
    ensures Feed(tail, chunks) == Split(tail + WithoutCr(Concat(chunks)))
    decreases |chunks|
  {
    hide WithoutCr, DataOf, Lines, FindBlank;
    if chunks == [] {
      ConcatNothing(tail);
    } else {
      var now := WithoutCr(tail + chunks[0]);
      WithoutCrConcat(tail, chunks[0]);
      WithoutCrConcat(chunks[0], Concat(chunks[1..]));
      WithoutCrTwice(chunks[0]);
      WithoutCrConcat(tail, WithoutCr(chunks[0]));
      TailHasNoCr(now);
      TailIsOpen(now);
      SplitConcat(now, WithoutCr(Concat(chunks[1..])));
      assert tail + WithoutCr(Concat(chunks)) == now + WithoutCr(Concat(chunks[1..]));
      FeedIsSplit(Split(now).tail, chunks[1..]);
    }
  }

  lemma {:induction false} TailIsOpen(s: Bytes)
    ensures FindBlank(Split(s).tail).None?
    decreases |s|
  {
    if FindBlank(s).Some? {
      TailIsOpen(s[FindBlank(s).value + 2..]);
    }
  }

  /** Any two chunkings of one byte stream give the same payloads and the same tail, those of one call
      on the whole stream; carriage returns make no difference. */
  lemma ChunkingIsIrrelevant(chunks: seq<Bytes>, others: seq<Bytes>)
    requires WithoutCr(Concat(chunks)) == WithoutCr(Concat(others))
    ensures Feed([], chunks) == Feed([], others) == Split(WithoutCr(Concat(chunks)))
  {
    FeedIsSplit([], chunks);
    FeedIsSplit([], others);
    assert [] + WithoutCr(Concat(chunks)) == WithoutCr(Concat(chunks));
  }

  // ----- frames and back ----------------------------------------------------------------------

  /** One frame as the server writes it: `data: `, the payload, an empty line. */
  function Frame(payload: Bytes): Bytes {
    DATA + [32] + payload + [LF, LF]
  }

  function Frames(payloads: seq<Bytes>): Bytes {
    if payloads == [] then [] else Frame(payloads[0]) + Frames(payloads[1..])
  }

  /** What `json.dumps` writes: one line that neither starts nor ends with whitespace. */
  predicate Plain(p: Bytes) {
    && (forall i :: 0 <= i < |p| ==> p[i] != CR && p[i] != LF)
    && p != [] && !IsSpace(p[0]) && !IsSpace(p[|p| - 1])
  }

  lemma {:induction false} NoBlankBefore(s: Bytes, i: nat)
    requires i + 1 < |s| && s[i] == LF && s[i + 1] == LF && forall j :: 0 <= j < i ==> s[j] != LF
    ensures FindBlank(s) == Some(i)
  {
    if i > 0 {
      NoBlankBefore(s[1..], i - 1);
    }
  }

  lemma {:induction false} OneLine(s: Bytes)
    requires forall j :: 0 <= j < |s| ==> s[j] != LF
    ensures Lines(s) == [s]
  {
    if s != [] {
      OneLine(s[1..]);
      assert [s[0]] + s[1..] == s;
    }
  }

  lemma StripSpacePlain(p: Bytes)
    requires Plain(p)
    ensures Strip([32] + p) == p
  {
    assert ([32] + p)[1..] == p;
    assert LStrip(p) == p && RStrip(p) == p;
  }

  lemma FramePayload(p: Bytes)
    requires Plain(p)
    ensures var head := DATA + [32] + p; DataOf(Lines(head)) == [p]
  {
    var head := DATA + [32] + p;
    OneLine(head);
    assert DATA <= head && head[5..] == [32] + p;
    StripSpacePlain(p);
    assert [head][1..] == [];
  }

  lemma HeadBeforeBlank(p: Bytes, rest: Bytes)
    requires Plain(p)
    ensures FindBlank(DATA + [32] + p + [LF, LF] + rest) == Some(|DATA| + 1 + |p|)
  {
    var head := DATA + [32] + p;
    var s := head + [LF, LF] + rest;
    var i := |head|;
    assert forall j :: 0 <= j < i ==> head[j] != LF;
    assert forall j :: 0 <= j < i ==> s[j] == head[j];
    assert s[i] == LF && s[i + 1] == LF;
    NoBlankBefore(s, i);
  }

  /** The splitter reads back exactly what was framed, and leaves nothing over. */
  lemma {:induction false} SplitFrames(payloads: seq<Bytes>)
    requires forall p :: p in payloads ==> Plain(p)
    ensures Split(Frames(payloads)) == Pieces(payloads, [])
  {
    if payloads != [] {
      var p := payloads[0];
      var rest := Frames(payloads[1..]);
      var s := Frames(payloads);
      var i := |DATA| + 1 + |p|;
      var head := DATA + [32] + p;
      assert s == head + [LF, LF] + rest;
      HeadBeforeBlank(p, rest);
      assert s[..i] == head && s[i + 2..] == rest;
      FramePayload(p);
      SplitFrames(payloads[1..]);
    }
  }

  // ----- blocks of several lines --------------------------------------------------------------

  /** A line of a block: a payload between whitespace after `data:`, or anything that begins otherwise. */
  datatype Line = Data(left: Bytes, payload: Bytes, right: Bytes) | Other(text: Bytes)

  predicate Blank(s: Bytes) {
    forall i :: 0 <= i < |s| ==> s[i] == 32 || s[i] == 9 || s[i] == 11 || s[i] == 12
  }

  predicate Trimmed(p: Bytes) {
    p != [] ==> !IsSpace(p[0]) && !IsSpace(p[|p| - 1])
  }

  function TextOf(x: Line): Bytes {
    match x
    case Data(left, payload, right) => [100, 97, 116, 97, 58] + left + payload + right
    case Other(text) => text
  }

  predicate LineOk(x: Line) {
    && (forall i :: 0 <= i < |TextOf(x)| ==> TextOf(x)[i] != LF)
    && (x.Data? ==> Blank(x.left) && Blank(x.right) && Trimmed(x.payload))
    && (x.Other? ==> |x.text| < 5 || x.text[..5] != [100, 97, 116, 97, 58])
  }

  /** At least one line; only the first may be empty, for an empty line ends a block. */
  predicate BlockOk(block: seq<Line>) {
    && block != [] && (forall k :: 0 <= k < |block| ==> LineOk(block[k]))
    && (forall k :: 1 <= k < |block| ==> TextOf(block[k]) != [])
  }

  function Joined(block: seq<Line>): Bytes {
    if block == [] then [] else if |block| == 1 then TextOf(block[0]) else TextOf(block[0]) + [LF] + Joined(block[1..])
  }

  function Blocks(blocks: seq<seq<Line>>): Bytes {
    if blocks == [] then [] else Joined(blocks[0]) + [LF, LF] + Blocks(blocks[1..])
  }

  function PayloadsIn(block: seq<Line>): seq<Bytes> {
    if block == [] then [] else (if block[0].Data? then [block[0].payload] else []) + PayloadsIn(block[1..])
  }

  function AllPayloads(blocks: seq<seq<Line>>): seq<Bytes> {
    if blocks == [] then [] else PayloadsIn(blocks[0]) + AllPayloads(blocks[1..])
  }

  function TextsOf(block: seq<Line>): seq<Bytes> {
    if block == [] then [] else [TextOf(block[0])] + TextsOf(block[1..])
  }

  lemma {:induction false} LStripBlank(left: Bytes, t: Bytes)
    requires Blank(left)
    ensures LStrip(left + t) == LStrip(t)
  {
    if left == [] { assert left + t == t; } else {
      assert (left + t)[1..] == left[1..] + t && IsSpace(left[0]);
      LStripBlank(left[1..], t);
    }
  }

  lemma {:induction false} RStripBlank(t: Bytes, right: Bytes)
    requires Blank(right)
    ensures RStrip(t + right) == RStrip(t)
    decreases |right|
  {
    if right == [] { assert t + right == t; } else {
      var n := |right| - 1;
      assert (t + right)[..|t + right| - 1] == t + right[..n] && IsSpace(right[n]) && (t + right)[|t + right| - 1] == right[n];
      RStripBlank(t, right[..n]);
    }
  }

  lemma StripExact(left: Bytes, p: Bytes, right: Bytes)
    requires Blank(left) && Blank(right) && Trimmed(p)
    ensures Strip(left + p + right) == p
  {
    assert left + p + right == left + (p + right);
    LStripBlank(left, p + right);
    if p == [] {
      assert p + right == right == right + [];
      LStripBlank(right, []);
    } else {
      assert LStrip(p + right) == p + right;
      RStripBlank(p, right);
    }
  }

  lemma {:induction false} DataOfTexts(block: seq<Line>)
    requires forall k :: 0 <= k < |block| ==> LineOk(block[k])
    ensures DataOf(TextsOf(block)) == PayloadsIn(block)
  {
    if block != [] {
      hide Strip, Blank, Trimmed;
      DataOfTexts(block[1..]);
      assert TextsOf(block)[1..] == TextsOf(block[1..]);
      OneLineData(block[0]);
    }
  }

  lemma OneLineData(x: Line)
    requires LineOk(x)
    ensures DATA <= TextOf(x) <==> x.Data?
    ensures x.Data? ==> Strip(TextOf(x)[5..]) == x.payload
  {
    if x.Data? {
      StripExact(x.left, x.payload, x.right);
      assert TextOf(x)[5..] == x.left + x.payload + x.right;
    }
  }

  lemma {:induction false} LinesOne(a: Bytes, rest: Bytes)
    requires forall j :: 0 <= j < |a| ==> a[j] != LF
    ensures Lines(a + [LF] + rest) == [a] + Lines(rest)
  {
    var s := a + [LF] + rest;
    if a == [] {
      assert s[1..] == rest;
    } else {
      LinesOne(a[1..], rest);
      assert s[1..] == a[1..] + [LF] + rest;
      assert [a[0]] + a[1..] == a;
    }
  }

  lemma {:induction false} LinesJoined(block: seq<Line>)
    requires block != [] && forall k :: 0 <= k < |block| ==> LineOk(block[k])
    ensures Lines(Joined(block)) == TextsOf(block)
  {
    hide LineOk, TextOf;
    forall k | 0 <= k < |block| ensures forall j :: 0 <= j < |TextOf(block[k])| ==> TextOf(block[k])[j] != LF {
      LineHasNoBreak(block[k]);
    }
    if |block| == 1 {
      OneLine(TextOf(block[0]));
      assert TextsOf(block[1..]) == [];
    } else {
      LinesJoined(block[1..]);
      LinesOne(TextOf(block[0]), Joined(block[1..]));
    }
  }

  lemma LineHasNoBreak(x: Line)
    requires LineOk(x)
    ensures forall j :: 0 <= j < |TextOf(x)| ==> TextOf(x)[j] != LF
  {
  }

  /** No two newlines in a row, none at the end, and none at the start. */
  predicate Solid(s: Bytes) {
    s != [] && s[0] != LF && s[|s| - 1] != LF && forall i :: 0 <= i < |s| - 1 ==> !(s[i] == LF && s[i + 1] == LF)
  }

  lemma SolidBreak(a: Bytes, rest: Bytes)
    requires (forall j :: 0 <= j < |a| ==> a[j] != LF) && Solid(rest)
    ensures var s := a + [LF] + rest;
      && (a != [] ==> Solid(s)) && s[|s| - 1] != LF
      && forall i :: 0 <= i < |s| - 1 ==> !(s[i] == LF && s[i + 1] == LF)
  {
    var s := a + [LF] + rest;
    forall i | 0 <= i < |s| - 1 ensures !(s[i] == LF && s[i + 1] == LF) {
      if i < |a| { assert s[i] == a[i]; } else if i > |a| {
        assert s[i] == rest[i - |a| - 1] && s[i + 1] == rest[i - |a|];
      } else { assert s[i + 1] == rest[0]; }
    }
  }

  lemma {:induction false} JoinedSolid(block: seq<Line>)
    requires block != [] && forall k :: 0 <= k < |block| ==> LineOk(block[k]) && TextOf(block[k]) != []
    ensures Solid(Joined(block))
  {
    hide LineOk, TextOf, Solid;
    LineHasNoBreak(block[0]);
    if |block| == 1 {
      UnbrokenSolid(TextOf(block[0]));
    } else {
      JoinedSolid(block[1..]);
      SolidBreak(TextOf(block[0]), Joined(block[1..]));
    }
  }

  lemma UnbrokenSolid(s: Bytes)
    requires s != [] && forall j :: 0 <= j < |s| ==> s[j] != LF
    ensures Solid(s)
  {
  }

  /** A block ends where the first empty line begins. */
  lemma BlockEnds(block: seq<Line>, rest: Bytes)
    requires BlockOk(block)
    ensures FindBlank(Joined(block) + [LF, LF] + rest) == Some(|Joined(block)|)
  {
    hide LineOk, TextOf, Solid;
    LineHasNoBreak(block[0]);
    if |block| > 1 {
      JoinedSolid(block[1..]);
      SolidBreak(TextOf(block[0]), Joined(block[1..]));
    }
    FirstBlank(Joined(block), rest);
  }

  lemma FirstBlank(head: Bytes, rest: Bytes)
    requires forall i :: 0 <= i < |head| - 1 ==> !(head[i] == LF && head[i + 1] == LF)
    requires head != [] ==> head[|head| - 1] != LF
    ensures FindBlank(head + [LF, LF] + rest) == Some(|head|)
  {
    var s := head + [LF, LF] + rest;
    assert s[|head|] == LF && s[|head| + 1] == LF;
    forall i | 0 <= i < |head| ensures !(s[i] == LF && s[i + 1] == LF) {
      assert s[i] == head[i];
      if i < |head| - 1 { assert s[i + 1] == head[i + 1]; }
    }
  }

  /** Blocks of any lines, and an unfinished tail: the payloads are those of the `data:` lines in order,
      without the whitespace around them, and the tail is left over. */
  lemma {:induction false} SplitBlocks(blocks: seq<seq<Line>>, tail: Bytes)
    requires (forall k :: 0 <= k < |blocks| ==> BlockOk(blocks[k])) && FindBlank(tail).None?
    ensures Split(Blocks(blocks) + tail) == Pieces(AllPayloads(blocks), tail)
    decreases |blocks|
  {
    hide FindBlank, BlockOk, Lines, DataOf, Joined, PayloadsIn;
    if blocks == [] {
      assert Blocks(blocks) + tail == tail;
    } else {
      var head, rest := Joined(blocks[0]), Blocks(blocks[1..]) + tail;
      var s := Blocks(blocks) + tail;
      assert s == head + [LF, LF] + rest;
      BlockEnds(blocks[0], rest);
      assert s[..|head|] == head && s[|head| + 2..] == rest;
      OneBlock(blocks[0]);
      SplitBlocks(blocks[1..], tail);
    }
  }

  lemma OneBlock(block: seq<Line>)
    requires BlockOk(block)
    ensures DataOf(Lines(Joined(block))) == PayloadsIn(block)
  {
    hide LineOk, TextOf;
    LinesJoined(block);
    DataOfTexts(block);
  }
}
