/** When a tool call is emitted complete: at the first flush after its index was named, said in terms of the
    payloads that came in, and what a flush puts out. */
module NormalizerCalls {
  import opened Normalizer
  import Wrappers
  import opened NormalizerInputs
  import NormalizerFacts
  import Sse

  /** A piece that names an index, or a finish reason or end marker that flushes. */
  datatype Mark = Named(index: int) | Flushed

  function PieceMarks(ts: seq<ToolPiece>): seq<Mark> {
    if ts == [] then [] else [Named(ts[0].index)] + PieceMarks(ts[1..])
  }

  function ChoiceMarks(cs: seq<Choice>): seq<Mark> {
    if cs == [] then []
    else PieceMarks(cs[0].tools) + (if cs[0].finish != "" then [Flushed] else []) + ChoiceMarks(cs[1..])
  }

  function MarksOf(p: Payload): seq<Mark> {
    match p
    case Done => [Flushed]
    case Chunk(_, _, choices) => ChoiceMarks(choices)
    case _ => []
  }

  function Marks(ps: seq<Payload>): seq<Mark> {
    if ps == [] then [] else MarksOf(ps[0]) + Marks(ps[1..])
  }

  /** Something flushes after a piece of this index. */
  predicate FlushedLater(ms: seq<Mark>, idx: int) {
    exists i, j :: 0 <= i < j < |ms| && ms[i] == Named(idx) && ms[j] == Flushed
  }

  lemma FlushedLaterParts(a: seq<Mark>, b: seq<Mark>, idx: int)
    ensures FlushedLater(a + b, idx)
      <==> FlushedLater(a, idx) || FlushedLater(b, idx) || (Named(idx) in a && Flushed in b)
  {
    var ms := a + b;
    if FlushedLater(a, idx) {
      var i, j :| 0 <= i < j < |a| && a[i] == Named(idx) && a[j] == Flushed;
      assert ms[i] == Named(idx) && ms[j] == Flushed;
    }
    if FlushedLater(b, idx) {
      var i, j :| 0 <= i < j < |b| && b[i] == Named(idx) && b[j] == Flushed;
      assert ms[|a| + i] == Named(idx) && ms[|a| + j] == Flushed;
    }
    if Named(idx) in a && Flushed in b {
      var i :| 0 <= i < |a| && a[i] == Named(idx);
      var j :| 0 <= j < |b| && b[j] == Flushed;
      assert ms[i] == Named(idx) && ms[|a| + j] == Flushed;
    }
    if FlushedLater(ms, idx) {
      var i, j :| 0 <= i < j < |ms| && ms[i] == Named(idx) && ms[j] == Flushed;
      if j < |a| {
        assert a[i] == Named(idx) && a[j] == Flushed;
      } else if i >= |a| {
        assert b[i - |a|] == Named(idx) && b[j - |a|] == Flushed;
      } else {
        assert a[i] == Named(idx) && b[j - |a|] == Flushed;
      }
    }
  }

  predicate EmittedIn(tools: map<int, Slot>, idx: int) {
    idx in tools && tools[idx].emitted
  }

  /** What these marks do to one slot. */
  predicate MarkedTo(was: map<int, Slot>, now: map<int, Slot>, ms: seq<Mark>, idx: int) {
    && (idx in now <==> idx in was || Named(idx) in ms)
    && (EmittedIn(now, idx) <==> EmittedIn(was, idx) || (idx in was && Flushed in ms) || FlushedLater(ms, idx))
  }

  lemma MarkedBoth(a: map<int, Slot>, b: map<int, Slot>, c: map<int, Slot>, s: seq<Mark>, t: seq<Mark>, idx: int)
    requires MarkedTo(a, b, s, idx) && MarkedTo(b, c, t, idx)
    ensures MarkedTo(a, c, s + t, idx)
  {
    hide FlushedLater;
    FlushedLaterParts(s, t, idx);
  }

  lemma NothingMarked(tools: map<int, Slot>, idx: int)
    ensures MarkedTo(tools, tools, [], idx)
  {
  }

  lemma PieceMarked(o: Out, t: ToolPiece, idx: int)
    ensures MarkedTo(o.state.tools, AddPiece(o, t).state.tools, [Named(t.index)], idx)
  {
  }

  lemma {:induction false} PiecesMarked(o: Out, ts: seq<ToolPiece>, idx: int)
    ensures MarkedTo(o.state.tools, AddPieces(o, ts).state.tools, PieceMarks(ts), idx)
    decreases |ts|
  {
    hide AddPiece, MarkedTo;
    if ts == [] { NothingMarked(o.state.tools, idx); } else {
      var n := AddPiece(o, ts[0]);
      PieceMarked(o, ts[0], idx);
      PiecesMarked(n, ts[1..], idx);
      MarkedBoth(o.state.tools, n.state.tools, AddPieces(n, ts[1..]).state.tools, [Named(ts[0].index)], PieceMarks(ts[1..]), idx);
    }
  }

  lemma FlushMarked(o: Out, clients: set<string>, idx: int)
    ensures MarkedTo(o.state.tools, Flush(o, clients).state.tools, [Flushed], idx)
  {
    hide EmitAll, Ascending;
    NormalizerFacts.EmitAllEmits(o, Ascending(o.state.tools.Keys), clients);
    NormalizerFacts.AscendingLists(o.state.tools.Keys);
    var n := Flush(o, clients);
    assert EmittedIn(n.state.tools, idx) <==> NormalizerFacts.Emitted(n, idx);
    assert EmittedIn(o.state.tools, idx) <==> NormalizerFacts.Emitted(o, idx);
    assert idx in n.state.tools <==> idx in n.state.tools.Keys;
    assert idx in o.state.tools <==> idx in o.state.tools.Keys;
  }

  lemma ChoiceMarked(o: Out, c: Choice, clients: set<string>, idx: int)
    ensures MarkedTo(o.state.tools, AddChoice(o, c, clients).state.tools,
                     PieceMarks(c.tools) + (if c.finish != "" then [Flushed] else []), idx)
  {
    hide MarkedTo, AddPieces, Flush;
    var x := AddText(AddReasoning(o, ReasoningOf(c)), c.content);
    var y := AddPieces(x, c.tools);
    PiecesMarked(x, c.tools, idx);
    if c.finish != "" {
      FlushMarked(y.(state := y.state.(finish := Wrappers.Some(MapFinish(c.finish)))), clients, idx);
    } else {
      NothingMarked(y.state.tools, idx);
    }
    MarkedBoth(o.state.tools, y.state.tools, AddChoice(o, c, clients).state.tools, PieceMarks(c.tools),
               if c.finish != "" then [Flushed] else [], idx);
  }

  lemma {:induction false} ChoicesMarked(o: Out, cs: seq<Choice>, clients: set<string>, idx: int)
    ensures MarkedTo(o.state.tools, AddChoices(o, cs, clients).state.tools, ChoiceMarks(cs), idx)
    decreases |cs|
  {
    hide MarkedTo, AddChoice, PieceMarks;
    if cs == [] { NothingMarked(o.state.tools, idx); } else {
      var n := AddChoice(o, cs[0], clients);
      var ms := PieceMarks(cs[0].tools) + if cs[0].finish != "" then [Flushed] else [];
      ChoiceMarked(o, cs[0], clients, idx);
      ChoicesMarked(n, cs[1..], clients, idx);
      MarkedBoth(o.state.tools, n.state.tools, AddChoices(n, cs[1..], clients).state.tools, ms, ChoiceMarks(cs[1..]), idx);
    }
  }

  lemma PayloadMarked(o: Out, p: Payload, clients: set<string>, idx: int)
    requires !o.failed && !p.NotAnObject?
    ensures MarkedTo(o.state.tools, AddPayload(o, p, clients).state.tools, MarksOf(p), idx)
  {
    hide MarkedTo, Flush, ChoiceMarks, AddChoices;
    match p
    case Done => FlushMarked(o, clients, idx);
    case Invalid => NothingMarked(o.state.tools, idx);
    case Chunk(id, usage, choices) => ChoicesMarked(AddHead(o, id, usage), choices, clients, idx);
  }

  lemma {:induction false} PayloadsMarked(o: Out, payloads: seq<Sse.Bytes>, parse: Parser, clients: set<string>, idx: int)
    requires !o.failed
    ensures MarkedTo(o.state.tools, AddPayloads(o, payloads, parse, clients).state.tools, Marks(Taken(payloads, parse)), idx)
    decreases |payloads|
  {
    hide MarkedTo, AddChoices, AddHead, Flush, ChoiceMarks;
    if payloads == [] {
      NothingMarked(o.state.tools, idx);
    } else if parse(payloads[0]).NotAnObject? {
      NothingMarked(o.state.tools, idx);
      FailedTakesNothing(o.(failed := true), payloads[1..], parse, clients);
    } else {
      var p, n, rest := parse(payloads[0]), AddPayload(o, parse(payloads[0]), clients), Taken(payloads[1..], parse);
      PayloadMarked(o, p, clients, idx);
      AddPayloadTook(o, p, clients);
      PayloadsMarked(n, payloads[1..], parse, clients, idx);
      MarkedBoth(o.state.tools, n.state.tools, AddPayloads(n, payloads[1..], parse, clients).state.tools, MarksOf(p), Marks(rest), idx);
      assert ([p] + rest)[1..] == rest;
    }
  }

  /** A tool call is emitted complete exactly once if a finish reason or an end marker comes after a piece
      that names its index, and not at all otherwise. */
  lemma EmittedExactly(chunks: seq<Sse.Bytes>, parse: Parser, clients: set<string>, idx: int)
    ensures var o := NormalizerFacts.Stream(chunks, parse, clients);
      NormalizerFacts.Emissions(o.sent, idx)
      == if FlushedLater(Marks(Taken(Sse.Feed([], chunks).payloads, parse)), idx) then 1 else 0
  {
    hide AddPayloads, Sse.Feed, Marks, Taken, FlushedLater, NormalizerFacts.Emissions;
    var payloads := Sse.Feed([], chunks).payloads;
    PayloadsMarked(START, payloads, parse, clients, idx);
    var o := NormalizerFacts.Stream(chunks, parse, clients);
    NormalizerFacts.StreamFaithful(chunks, parse, clients);
    assert NormalizerFacts.ToolFaithful(o, idx);
  }

  // ----- what a flush puts out ------------------------------------------------------------------

  /** The event of one call, from its slot. */
  predicate CallOf(e: Event, tools: map<int, Slot>, clients: set<string>) {
    && e.ToolCall? && e.index in tools && !tools[e.index].emitted
    && e.id == tools[e.index].id && e.name == tools[e.index].name && e.argsText == tools[e.index].argsText
    && (e.client <==> e.name in clients)
  }

  lemma {:induction false} AscendingSorted(s: set<int>)
    ensures forall i, j :: 0 <= i < j < |Ascending(s)| ==> Ascending(s)[i] < Ascending(s)[j]
    decreases |s|
  {
    if s != {} {
      var m := LeastExists(s);
      AscendingStep(s, m);
      AscendingSorted(s - {m});
      NormalizerFacts.AscendingLists(s - {m});
      var rest := Ascending(s - {m});
      forall j | 0 <= j < |rest| ensures m < rest[j] { assert rest[j] in rest; }
    }
  }

  predicate SendsOne(o: Out, m: Out, idx: int, clients: set<string>) {
    var k := |o.sent|;
    m.sent == o.sent
    || (|m.sent| == k + 1 && m.sent[..k] == o.sent && CallOf(m.sent[k], o.state.tools, clients) && m.sent[k].index == idx)
  }

  lemma EmitOneSends(o: Out, idx: int, clients: set<string>)
    ensures SendsOne(o, EmitOne(o, idx, clients), idx, clients)
    ensures forall e :: CallOf(e, EmitOne(o, idx, clients).state.tools, clients) ==> CallOf(e, o.state.tools, clients)
  {
    var m := EmitOne(o, idx, clients);
    if m.sent != o.sent { assert m.sent[..|o.sent|] == o.sent; }
  }

  ghost predicate Sends(o: Out, n: Out, idxs: seq<int>, clients: set<string>) {
    var k := |o.sent|;
    && k <= |n.sent| && n.sent[..k] == o.sent
    && (forall i :: k <= i < |n.sent| ==> CallOf(n.sent[i], o.state.tools, clients) && n.sent[i].index in idxs)
    && (forall i, j :: k <= i < j < |n.sent| ==> n.sent[i].index < n.sent[j].index)
  }

  lemma {:induction false} EmitAllSends(o: Out, idxs: seq<int>, clients: set<string>)
    requires forall i, j :: 0 <= i < j < |idxs| ==> idxs[i] < idxs[j]
    ensures Sends(o, EmitAll(o, idxs, clients), idxs, clients)
    decreases |idxs|
  {
    if idxs == [] {
      assert EmitAll(o, idxs, clients) == o;
    } else {
      hide CallOf, EmitOne, EmitAll, SendsOne, Sends;
      var m := EmitOne(o, idxs[0], clients);
      var n := EmitAll(m, idxs[1..], clients);
      EmitOneSends(o, idxs[0], clients);
      EmitAllSends(m, idxs[1..], clients);
      SendsAfter(o, m, n, idxs, clients);
      assert n == EmitAll(o, idxs, clients) by { EmitAllStep(o, idxs, clients); }
    }
  }

  lemma SendsAfter(o: Out, m: Out, n: Out, idxs: seq<int>, clients: set<string>)
    requires idxs != [] && forall i, j :: 0 <= i < j < |idxs| ==> idxs[i] < idxs[j]
    requires SendsOne(o, m, idxs[0], clients)
    requires forall e :: CallOf(e, m.state.tools, clients) ==> CallOf(e, o.state.tools, clients)
    requires Sends(m, n, idxs[1..], clients)
    ensures Sends(o, n, idxs, clients)
  {
    var k := |o.sent|;
    assert n.sent[..k] == n.sent[..|m.sent|][..k];
    forall i | |m.sent| <= i < |n.sent|
      ensures CallOf(n.sent[i], o.state.tools, clients) && n.sent[i].index in idxs && n.sent[i].index > idxs[0]
    {
      var j :| 0 <= j < |idxs[1..]| && idxs[1..][j] == n.sent[i].index;
      assert idxs[0] < idxs[j + 1];
    }
    if |m.sent| > k {
      assert n.sent[k] == n.sent[..|m.sent|][k] == m.sent[k];
    }
  }

  /** A flush puts out calls alone, by ascending index, each with what its slot holds. */
  lemma FlushSends(o: Out, clients: set<string>)
    ensures var n, k := Flush(o, clients), |o.sent|;
      && k <= |n.sent| && n.sent[..k] == o.sent
      && (forall i :: k <= i < |n.sent| ==> CallOf(n.sent[i], o.state.tools, clients))
      && (forall i, j :: k <= i < j < |n.sent| ==> n.sent[i].index < n.sent[j].index)
  {
    AscendingSorted(o.state.tools.Keys);
    EmitAllSends(o, Ascending(o.state.tools.Keys), clients);
  }
}
