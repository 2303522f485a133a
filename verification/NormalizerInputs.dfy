/** What a stream leaves behind, said in terms of the payloads that came in.

    The functions here read payloads alone: they say what a caller who sees the whole stream expects, and
    the theorem compares it with the state and the events the normaliser builds up piece by piece. */
module NormalizerInputs {
  import opened Wrappers
  import opened Normalizer
  import NormalizerFacts
  import Sse

  // ----- reading the payloads -----------------------------------------------------------------

  /** The parsed payloads before the first that is no object, on which the code raises. */
  function Taken(payloads: seq<Sse.Bytes>, parse: Parser): seq<Payload> {
    if payloads == [] || parse(payloads[0]).NotAnObject? then []
    else [parse(payloads[0])] + Taken(payloads[1..], parse)
  }

  /** Every choice of every chunk, in order. */
  function ChoicesIn(ps: seq<Payload>): seq<Choice> {
    if ps == [] then [] else (if ps[0].Chunk? then ps[0].choices else []) + ChoicesIn(ps[1..])
  }

  /** Every tool-call piece of every choice, in order. */
  function PiecesIn(cs: seq<Choice>): seq<ToolPiece> {
    if cs == [] then [] else cs[0].tools + PiecesIn(cs[1..])
  }

  function ContentIn(cs: seq<Choice>): string {
    if cs == [] then "" else cs[0].content + ContentIn(cs[1..])
  }

  /** Of the two fields for reasoning the first that is not empty. */
  function ReasoningIn(cs: seq<Choice>): string {
    if cs == [] then ""
    else (if cs[0].reasoningContent != "" then cs[0].reasoningContent else cs[0].reasoning) + ReasoningIn(cs[1..])
  }

  /** The last finish reason that is not empty, or "". */
  function FinishIn(cs: seq<Choice>): string {
    if cs == [] then "" else if FinishIn(cs[1..]) != "" then FinishIn(cs[1..]) else cs[0].finish
  }

  function ArgumentsIn(ts: seq<ToolPiece>, idx: int): string {
    if ts == [] then "" else (if ts[0].index == idx then ts[0].arguments else "") + ArgumentsIn(ts[1..], idx)
  }

  /** The last id of this index that is not empty, or "". */
  function IdIn(ts: seq<ToolPiece>, idx: int): string {
    if ts == [] then "" else if IdIn(ts[1..], idx) != "" then IdIn(ts[1..], idx)
    else if ts[0].index == idx then ts[0].id else ""
  }

  /** The last name of this index that is not empty, or "". */
  function NameIn(ts: seq<ToolPiece>, idx: int): string {
    if ts == [] then "" else if NameIn(ts[1..], idx) != "" then NameIn(ts[1..], idx)
    else if ts[0].index == idx then ts[0].name else ""
  }

  predicate Mentions(ts: seq<ToolPiece>, idx: int) {
    exists k :: 0 <= k < |ts| && ts[k].index == idx
  }

  /** The usage of the last chunk that has one. */
  function UsageIn(ps: seq<Payload>): Option<Usage> {
    if ps == [] then None else if UsageIn(ps[1..]).Some? then UsageIn(ps[1..])
    else if ps[0].Chunk? then ps[0].usage else None
  }

  /** The first chunk id that is not empty, or "". */
  function FirstIdIn(ps: seq<Payload>): string {
    if ps == [] then "" else if ps[0].Chunk? && ps[0].id != "" then ps[0].id else FirstIdIn(ps[1..])
  }

  // ----- reading is piecewise -----------------------------------------------------------------

  lemma {:induction false} TextPartsIn(a: seq<Choice>, b: seq<Choice>)
    ensures ContentIn(a + b) == ContentIn(a) + ContentIn(b)
    ensures ReasoningIn(a + b) == ReasoningIn(a) + ReasoningIn(b)
    decreases |a|
  {
    if a == [] {
      assert a + b == b;
    } else {
      assert (a + b)[1..] == a[1..] + b;
      TextPartsIn(a[1..], b);
    }
  }

  lemma {:induction false} CallPartsIn(a: seq<Choice>, b: seq<Choice>)
    ensures FinishIn(a + b) == if FinishIn(b) != "" then FinishIn(b) else FinishIn(a)
    ensures PiecesIn(a + b) == PiecesIn(a) + PiecesIn(b)
    decreases |a|
  {
    if a == [] {
      assert a + b == b;
    } else {
      assert (a + b)[1..] == a[1..] + b;
      CallPartsIn(a[1..], b);
    }
  }

  lemma {:induction false} PiecePartsIn(a: seq<ToolPiece>, b: seq<ToolPiece>, idx: int)
    ensures ArgumentsIn(a + b, idx) == ArgumentsIn(a, idx) + ArgumentsIn(b, idx)
    ensures IdIn(a + b, idx) == if IdIn(b, idx) != "" then IdIn(b, idx) else IdIn(a, idx)
    ensures NameIn(a + b, idx) == if NameIn(b, idx) != "" then NameIn(b, idx) else NameIn(a, idx)
    decreases |a|
  {
    if a == [] {
      assert a + b == b;
    } else {
      assert (a + b)[1..] == a[1..] + b;
      PiecePartsIn(a[1..], b, idx);
    }
  }

  lemma MentionsParts(a: seq<ToolPiece>, b: seq<ToolPiece>, idx: int)
    ensures Mentions(a + b, idx) <==> Mentions(a, idx) || Mentions(b, idx)
  {
    if Mentions(b, idx) {
      var k :| 0 <= k < |b| && b[k].index == idx;
      assert (a + b)[|a| + k].index == idx;
    }
    if Mentions(a, idx) {
      var k :| 0 <= k < |a| && a[k].index == idx;
      assert (a + b)[k].index == idx;
    }
  }

  // ----- tool slots ---------------------------------------------------------------------------

  function SlotAt(tools: map<int, Slot>, idx: int): Slot {
    if idx in tools then tools[idx] else Slot("", "", "", false)
  }

  /** These pieces, on top of what a slot held before, make what it holds after. */
  predicate SlotTook(was: map<int, Slot>, now: map<int, Slot>, ts: seq<ToolPiece>, idx: int) {
    && (idx in now <==> idx in was || Mentions(ts, idx))
    && SlotAt(now, idx).argsText == SlotAt(was, idx).argsText + ArgumentsIn(ts, idx)
    && SlotAt(now, idx).id == (if IdIn(ts, idx) != "" then IdIn(ts, idx) else SlotAt(was, idx).id)
    && SlotAt(now, idx).name == (if NameIn(ts, idx) != "" then NameIn(ts, idx) else SlotAt(was, idx).name)
  }

  lemma SlotTookBoth(a: map<int, Slot>, b: map<int, Slot>, c: map<int, Slot>, s: seq<ToolPiece>, t: seq<ToolPiece>, idx: int)
    requires SlotTook(a, b, s, idx) && SlotTook(b, c, t, idx)
    ensures SlotTook(a, c, s + t, idx)
  {
    hide Mentions, ArgumentsIn, IdIn, NameIn;
    PiecePartsIn(s, t, idx);
    MentionsParts(s, t, idx);
  }

  lemma AddPieceTook(o: Out, t: ToolPiece, idx: int)
    ensures SlotTook(o.state.tools, AddPiece(o, t).state.tools, [t], idx)
  {
    assert [t][1..] == [];
    assert t.index == idx ==> [t][0].index == idx;
  }

  lemma {:induction false} AddPiecesTook(o: Out, ts: seq<ToolPiece>, idx: int)
    ensures SlotTook(o.state.tools, AddPieces(o, ts).state.tools, ts, idx)
    decreases |ts|
  {
    hide AddPiece;
    if ts != [] {
      hide SlotTook;
      var n := AddPiece(o, ts[0]);
      AddPieceTook(o, ts[0], idx);
      AddPiecesTook(n, ts[1..], idx);
      SlotTookBoth(o.state.tools, n.state.tools, AddPieces(n, ts[1..]).state.tools, [ts[0]], ts[1..], idx);
      assert [ts[0]] + ts[1..] == ts;
    }
  }

  /** Pieces leave everything else alone. */
  lemma {:induction false} AddPiecesRest(o: Out, ts: seq<ToolPiece>)
    ensures var n := AddPieces(o, ts); n.failed == o.failed && n.state == o.state.(tools := n.state.tools)
    decreases |ts|
  {
    if ts != [] { AddPiecesRest(AddPiece(o, ts[0]), ts[1..]); }
  }

  /** Emitting calls changes nothing but the flags. */
  lemma {:induction false} EmitAllRest(o: Out, idxs: seq<int>, clients: set<string>)
    ensures var n := EmitAll(o, idxs, clients);
      && n.failed == o.failed && n.state == o.state.(tools := n.state.tools)
      && forall idx :: SlotTook(o.state.tools, n.state.tools, [], idx)
    decreases |idxs|
  {
    if idxs != [] {
      var m := EmitOne(o, idxs[0], clients);
      EmitAllRest(m, idxs[1..], clients);
      forall idx ensures SlotTook(o.state.tools, EmitAll(o, idxs, clients).state.tools, [], idx) {
        assert SlotTook(m.state.tools, EmitAll(o, idxs, clients).state.tools, [], idx);
      }
    }
  }

  // ----- choices ------------------------------------------------------------------------------

  /** The answer for a finish reason, in the four cases. */
  predicate Answers(raw: string, answer: string) {
    && (|raw| >= 8 && raw[..8] == "runaway_" ==> answer == "guard")
    && (raw in {"stop", "length", "tool_calls"} ==> answer == raw)
    && (!(|raw| >= 8 && raw[..8] == "runaway_") && raw !in {"stop", "length", "tool_calls"} ==> answer == "stop")
  }

  predicate FinishTook(was: Option<string>, now: Option<string>, raw: string) {
    if raw == "" then now == was else now.Some? && Answers(raw, now.value)
  }

  ghost predicate ChoicesTook(was: State, now: State, cs: seq<Choice>) {
    && now.text == was.text + ContentIn(cs)
    && now.reasoning == was.reasoning + ReasoningIn(cs)
    && FinishTook(was.finish, now.finish, FinishIn(cs))
    && forall idx :: SlotTook(was.tools, now.tools, PiecesIn(cs), idx)
  }

  lemma ChoicesTookBoth(a: State, b: State, c: State, s: seq<Choice>, t: seq<Choice>)
    requires ChoicesTook(a, b, s) && ChoicesTook(b, c, t)
    ensures ChoicesTook(a, c, s + t)
  {
    hide SlotTook, ContentIn, ReasoningIn, FinishIn, PiecesIn, Answers;
    TextPartsIn(s, t);
    CallPartsIn(s, t);
    forall idx ensures SlotTook(a.tools, c.tools, PiecesIn(s + t), idx) {
      SlotTookBoth(a.tools, b.tools, c.tools, PiecesIn(s), PiecesIn(t), idx);
    }
  }

  lemma MapFinishAnswers(raw: string)
    ensures Answers(raw, MapFinish(raw))
  {
    assert |GUARD_PREFIX| == 8;
    assert |"stop"| == 4 && |"length"| == 6;
    assert "tool_calls"[0] != 'r';
    if |raw| >= 8 && raw[..8] == "runaway_" {
      assert raw[0] == raw[..8][0];
    }
  }

  lemma FinishTakes(o: Out, raw: string, clients: set<string>)
    ensures var n := Finish(o, raw, clients);
      && n.failed == o.failed && n.state == o.state.(tools := n.state.tools, finish := n.state.finish)
      && FinishTook(o.state.finish, n.state.finish, raw)
      && forall idx :: SlotTook(o.state.tools, n.state.tools, [], idx)
  {
    hide SlotTook, EmitAll, Ascending, Answers, MapFinish;
    MapFinishAnswers(raw);
    var m := if raw == "" then o else o.(state := o.state.(finish := Some(MapFinish(raw))));
    EmitAllRest(m, [], clients);
    assert EmitAll(m, [], clients) == m by { EmitNobody(m, clients); }
    EmitAllRest(m, Ascending(m.state.tools.Keys), clients);
  }

  lemma EmitNobody(o: Out, clients: set<string>)
    ensures EmitAll(o, [], clients) == o
  {
  }

  lemma OneChoiceIn(c: Choice)
    ensures ContentIn([c]) == c.content && FinishIn([c]) == c.finish && PiecesIn([c]) == c.tools
    ensures ReasoningIn([c]) == if c.reasoningContent != "" then c.reasoningContent else c.reasoning
  {
    assert [c][1..] == [];
  }

  lemma AddChoiceTook(o: Out, c: Choice, clients: set<string>)
    ensures var n := AddChoice(o, c, clients);
      && ChoicesTook(o.state, n.state, [c])
      && n.failed == o.failed && n.state.usage == o.state.usage && n.state.upstreamId == o.state.upstreamId
  {
    hide SlotTook, Answers, AddPieces, Finish, ContentIn, ReasoningIn, FinishIn, PiecesIn, FinishTook;
    OneChoiceIn(c);
    var x := AddText(AddReasoning(o, ReasoningOf(c)), c.content);
    var y := AddPieces(x, c.tools);
    AddPiecesRest(x, c.tools);
    FinishTakes(y, c.finish, clients);
    var n := Finish(y, c.finish, clients);
    forall idx ensures SlotTook(o.state.tools, n.state.tools, PiecesIn([c]), idx) {
      AddPiecesTook(x, c.tools, idx);
      SlotTookBoth(x.state.tools, y.state.tools, n.state.tools, c.tools, [], idx);
      assert c.tools + [] == c.tools;
    }
  }

  lemma NoChoicesTook(s: State, n: State)
    requires n.text == s.text && n.reasoning == s.reasoning && n.finish == s.finish && n.tools == s.tools
    ensures ChoicesTook(s, n, [])
  {
  }

  lemma {:induction false} AddChoicesTook(o: Out, cs: seq<Choice>, clients: set<string>)
    ensures var n := AddChoices(o, cs, clients);
      && ChoicesTook(o.state, n.state, cs)
      && n.failed == o.failed && n.state.usage == o.state.usage && n.state.upstreamId == o.state.upstreamId
    decreases |cs|
  {
    hide ChoicesTook, AddChoice;
    if cs == [] { NoChoicesTook(o.state, o.state); } else {
      var n := AddChoice(o, cs[0], clients);
      AddChoiceTook(o, cs[0], clients);
      AddChoicesTook(n, cs[1..], clients);
      ChoicesTookBoth(o.state, n.state, AddChoices(n, cs[1..], clients).state, [cs[0]], cs[1..]);
      assert [cs[0]] + cs[1..] == cs;
    }
  }

  // ----- payloads -----------------------------------------------------------------------------

  ghost predicate PayloadsTook(was: State, now: State, ps: seq<Payload>) {
    && ChoicesTook(was, now, ChoicesIn(ps))
    && now.usage == (if UsageIn(ps).Some? then UsageIn(ps) else was.usage)
    && now.upstreamId == (if was.upstreamId != "" then was.upstreamId else FirstIdIn(ps))
  }

  lemma OnePayloadIn(p: Payload)
    ensures ChoicesIn([p]) == (if p.Chunk? then p.choices else [])
    ensures UsageIn([p]) == (if p.Chunk? then p.usage else None) && FirstIdIn([p]) == (if p.Chunk? then p.id else "")
  {
    assert [p][1..] == [];
  }

  lemma AddPayloadTook(o: Out, p: Payload, clients: set<string>)
    requires !o.failed && !p.NotAnObject?
    ensures PayloadsTook(o.state, AddPayload(o, p, clients).state, [p]) && !AddPayload(o, p, clients).failed
  {
    hide SlotTook, EmitAll, AddChoices, Ascending, ChoicesIn, UsageIn, FirstIdIn, ChoicesTook;
    OnePayloadIn(p);
    match p
    case Done =>
      FlushTook(o, clients);
    case Invalid =>
      NoChoicesTook(o.state, o.state);
    case Chunk(id, usage, choices) =>
      var m := AddHead(o, id, usage);
      AddChoicesTook(m, choices, clients);
      SameBase(o.state, m.state, AddChoices(m, choices, clients).state, choices);
  }

  lemma FlushTook(o: Out, clients: set<string>)
    ensures var n := Flush(o, clients);
      && ChoicesTook(o.state, n.state, [])
      && n.failed == o.failed && n.state.usage == o.state.usage && n.state.upstreamId == o.state.upstreamId
  {
    hide SlotTook, Ascending, EmitAll;
    EmitAllRest(o, Ascending(o.state.tools.Keys), clients);
  }

  lemma SameBase(s: State, m: State, n: State, cs: seq<Choice>)
    requires ChoicesTook(m, n, cs)
    requires s == m.(usage := s.usage, upstreamId := s.upstreamId)
    ensures ChoicesTook(s, n, cs)
  {
    hide SlotTook, Answers, ContentIn, ReasoningIn, FinishIn, PiecesIn;
  }

  lemma PayloadsTookBoth(a: State, b: State, c: State, p: Payload, ps: seq<Payload>)
    requires PayloadsTook(a, b, [p]) && PayloadsTook(b, c, ps)
    ensures PayloadsTook(a, c, [p] + ps)
  {
    hide ChoicesTook;
    var all := [p] + ps;
    assert all[1..] == ps && all[0] == p;
    OnePayloadIn(p);
    ChoicesTookBoth(a, b, c, ChoicesIn([p]), ChoicesIn(ps));
  }

  lemma {:induction false} FailedTakesNothing(o: Out, payloads: seq<Sse.Bytes>, parse: Parser, clients: set<string>)
    requires o.failed
    ensures AddPayloads(o, payloads, parse, clients) == o
    decreases |payloads|
  {
    if payloads != [] { FailedTakesNothing(o, payloads[1..], parse, clients); }
  }

  lemma {:induction false} AddPayloadsTook(o: Out, payloads: seq<Sse.Bytes>, parse: Parser, clients: set<string>)
    requires !o.failed
    ensures PayloadsTook(o.state, AddPayloads(o, payloads, parse, clients).state, Taken(payloads, parse))
    ensures AddPayloads(o, payloads, parse, clients).failed <==> |Taken(payloads, parse)| < |payloads|
    decreases |payloads|
  {
    hide AddChoices, AddHead, Flush, PayloadsTook;
    if payloads == [] {
      NothingTaken(o.state);
    } else if parse(payloads[0]).NotAnObject? {
      NothingTaken(o.state);
      FailedTakesNothing(o.(failed := true), payloads[1..], parse, clients);
    } else {
      var p, n := parse(payloads[0]), AddPayload(o, parse(payloads[0]), clients);
      AddPayloadTook(o, p, clients);
      AddPayloadsTook(n, payloads[1..], parse, clients);
      PayloadsTookBoth(o.state, n.state, AddPayloads(n, payloads[1..], parse, clients).state, p, Taken(payloads[1..], parse));
    }
  }

  lemma NothingTaken(s: State)
    ensures PayloadsTook(s, s, [])
  {
  }

  /** What a state must be after these payloads: the content of all choices one after the other, the reasoning
      likewise, the last usage, the first id, the last finish reason, and for each tool index its arguments
      one after the other with the last id and the last name given for it. */
  ghost predicate ReadOff(s: State, ps: seq<Payload>) {
    var cs, ts := ChoicesIn(ps), PiecesIn(ChoicesIn(ps));
    && s.text == ContentIn(cs) && s.reasoning == ReasoningIn(cs)
    && s.usage == UsageIn(ps) && s.upstreamId == FirstIdIn(ps)
    && (if FinishIn(cs) == "" then s.finish.None? else s.finish.Some? && Answers(FinishIn(cs), s.finish.value))
    && (forall idx :: idx in s.tools <==> Mentions(ts, idx))
    && (forall idx :: idx in s.tools ==>
          && s.tools[idx].argsText == ArgumentsIn(ts, idx)
          && s.tools[idx].id == IdIn(ts, idx) && s.tools[idx].name == NameIn(ts, idx))
  }

  lemma TookFromStart(s: State, ps: seq<Payload>)
    requires PayloadsTook(START.state, s, ps)
    ensures ReadOff(s, ps)
  {
    hide Answers, ContentIn, ReasoningIn, UsageIn, FirstIdIn, FinishIn, Mentions, ArgumentsIn, IdIn, NameIn, ChoicesIn, PiecesIn;
    var ts := PiecesIn(ChoicesIn(ps));
    forall idx ensures idx in s.tools <==> Mentions(ts, idx) { assert SlotTook(START.state.tools, s.tools, ts, idx); }
    forall idx | idx in s.tools
      ensures s.tools[idx].argsText == ArgumentsIn(ts, idx)
      ensures s.tools[idx].id == IdIn(ts, idx) && s.tools[idx].name == NameIn(ts, idx)
    {
      assert SlotTook(START.state.tools, s.tools, ts, idx);
      assert SlotAt(START.state.tools, idx) == Slot("", "", "", false);
    }
  }

  /** The state after any stream is read off the payloads that came before the first that is no object. */
  lemma StateComesFromPayloads(chunks: seq<Sse.Bytes>, parse: Parser, clients: set<string>)
    ensures var payloads, o := Sse.Feed([], chunks).payloads, NormalizerFacts.Stream(chunks, parse, clients);
      ReadOff(o.state, Taken(payloads, parse)) && (o.failed <==> |Taken(payloads, parse)| < |payloads|)
  {
    hide ReadOff, Taken, AddPayloads, PayloadsTook, Sse.Feed;
    var payloads := Sse.Feed([], chunks).payloads;
    AddPayloadsTook(START, payloads, parse, clients);
    TookFromStart(NormalizerFacts.Stream(chunks, parse, clients).state, Taken(payloads, parse));
  }
}
