/** What the events of a stream say about its state, for every stream. */
module NormalizerFacts {
  import opened Wrappers
  import Sse
  import opened Normalizer

  function Last(es: seq<Event>): Event
    requires es != []
  {
    es[|es| - 1]
  }

  function Init(es: seq<Event>): seq<Event>
    requires es != []
  {
    es[..|es| - 1]
  }

  /** The text deltas, joined. */
  function Texts(es: seq<Event>): string {
    if es == [] then "" else Texts(Init(es)) + if Last(es).TextDelta? then Last(es).text else ""
  }

  function Reasonings(es: seq<Event>): string {
    if es == [] then "" else Reasonings(Init(es)) + if Last(es).ReasoningDelta? then Last(es).text else ""
  }

  /** The argument deltas of one tool call, joined. */
  function Arguments(es: seq<Event>, idx: int): string {
    if es == [] then "" else Arguments(Init(es), idx) + if Last(es).ToolDelta? && Last(es).index == idx then Last(es).argsText else ""
  }

  /** How often the tool call was emitted complete. */
  function Emissions(es: seq<Event>, idx: int): nat {
    if es == [] then 0 else Emissions(Init(es), idx) + if Last(es).ToolCall? && Last(es).index == idx then 1 else 0
  }

  /** The usage last announced. */
  function LastUsage(es: seq<Event>): Option<Usage> {
    if es == [] then None else if Last(es).UsageEvent? then Some(Last(es).usage) else LastUsage(Init(es))
  }

  /** The last delta of one tool call; it carries the id and the name in force then. */
  function LastDelta(es: seq<Event>, idx: int): Option<Event> {
    if es == [] then None
    else if Last(es).ToolDelta? && Last(es).index == idx then Some(Last(es))
    else LastDelta(Init(es), idx)
  }

  lemma OneMore(es: seq<Event>, e: Event, idx: int)
    ensures LastUsage(es + [e]) == if e.UsageEvent? then Some(e.usage) else LastUsage(es)
    ensures Texts(es + [e]) == Texts(es) + if e.TextDelta? then e.text else ""
    ensures Reasonings(es + [e]) == Reasonings(es) + if e.ReasoningDelta? then e.text else ""
    ensures Arguments(es + [e], idx) == Arguments(es, idx) + if e.ToolDelta? && e.index == idx then e.argsText else ""
    ensures Emissions(es + [e], idx) == Emissions(es, idx) + if e.ToolCall? && e.index == idx then 1 else 0
    ensures LastDelta(es + [e], idx) == if e.ToolDelta? && e.index == idx then Some(e) else LastDelta(es, idx)
  {
    assert Init(es + [e]) == es && Last(es + [e]) == e;
  }

  /** One tool call: complete at most once, its deltas joined are its arguments, and its id and name are
      those of its last delta. */
  ghost predicate ToolFaithful(o: Out, idx: int) {
    var tools := o.state.tools;
    && Emissions(o.sent, idx) == (if idx in tools && tools[idx].emitted then 1 else 0)
    && Arguments(o.sent, idx) == (if idx in tools then tools[idx].argsText else "")
    && Names(LastDelta(o.sent, idx), tools, idx)
  }

  predicate Names(delta: Option<Event>, tools: map<int, Slot>, idx: int) {
    && (idx in tools <==> delta.Some?)
    && (delta.Some? ==> delta.value.ToolDelta? && delta.value.id == tools[idx].id && delta.value.name == tools[idx].name)
  }

  /** What was emitted as complete at position `i` is what the deltas before it add up to. */
  ghost predicate CarriesPast(es: seq<Event>, i: int)
    requires 0 <= i < |es|
  {
    es[i].ToolCall? ==>
      var before := LastDelta(es[..i], es[i].index);
      && es[i].argsText == Arguments(es[..i], es[i].index)
      && before.Some? && before.value.ToolDelta? && es[i].id == before.value.id && es[i].name == before.value.name
  }

  ghost predicate AllCarryPast(es: seq<Event>) {
    forall i :: 0 <= i < |es| ==> CarriesPast(es, i)
  }

  ghost predicate Faithful(o: Out) {
    && o.state.text == Texts(o.sent)
    && o.state.reasoning == Reasonings(o.sent)
    && o.state.usage == LastUsage(o.sent)
    && (forall idx :: ToolFaithful(o, idx))
    && AllCarryPast(o.sent)
  }

  lemma CarryMore(es: seq<Event>, e: Event)
    requires AllCarryPast(es)
    requires e.ToolCall? ==>
      var before := LastDelta(es, e.index);
      && e.argsText == Arguments(es, e.index)
      && before.Some? && before.value.ToolDelta? && e.id == before.value.id && e.name == before.value.name
    ensures AllCarryPast(es + [e])
  {
    hide Arguments, LastDelta;
    var more := es + [e];
    forall i | 0 <= i < |more| ensures CarriesPast(more, i) {
      if i < |es| {
        assert CarriesPast(es, i) && more[..i] == es[..i];
      } else {
        assert more[..i] == es;
      }
    }
  }

  lemma EmitOneTool(o: Out, i: int, clients: set<string>, idx: int)
    requires ToolFaithful(o, idx) && i in o.state.tools && !o.state.tools[i].emitted
    ensures ToolFaithful(EmitOne(o, i, clients), idx)
  {
    var x := o.state.tools[i];
    OneMore(o.sent, ToolCall(i, x.id, x.name, x.argsText, x.name in clients), idx);
    hide LastUsage, Texts, Reasonings, Arguments, Emissions, LastDelta;
  }

  lemma EmitOneFaithful(o: Out, i: int, clients: set<string>)
    requires Faithful(o)
    ensures Faithful(EmitOne(o, i, clients))
  {
    var n := EmitOne(o, i, clients);
    if n != o {
      var x := o.state.tools[i];
      var e := ToolCall(i, x.id, x.name, x.argsText, x.name in clients);
      OneMore(o.sent, e, i);
      assert ToolFaithful(o, i);
      CarryMore(o.sent, e);
      hide LastUsage, Texts, Reasonings, ToolFaithful, AllCarryPast;
      forall idx ensures ToolFaithful(n, idx) {
        EmitOneTool(o, i, clients, idx);
      }
    }
  }

  lemma AddPieceTool(o: Out, t: ToolPiece, idx: int)
    requires ToolFaithful(o, idx)
    ensures ToolFaithful(AddPiece(o, t), idx)
  {
    hide LastUsage, Texts, Reasonings, Arguments, Emissions, LastDelta, Last, Init;
    var x := Merged(if t.index in o.state.tools then o.state.tools[t.index] else Slot("", "", "", false), t);
    OneMore(o.sent, ToolDelta(t.index, x.id, x.name, t.arguments), idx);
    assert AddPiece(o, t).sent == o.sent + [ToolDelta(t.index, x.id, x.name, t.arguments)];
    assert AddPiece(o, t).state.tools == o.state.tools[t.index := x];
    hide AddPiece;
  }

  lemma AddPieceFaithful(o: Out, t: ToolPiece)
    requires Faithful(o)
    ensures Faithful(AddPiece(o, t))
  {
    var n := AddPiece(o, t);
    OneMore(o.sent, Last(n.sent), t.index);
    CarryMore(o.sent, Last(n.sent));
    hide ToolFaithful, LastUsage, Texts, Reasonings, AllCarryPast;
    forall idx ensures ToolFaithful(n, idx) {
      AddPieceTool(o, t, idx);
    }
  }

  /** Adding an event that is no tool event, with the tools untouched. */
  lemma OtherEventFaithful(o: Out, n: Out, e: Event)
    requires Faithful(o) && n.sent == o.sent + [e] && n.state.tools == o.state.tools
    requires !e.ToolCall? && !e.ToolDelta?
    requires n.state.usage == if e.UsageEvent? then Some(e.usage) else o.state.usage
    requires n.state.text == o.state.text + if e.TextDelta? then e.text else ""
    requires n.state.reasoning == o.state.reasoning + if e.ReasoningDelta? then e.text else ""
    ensures Faithful(n)
  {
    OneMore(o.sent, e, 0);
    CarryMore(o.sent, e);
    forall idx ensures ToolFaithful(n, idx) {
      assert ToolFaithful(o, idx);
      OneMore(o.sent, e, idx);
      hide LastUsage, Texts, Reasonings, Arguments, Emissions, LastDelta, AllCarryPast;
    }
  }

  lemma NoEventFaithful(o: Out, n: Out)
    requires Faithful(o) && n.sent == o.sent && n.state.tools == o.state.tools
    requires n.state.text == o.state.text && n.state.reasoning == o.state.reasoning && n.state.usage == o.state.usage
    ensures Faithful(n)
  {
    forall idx ensures ToolFaithful(n, idx) {
      assert ToolFaithful(o, idx);
    }
  }

  lemma {:induction false} EmitAllFaithful(o: Out, idxs: seq<int>, clients: set<string>)
    requires Faithful(o)
    ensures Faithful(EmitAll(o, idxs, clients))
    decreases |idxs|
  {
    hide Faithful, EmitOne;
    if idxs != [] {
      EmitOneFaithful(o, idxs[0], clients);
      EmitAllFaithful(EmitOne(o, idxs[0], clients), idxs[1..], clients);
    }
  }

  lemma {:induction false} AddPiecesFaithful(o: Out, tools: seq<ToolPiece>)
    requires Faithful(o)
    ensures Faithful(AddPieces(o, tools))
    decreases |tools|
  {
    hide Faithful, AddPiece;
    if tools != [] {
      AddPieceFaithful(o, tools[0]);
      AddPiecesFaithful(AddPiece(o, tools[0]), tools[1..]);
    }
  }

  lemma AddTextFaithful(o: Out, r: string, c: string)
    requires Faithful(o)
    ensures Faithful(AddText(AddReasoning(o, r), c))
  {
    hide Faithful;
    var mid := AddReasoning(o, r);
    if r != "" {
      OtherEventFaithful(o, mid, ReasoningDelta(r));
    }
    if c != "" {
      OtherEventFaithful(mid, AddText(mid, c), TextDelta(c));
    }
  }

  lemma AddHeadFaithful(o: Out, id: string, usage: Option<Usage>)
    requires Faithful(o)
    ensures Faithful(AddHead(o, id, usage))
  {
    hide Faithful;
    var named := if id != "" && o.state.upstreamId == "" then o.(state := o.state.(upstreamId := id)) else o;
    NoEventFaithful(o, named);
    if usage.Some? {
      OtherEventFaithful(named, AddHead(o, id, usage), UsageEvent(usage.value));
    }
  }

  lemma AddChoiceFaithful(o: Out, c: Choice, clients: set<string>)
    requires Faithful(o)
    ensures Faithful(AddChoice(o, c, clients))
  {
    hide Faithful, EmitAll, AddPieces, AddText, AddReasoning;
    AddTextFaithful(o, ReasoningOf(c), c.content);
    var mid := AddText(AddReasoning(o, ReasoningOf(c)), c.content);
    AddPiecesFaithful(mid, c.tools);
    var late := AddPieces(mid, c.tools);
    if c.finish != "" {
      var marked := late.(state := late.state.(finish := Some(MapFinish(c.finish))));
      NoEventFaithful(late, marked);
      EmitAllFaithful(marked, Ascending(marked.state.tools.Keys), clients);
    }
  }

  lemma {:induction false} AddChoicesFaithful(o: Out, choices: seq<Choice>, clients: set<string>)
    requires Faithful(o)
    ensures Faithful(AddChoices(o, choices, clients))
    decreases |choices|
  {
    hide Faithful, AddChoice;
    if choices != [] {
      AddChoiceFaithful(o, choices[0], clients);
      AddChoicesFaithful(AddChoice(o, choices[0], clients), choices[1..], clients);
    }
  }

  lemma AddPayloadFaithful(o: Out, p: Payload, clients: set<string>)
    requires Faithful(o)
    ensures Faithful(AddPayload(o, p, clients))
  {
    hide Faithful, AddChoices, AddHead, EmitAll;
    match p
    case Done => EmitAllFaithful(o, Ascending(o.state.tools.Keys), clients);
    case Invalid =>
    case NotAnObject => NoEventFaithful(o, o.(failed := true));
    case Chunk(id, usage, choices) =>
      AddHeadFaithful(o, id, usage);
      AddChoicesFaithful(AddHead(o, id, usage), choices, clients);
  }

  lemma {:induction false} AddPayloadsFaithful(o: Out, payloads: seq<Sse.Bytes>, parse: Parser, clients: set<string>)
    requires Faithful(o)
    ensures Faithful(AddPayloads(o, payloads, parse, clients))
    decreases |payloads|
  {
    hide Faithful, AddPayload;
    if payloads != [] {
      AddPayloadFaithful(o, parse(payloads[0]), clients);
      AddPayloadsFaithful(AddPayload(o, parse(payloads[0]), clients), payloads[1..], parse, clients);
    }
  }

  ghost function Stream(chunks: seq<Sse.Bytes>, parse: Parser, clients: set<string>): Out {
    AddPayloads(START, Sse.Feed([], chunks).payloads, parse, clients)
  }

  /** For every byte stream: the text deltas join to the text, the reasoning deltas to the reasoning, each
      tool call's deltas to its arguments, the usage is the one last announced, and each tool call is
      emitted complete at most once. */
  lemma StreamFaithful(chunks: seq<Sse.Bytes>, parse: Parser, clients: set<string>)
    ensures Faithful(Stream(chunks, parse, clients))
    ensures forall idx :: Emissions(Stream(chunks, parse, clients).sent, idx) <= 1
  {
    StartFaithful();
    AddPayloadsFaithful(START, Sse.Feed([], chunks).payloads, parse, clients);
    var o := Stream(chunks, parse, clients);
    hide AddPayloads, Stream, Emissions;
    forall idx ensures Emissions(o.sent, idx) <= 1 {
      assert ToolFaithful(o, idx);
    }
  }

  lemma StartFaithful()
    ensures Faithful(START)
  {
  }

  // ----- when the complete event is complete ------------------------------------------------------

  lemma CutAt(es: seq<Event>, i: int)
    requires 0 <= i < |es|
    ensures es == es[..i] + [es[i]] + es[i + 1..]
  {
  }

  lemma LastApart(a: seq<Event>, b: seq<Event>)
    requires b != []
    ensures b == Init(b) + [Last(b)] && a + b == a + Init(b) + [Last(b)]
  {
  }

  lemma {:induction false} ArgumentsParts(a: seq<Event>, b: seq<Event>, idx: int)
    ensures Arguments(a + b, idx) == Arguments(a, idx) + Arguments(b, idx)
    decreases |b|
  {
    hide Arguments, Init, Last;
    if b == [] {
      assert a + b == a;
      OneArgument(idx);
    } else {
      LastApart(a, b);
      ArgumentsParts(a, Init(b), idx);
      ArgumentsMore(a + Init(b), Last(b), idx);
      ArgumentsMore(Init(b), Last(b), idx);
    }
  }

  lemma OneArgument(idx: int)
    ensures Arguments([], idx) == ""
  {
  }

  lemma ArgumentsMore(es: seq<Event>, e: Event, idx: int)
    ensures Arguments(es + [e], idx) == Arguments(es, idx) + if e.ToolDelta? && e.index == idx then e.argsText else ""
  {
    OneMore(es, e, idx);
  }

  lemma {:induction false} LastDeltaParts(a: seq<Event>, b: seq<Event>, idx: int)
    ensures LastDelta(a + b, idx) == if LastDelta(b, idx).Some? then LastDelta(b, idx) else LastDelta(a, idx)
    decreases |b|
  {
    if b == [] {
      assert a + b == a;
    } else {
      LastApart(a, b);
      LastDeltaParts(a, Init(b), idx);
      LastDeltaMore(a + Init(b), Last(b), idx);
      LastDeltaMore(Init(b), Last(b), idx);
      hide LastDelta, Init, Last;
    }
  }

  lemma LastDeltaMore(es: seq<Event>, e: Event, idx: int)
    ensures LastDelta(es + [e], idx) == if e.ToolDelta? && e.index == idx then Some(e) else LastDelta(es, idx)
  {
    OneMore(es, e, idx);
  }

  /** No argument text of the tool call comes after the event at `i`, and no delta that leaves it with
      another id or name: the last later delta, if there is one, carries those of the event. */
  predicate NothingLate(es: seq<Event>, i: int)
    requires 0 <= i < |es| && es[i].ToolCall?
  {
    var rest := es[i + 1..];
    var later := LastDelta(rest, es[i].index);
    && Arguments(rest, es[i].index) == ""
    && (later.Some? && later.value.ToolDelta? ==> later.value.id == es[i].id && later.value.name == es[i].name)
  }

  lemma Around(a: seq<Event>, e: Event, b: seq<Event>)
    requires e.ToolCall?
    ensures Arguments(a + [e] + b, e.index) == Arguments(a, e.index) + Arguments(b, e.index)
    ensures LastDelta(a + [e] + b, e.index) == if LastDelta(b, e.index).Some? then LastDelta(b, e.index) else LastDelta(a, e.index)
  {
    hide Arguments, LastDelta;
    ArgumentsMore(a, e, e.index);
    LastDeltaMore(a, e, e.index);
    ArgumentsParts(a + [e], b, e.index);
    LastDeltaParts(a + [e], b, e.index);
    assert Arguments(a, e.index) + "" == Arguments(a, e.index);
  }

  lemma EventParts(es: seq<Event>, i: int)
    requires 0 <= i < |es| && es[i].ToolCall? && AllCarryPast(es)
    ensures var idx, rest := es[i].index, es[i + 1..];
      var before := LastDelta(es[..i], idx);
      && Arguments(es, idx) == es[i].argsText + Arguments(rest, idx)
      && LastDelta(es, idx) == (if LastDelta(rest, idx).Some? then LastDelta(rest, idx) else before)
      && before.Some? && before.value.ToolDelta? && before.value.id == es[i].id && before.value.name == es[i].name
  {
    assert CarriesPast(es, i);
    Around(es[..i], es[i], es[i + 1..]);
    CutAt(es, i);
    hide Arguments, LastDelta, AllCarryPast;
  }

  lemma CompleteSince(o: Out, i: int)
    requires Faithful(o) && 0 <= i < |o.sent| && o.sent[i].ToolCall?
    ensures var e := o.sent[i];
      var rest := o.sent[i + 1..];
      && e.index in o.state.tools
      && var x := o.state.tools[e.index];
      && x.argsText == e.argsText + Arguments(rest, e.index)
      && (e.argsText == x.argsText <==> Arguments(rest, e.index) == "")
      && (e.id == x.id && e.name == x.name && e.argsText == x.argsText <==> NothingLate(o.sent, i))
  {
    var e := o.sent[i];
    assert ToolFaithful(o, e.index);
    EventParts(o.sent, i);
    var rest := o.sent[i + 1..];
    hide Faithful, LastUsage, Texts, Reasonings, Arguments, Emissions, LastDelta, AllCarryPast;
    assert |e.argsText + Arguments(rest, e.index)| == |e.argsText| + |Arguments(rest, e.index)|;
    assert Arguments(rest, e.index) == "" ==> e.argsText + Arguments(rest, e.index) == e.argsText;
  }

  /** For every stream and every tool call it emitted as complete: what was emitted is a beginning of the
      arguments the stream ends with, all of them exactly when no argument text follows the event, and
      the whole call exactly when nothing late follows it. */
  lemma CompleteExactly(chunks: seq<Sse.Bytes>, parse: Parser, clients: set<string>, i: int)
    requires 0 <= i < |Stream(chunks, parse, clients).sent| && Stream(chunks, parse, clients).sent[i].ToolCall?
    ensures var o := Stream(chunks, parse, clients);
      var e := o.sent[i];
      && e.index in o.state.tools
      && var x := o.state.tools[e.index];
      && e.argsText <= x.argsText
      && (e.argsText == x.argsText <==> Arguments(o.sent[i + 1..], e.index) == "")
      && (e.id == x.id && e.name == x.name && e.argsText == x.argsText <==> NothingLate(o.sent, i))
  {
    StreamFaithful(chunks, parse, clients);
    CompleteSince(Stream(chunks, parse, clients), i);
    hide Stream, Faithful, NothingLate;
  }

  /** The events and the final state do not depend on how the bytes were cut, nor on CR before LF. */
  lemma EventsIgnoreChunking(chunks: seq<Sse.Bytes>, others: seq<Sse.Bytes>, parse: Parser, clients: set<string>)
    requires Sse.WithoutCr(Sse.Concat(chunks)) == Sse.WithoutCr(Sse.Concat(others))
    ensures Stream(chunks, parse, clients) == Stream(others, parse, clients)
  {
    Sse.ChunkingIsIrrelevant(chunks, others);
  }

  // ----- flushing ---------------------------------------------------------------------------------

  predicate Emitted(o: Out, idx: int) {
    idx in o.state.tools && o.state.tools[idx].emitted
  }

  lemma {:induction false} EmitAllEmits(o: Out, idxs: seq<int>, clients: set<string>)
    ensures var n := EmitAll(o, idxs, clients);
      && n.state.tools.Keys == o.state.tools.Keys
      && forall idx :: Emitted(n, idx) <==> Emitted(o, idx) || (idx in idxs && idx in o.state.tools)
    decreases |idxs|
  {
    if idxs != [] {
      EmitAllEmits(EmitOne(o, idxs[0], clients), idxs[1..], clients);
      assert idxs == [idxs[0]] + idxs[1..];
    }
  }

  lemma {:induction false} AscendingLists(s: set<int>)
    ensures forall i :: i in s <==> i in Ascending(s)
    decreases |s|
  {
    if s != {} {
      var m := LeastExists(s);
      AscendingStep(s, m);
      AscendingLists(s - {m});
    }
  }

  /** Once the end marker has been seen every tool call has been emitted complete, exactly once. */
  lemma EndMarkerCompletes(o: Out, clients: set<string>)
    requires Faithful(o) && !o.failed
    ensures var n := AddPayload(o, Done, clients);
      n.state.tools.Keys == o.state.tools.Keys && forall idx :: idx in n.state.tools ==> Emissions(n.sent, idx) == 1
  {
    AddPayloadFaithful(o, Done, clients);
    EmitAllEmits(o, Ascending(o.state.tools.Keys), clients);
    AscendingLists(o.state.tools.Keys);
    var n := AddPayload(o, Done, clients);
    hide EmitAll, Ascending, Emissions, LastUsage, Texts, Reasonings, Arguments;
    forall idx | idx in n.state.tools ensures Emissions(n.sent, idx) == 1 {
      assert ToolFaithful(n, idx) && Emitted(n, idx);
    }
  }

  lemma OnePiece(o: Out, t: ToolPiece)
    ensures AddPieces(o, [t]) == AddPiece(o, t)
  {
    assert [t][1..] == [];
  }

  lemma EmitOnly(o: Out, idx: int, clients: set<string>)
    requires o.state.tools.Keys == {idx}
    ensures Flush(o, clients) == EmitOne(o, idx, clients)
  {
    AscendingStep({idx}, idx);
    assert {idx} - {idx} == {} && Ascending({}) == [];
    assert Ascending(o.state.tools.Keys) == [idx] + [] == [idx];
    EmitAllStep(o, [idx], clients);
    assert [idx][1..] == [];
    assert EmitAll(EmitOne(o, idx, clients), [], clients) == EmitOne(o, idx, clients);
    hide EmitOne, Ascending, EmitAll;
  }

  lemma FirstHalf(clients: set<string>)
    ensures AddChoice(START, Choice("", "", "", [ToolPiece(0, "c", "f", "{")], "tool_calls"), clients)
      == Out(State("", "", map[0 := Slot("c", "f", "{", true)], None, Some("tool_calls"), ""),
             [ToolDelta(0, "c", "f", "{"), ToolCall(0, "c", "f", "{", "f" in clients)], false)
  {
    var piece := ToolPiece(0, "c", "f", "{");
    OnePiece(START, piece);
    assert [] + [ToolDelta(0, "c", "f", "{")] == [ToolDelta(0, "c", "f", "{")];
    assert "" + "{" == "{";
    var a := Out(State("", "", map[0 := Slot("c", "f", "{", false)], None, None, ""), [ToolDelta(0, "c", "f", "{")], false);
    assert AddPiece(START, piece) == a;
    assert !(GUARD_PREFIX <= "tool_calls") by { assert GUARD_PREFIX[0] == 'r'; }
    var marked := a.(state := a.state.(finish := Some(MapFinish("tool_calls"))));
    EmitOnly(marked, 0, clients);
    assert EmitOne(marked, 0, clients).state.tools == map[0 := Slot("c", "f", "{", true)];
    hide Flush, AddPiece, AddPieces;
  }

  lemma SecondHalf(o: Out, clients: set<string>)
    requires 0 in o.state.tools && o.state.tools[0] == Slot("c", "f", "{", true)
    ensures var n := AddChoice(o, Choice("", "", "", [ToolPiece(0, "", "", "}")], ""), clients);
      0 in n.state.tools && n.state.tools[0].argsText == "{}" && forall e :: e in o.sent ==> e in n.sent
  {
    OnePiece(o, ToolPiece(0, "", "", "}"));
    assert "{" + "}" == "{}";
    assert o.sent + [ToolDelta(0, "c", "f", "}")] == AddPiece(o, ToolPiece(0, "", "", "}")).sent;
    hide AddPieces, Flush;
  }

  /** A tool call emitted complete keeps its arguments from then on only if no more of them arrive: here
      the second half comes after the finish reason, and the event carries the first half alone. */
  lemma LateArgumentsAreMissed(clients: set<string>)
    ensures var first := Choice("", "", "", [ToolPiece(0, "c", "f", "{")], "tool_calls");
      var second := Choice("", "", "", [ToolPiece(0, "", "", "}")], "");
      var o := AddChoice(AddChoice(START, first, clients), second, clients);
      ToolCall(0, "c", "f", "{", "f" in clients) in o.sent && 0 in o.state.tools && o.state.tools[0].argsText == "{}"
  {
    FirstHalf(clients);
    SecondHalf(AddChoice(START, Choice("", "", "", [ToolPiece(0, "c", "f", "{")], "tool_calls"), clients), clients);
    hide AddChoice;
  }
}
