/** Turning an engine's event stream into chat events while accumulating the stream state.

    A payload is taken as parsed; everything after the parse is modelled. The events a tool call gives
    rise to carry the index of their slot, so that they can be counted. */
module Normalizer {
  import opened Wrappers
  import Sse

  datatype Usage = Usage(prompt: int, completion: int, reasoning: Option<int>, cached: Option<int>)

  datatype ToolPiece = ToolPiece(index: int, id: string, name: string, arguments: string)

  datatype Choice = Choice(reasoningContent: string, reasoning: string, content: string, tools: seq<ToolPiece>, finish: string)

  /** A payload after the parse: the end marker, text that is no JSON, JSON that is no object (the code
      raises), or a chunk. Absent and empty fields are the same to the code. */
  datatype Payload = Done | Invalid | NotAnObject | Chunk(id: string, usage: Option<Usage>, choices: seq<Choice>)

  datatype Event =
    | UsageEvent(usage: Usage)
    | ReasoningDelta(text: string)
    | TextDelta(text: string)
    | ToolDelta(index: int, id: string, name: string, argsText: string)
    | ToolCall(index: int, id: string, name: string, argsText: string, client: bool)

  datatype Slot = Slot(id: string, name: string, argsText: string, emitted: bool)

  datatype State = State(
    text: string, reasoning: string, tools: map<int, Slot>, usage: Option<Usage>, finish: Option<string>, upstreamId: string)

  /** The state and the events yielded so far; `failed` is a payload the code raised on. */
  datatype Out = Out(state: State, sent: seq<Event>, failed: bool)

  const START := Out(State("", "", map[], None, None, ""), [], false)

  const GUARD_PREFIX := "runaway_"

  function MapFinish(raw: string): string {
    if GUARD_PREFIX <= raw then "guard"
    else if raw == "stop" || raw == "length" || raw == "tool_calls" then raw
    else "stop"
  }

  // ----- the specification: what one piece of input does --------------------------------------

  function Send(o: Out, e: Event): Out {
    o.(sent := o.sent + [e])
  }

  predicate IsLeast(s: set<int>, m: int) {
    m in s && forall x :: x in s ==> m <= x
  }

  lemma EmptyOrNot(s: set<int>)
    ensures s == {} || exists x :: x in s
  {
    if !exists x :: x in s {
      assert s == {};
    }
  }

  lemma {:induction false} LeastExists(s: set<int>) returns (m: int)
    requires s != {}
    ensures IsLeast(s, m)
    decreases |s|
  {
    EmptyOrNot(s);
    var x :| x in s;
    var rest := s - {x};
    assert s == rest + {x};
    if rest == {} {
      m := x;
    } else {
      var y := LeastExists(rest);
      m := if x <= y then x else y;
      assert forall z :: z in s ==> z == x || z in rest;
    }
  }

  /** The indices in ascending order. */
  ghost function Ascending(s: set<int>): seq<int> {
    if s == {} then []
    else
      assert exists m :: IsLeast(s, m) by { var m := LeastExists(s); }
      var m :| IsLeast(s, m);
      [m] + Ascending(s - {m})
  }

  function EmitOne(o: Out, idx: int, clients: set<string>): Out {
    if idx in o.state.tools && !o.state.tools[idx].emitted then
      var x := o.state.tools[idx];
      Send(o.(state := o.state.(tools := o.state.tools[idx := x.(emitted := true)])),
           ToolCall(idx, x.id, x.name, x.argsText, x.name in clients))
    else o
  }

  function EmitAll(o: Out, idxs: seq<int>, clients: set<string>): Out
    decreases |idxs|
  {
    if idxs == [] then o else EmitAll(EmitOne(o, idxs[0], clients), idxs[1..], clients)
  }

  ghost function Flush(o: Out, clients: set<string>): Out {
    EmitAll(o, Ascending(o.state.tools.Keys), clients)
  }

  function Merged(x: Slot, t: ToolPiece): Slot {
    Slot(if t.id != "" then t.id else x.id, if t.name != "" then t.name else x.name, x.argsText + t.arguments, x.emitted)
  }

  function AddPiece(o: Out, t: ToolPiece): Out {
    var x := Merged(if t.index in o.state.tools then o.state.tools[t.index] else Slot("", "", "", false), t);
    Send(o.(state := o.state.(tools := o.state.tools[t.index := x])), ToolDelta(t.index, x.id, x.name, t.arguments))
  }

  function AddPieces(o: Out, tools: seq<ToolPiece>): Out
    decreases |tools|
  {
    if tools == [] then o else AddPieces(AddPiece(o, tools[0]), tools[1..])
  }

  function AddReasoning(o: Out, r: string): Out {
    if r == "" then o else Send(o.(state := o.state.(reasoning := o.state.reasoning + r)), ReasoningDelta(r))
  }

  function AddText(o: Out, c: string): Out {
    if c == "" then o else Send(o.(state := o.state.(text := o.state.text + c)), TextDelta(c))
  }

  function ReasoningOf(c: Choice): string {
    if c.reasoningContent != "" then c.reasoningContent else c.reasoning
  }

  ghost function Finish(o: Out, raw: string, clients: set<string>): Out {
    if raw == "" then o else Flush(o.(state := o.state.(finish := Some(MapFinish(raw)))), clients)
  }

  ghost function AddChoice(o: Out, c: Choice, clients: set<string>): Out {
    Finish(AddPieces(AddText(AddReasoning(o, ReasoningOf(c)), c.content), c.tools), c.finish, clients)
  }

  ghost function AddChoices(o: Out, choices: seq<Choice>, clients: set<string>): Out
    decreases |choices|
  {
    if choices == [] then o else AddChoices(AddChoice(o, choices[0], clients), choices[1..], clients)
  }

  function AddHead(o: Out, id: string, usage: Option<Usage>): Out {
    var named := if id != "" && o.state.upstreamId == "" then o.(state := o.state.(upstreamId := id)) else o;
    if usage.None? then named else Send(named.(state := named.state.(usage := usage)), UsageEvent(usage.value))
  }

  ghost function AddPayload(o: Out, p: Payload, clients: set<string>): Out {
    if o.failed then o
    else match p
      case Done => Flush(o, clients)
      case Invalid => o
      case NotAnObject => o.(failed := true)
      case Chunk(id, usage, choices) => AddChoices(AddHead(o, id, usage), choices, clients)
  }

  type Parser = Sse.Bytes -> Payload

  ghost function AddPayloads(o: Out, payloads: seq<Sse.Bytes>, parse: Parser, clients: set<string>): Out
    decreases |payloads|
  {
    if payloads == [] then o else AddPayloads(AddPayload(o, parse(payloads[0]), clients), payloads[1..], parse, clients)
  }

  // ----- the generator, in place --------------------------------------------------------------

  class Stream {
    var text: string
    var reasoning: string
    var tools: map<int, Slot>
    var usage: Option<Usage>
    var finish: Option<string>
    var upstreamId: string
    var sent: seq<Event>
    var failed: bool
    const clients: set<string>

    constructor (clients: set<string>)
      ensures View() == START && this.clients == clients
    {
      text, reasoning, tools, usage, finish, upstreamId := "", "", map[], None, None, "";
      sent, failed := [], false;
      this.clients := clients;
    }

    ghost function View(): Out
      reads this
    {
      Out(State(text, reasoning, tools, usage, finish, upstreamId), sent, failed)
    }

    method EmitPending()
      modifies this`tools, this`sent
      ensures View() == Flush(old(View()), clients)
    {
      hide EmitOne, EmitAll, Ascending;
      var todo := tools.Keys;
      while todo != {}
        invariant todo <= tools.Keys
        invariant EmitAll(View(), Ascending(todo), clients) == Flush(old(View()), clients)
        decreases |todo|
      {
        ghost var least := LeastExists(todo);
        var idx :| IsLeast(todo, idx);
        AscendingStep(todo, idx);
        EmitAllStep(View(), [idx] + Ascending(todo - {idx}), clients);
        todo := todo - {idx};
        Emit(idx);
      }
      EmitAllNone(View(), clients);
    }

    method Emit(idx: int)
      modifies this`tools, this`sent
      ensures View() == EmitOne(old(View()), idx, clients)
      ensures tools.Keys == old(tools).Keys
    {
      if idx in tools && !tools[idx].emitted {
        var x := tools[idx];
        tools := tools[idx := x.(emitted := true)];
        sent := sent + [ToolCall(idx, x.id, x.name, x.argsText, x.name in clients)];
      }
    }

    method TakePiece(t: ToolPiece)
      modifies this`tools, this`sent
      ensures View() == AddPiece(old(View()), t)
    {
      if t.index !in tools {
        tools := tools[t.index := Slot("", "", "", false)];
      }
      var x := tools[t.index];
      x := x.(id := if t.id != "" then t.id else x.id);
      x := x.(name := if t.name != "" then t.name else x.name);
      x := x.(argsText := x.argsText + t.arguments);
      tools := tools[t.index := x];
      sent := sent + [ToolDelta(t.index, x.id, x.name, t.arguments)];
    }

    method TakePieces(pieces: seq<ToolPiece>)
      modifies this`tools, this`sent
      ensures View() == AddPieces(old(View()), pieces)
    {
      hide AddPiece;
      for i := 0 to |pieces|
        invariant AddPieces(View(), pieces[i..]) == AddPieces(old(View()), pieces)
      {
        assert pieces[i..][1..] == pieces[i + 1..];
        TakePiece(pieces[i]);
      }
    }

    method TakeDeltas(r: string, c: string)
      modifies this`reasoning, this`text, this`sent
      ensures View() == AddText(AddReasoning(old(View()), r), c)
    {
      if r != "" {
        reasoning := reasoning + r;
        sent := sent + [ReasoningDelta(r)];
      }
      if c != "" {
        text := text + c;
        sent := sent + [TextDelta(c)];
      }
    }

    method TakeFinish(raw: string)
      modifies this`finish, this`tools, this`sent
      ensures View() == Finish(old(View()), raw, clients)
    {
      hide Flush;
      if raw != "" {
        finish := Some(MapFinish(raw));
        EmitPending();
      }
    }

    method TakeChoice(c: Choice)
      modifies this`reasoning, this`text, this`tools, this`sent, this`finish
      ensures View() == AddChoice(old(View()), c, clients)
    {
      hide AddText, AddReasoning, AddPieces, Finish;
      TakeDeltas(if c.reasoningContent != "" then c.reasoningContent else c.reasoning, c.content);
      TakePieces(c.tools);
      TakeFinish(c.finish);
    }

    method TakeHead(id: string, u: Option<Usage>)
      modifies this`upstreamId, this`usage, this`sent
      ensures View() == AddHead(old(View()), id, u)
    {
      if id != "" && upstreamId == "" {
        upstreamId := id;
      }
      if u.Some? {
        usage := u;
        sent := sent + [UsageEvent(u.value)];
      }
    }

    method TakeChunk(id: string, u: Option<Usage>, choices: seq<Choice>)
      modifies this
      ensures View() == AddChoices(AddHead(old(View()), id, u), choices, clients)
    {
      hide AddHead, AddChoice;
      TakeHead(id, u);
      ghost var start := View();
      for i := 0 to |choices|
        invariant AddChoices(View(), choices[i..], clients) == AddChoices(start, choices, clients)
      {
        assert choices[i..][1..] == choices[i + 1..];
        TakeChoice(choices[i]);
      }
    }

    method TakePayload(p: Payload)
      modifies this
      ensures View() == AddPayload(old(View()), p, clients)
    {
      hide Flush, AddChoices, AddHead;
      if failed {
        return;
      }
      match p
      case Done => EmitPending();
      case Invalid =>
      case NotAnObject => failed := true;
      case Chunk(id, u, choices) => TakeChunk(id, u, choices);
    }

    /** The whole loop: split each chunk with the tail carried, and take its payloads. */
    method Normalize(chunks: seq<Sse.Bytes>, parse: Parser)
      modifies this
      ensures View() == AddPayloads(old(View()), Sse.Feed([], chunks).payloads, parse, clients)
    {
      hide AddPayload, AddPayloads, Sse.Split, Sse.WithoutCr, Sse.Feed;
      var buffer: Sse.Bytes := [];
      for i := 0 to |chunks|
        invariant AddPayloads(View(), Sse.Feed(buffer, chunks[i..]).payloads, parse, clients)
          == AddPayloads(old(View()), Sse.Feed([], chunks).payloads, parse, clients)
      {
        FeedStep(buffer, chunks, i);
        var payloads, rest := Sse.SplitSse(buffer + chunks[i]);
        ghost var later := Sse.Feed(rest, chunks[i + 1..]).payloads;
        AddPayloadsConcat(View(), payloads, later, parse, clients);
        TakePayloads(payloads, parse);
        buffer := rest;
      }
      assert chunks[|chunks|..] == [];
      FeedNothing(buffer, View(), parse, clients);
    }

    method TakePayloads(payloads: seq<Sse.Bytes>, parse: Parser)
      modifies this
      ensures View() == AddPayloads(old(View()), payloads, parse, clients)
    {
      hide AddPayload;
      for i := 0 to |payloads|
        invariant AddPayloads(View(), payloads[i..], parse, clients) == AddPayloads(old(View()), payloads, parse, clients)
      {
        assert payloads[i..][1..] == payloads[i + 1..];
        TakePayload(parse(payloads[i]));
      }
    }
  }

  lemma LeastUnique(s: set<int>, m: int, n: int)
    requires IsLeast(s, m) && IsLeast(s, n)
    ensures m == n
  {
  }

  lemma AscendingStep(s: set<int>, m: int)
    requires IsLeast(s, m)
    ensures Ascending(s) == [m] + Ascending(s - {m})
  {
    var n :| IsLeast(s, n) && Ascending(s) == [n] + Ascending(s - {n});
    LeastUnique(s, m, n);
  }

  lemma EmitAllStep(o: Out, idxs: seq<int>, clients: set<string>)
    requires idxs != []
    ensures EmitAll(o, idxs, clients) == EmitAll(EmitOne(o, idxs[0], clients), idxs[1..], clients)
  {
  }

  lemma EmitAllNone(o: Out, clients: set<string>)
    ensures EmitAll(o, Ascending({}), clients) == o
  {
  }

  lemma FeedStep(buffer: Sse.Bytes, chunks: seq<Sse.Bytes>, i: nat)
    requires i < |chunks|
    ensures var first := Sse.Split(Sse.WithoutCr(buffer + chunks[i]));
      Sse.Feed(buffer, chunks[i..]).payloads == first.payloads + Sse.Feed(first.tail, chunks[i + 1..]).payloads
  {
    hide Sse.Split, Sse.WithoutCr;
    assert chunks[i..][1..] == chunks[i + 1..];
  }

  lemma FeedNothing(buffer: Sse.Bytes, o: Out, parse: Parser, clients: set<string>)
    ensures AddPayloads(o, Sse.Feed(buffer, []).payloads, parse, clients) == o
  {
  }

  lemma {:induction false} AddPayloadsConcat(o: Out, a: seq<Sse.Bytes>, b: seq<Sse.Bytes>, parse: Parser, clients: set<string>)
    ensures AddPayloads(o, a + b, parse, clients) == AddPayloads(AddPayloads(o, a, parse, clients), b, parse, clients)
    decreases |a|
  {
    hide AddPayload;
    if a == [] {
      assert a + b == b;
    } else {
      assert (a + b)[1..] == a[1..] + b;
      AddPayloadsConcat(AddPayload(o, parse(a[0]), clients), a[1..], b, parse, clients);
    }
  }
}
