/** Requests competing for the slots of one scheduler: every interleaving of enter, hand-off,
    resume, cancel (any number of times), shielded release and exit.

    Each step is one stretch of code between two suspension points; the bookkeeping part of a step is
    the critical section of module Admission. Delivery of a cancellation is a step of its own, so that
    a hand-off can fall between the cancel call and the moment the waiter sees it. */
module AdmissionProtocol {
  import opened Admission
  import opened Wrappers

  type Request = nat

  /** Where one `acquire` stands. `Releasing` is a spawned, shielded release that has not run yet:
      the request itself may be long gone, and cancelling it again changes nothing. */
  datatype Phase =
    | Waiting(engine: Engine, priority: int, ticket: nat, isSet: bool, cancelRequested: bool)
    | Holding(engine: Engine)
    | Releasing(engine: Engine)
    | Finished

  datatype State = State(book: Book, requests: map<Request, Phase>)

  datatype Step =
    | Enter(r: Request, priority: int, engine: Engine)
    | Resume(r: Request)
    | Cancel(r: Request)
    | Deliver(r: Request)
    | Exit(r: Request)
    | RunRelease(r: Request)

  const INIT := State(EMPTY_BOOK, map[])

  predicate Enabled(s: State, t: Step) {
    match t
    case Enter(r, _, _) => r !in s.requests
    case Resume(r) => r in s.requests && s.requests[r].Waiting? && s.requests[r].isSet && !s.requests[r].cancelRequested
    case Cancel(r) => r in s.requests
    case Deliver(r) => r in s.requests && s.requests[r].Waiting? && s.requests[r].cancelRequested
    case Exit(r) => r in s.requests && s.requests[r].Holding?
    case RunRelease(r) => r in s.requests && s.requests[r].Releasing?
  }

  predicate WaitsAt(p: Phase, e: Engine, ticket: nat) {
    p.Waiting? && p.engine == e && p.ticket == ticket
  }

  /** `event.set()` on the waiter a release popped. */
  function HandTo(requests: map<Request, Phase>, e: Engine, heir: Option<Entry>): map<Request, Phase> {
    map r | r in requests ::
      if heir.Some? && WaitsAt(requests[r], e, heir.value.ticket) then requests[r].(isSet := true) else requests[r]
  }

  function Next(s: State, max: int, t: Step): State
    requires Enabled(s, t)
  {
    match t
    case Enter(r, priority, e) =>
      State(EnterBook(s.book, max, priority, e),
            s.requests[r := if FastPath(s.book, max, e) then Holding(e)
                            else Waiting(e, Clamp(priority), s.book.issued + 1, false, false)])
    case Resume(r) => s.(requests := s.requests[r := Holding(s.requests[r].engine)])
    case Cancel(r) =>
      if s.requests[r].Waiting? then s.(requests := s.requests[r := s.requests[r].(cancelRequested := true)]) else s
    case Deliver(r) =>
      var p := s.requests[r];
      if p.isSet then s.(requests := s.requests[r := Releasing(p.engine)])
      else State(CancelBook(s.book, p.engine, p.ticket), s.requests[r := Finished])
    case Exit(r) => s.(requests := s.requests[r := Releasing(s.requests[r].engine)])
    case RunRelease(r) =>
      var e := s.requests[r].engine;
      State(ReleaseBook(s.book, e), HandTo(s.requests[r := Finished], e, Heir(s.book, e)))
  }

  predicate ValidRun(s: State, max: int, run: seq<Step>)
    decreases |run|
  {
    |run| == 0 || (Enabled(s, run[0]) && ValidRun(Next(s, max, run[0]), max, run[1..]))
  }

  function After(s: State, max: int, run: seq<Step>): State
    requires ValidRun(s, max, run)
    decreases |run|
  {
    if |run| == 0 then s else After(Next(s, max, run[0]), max, run[1..])
  }

  // ----- the invariant ---------------------------------------------------------------------

  /** A slot of `e` is accounted to this request: it holds it, was handed it, or owes its release. */
  predicate Occupies(p: Phase, e: Engine) {
    !p.Finished? && p.engine == e && (p.Waiting? ==> p.isSet)
  }

  ghost function Occupants(requests: map<Request, Phase>, e: Engine): set<Request> {
    set r | r in requests && Occupies(requests[r], e)
  }

  predicate Unserved(p: Phase) {
    p.Waiting? && !p.isSet
  }

  ghost predicate Counted(s: State, max: int, e: Engine) {
    && Inflight(s.book, e) == |Occupants(s.requests, e)|
    && Inflight(s.book, e) <= max
    && (e in s.book.inflight ==> s.book.inflight[e] > 0)
    && (e in s.book.queues ==> e in s.book.inflight)
    && (|Queue(s.book, e)| > 0 ==> Inflight(s.book, e) == max)
  }

  function EntryOf(p: Phase): Entry
    requires p.Waiting?
  {
    Entry(p.priority, p.ticket, false)
  }

  /** The request behind a live heap entry. */
  ghost predicate Owns(s: State, r: Request, e: Engine, x: Entry) {
    r in s.requests && Unserved(s.requests[r]) && s.requests[r].priority == x.priority
    && WaitsAt(s.requests[r], e, x.ticket)
  }

  /** The live entries of the heap of `e` are exactly the unserved waiters of `e`, in serving order. */
  ghost predicate HeapMatches(s: State, e: Engine) {
    && Sorted(Queue(s.book, e))
    && (forall x :: x in Queue(s.book, e) ==> x.ticket <= s.book.issued)
    && (forall r :: r in s.requests && Unserved(s.requests[r]) && s.requests[r].engine == e ==>
          EntryOf(s.requests[r]) in Queue(s.book, e))
    && (forall x :: x in Queue(s.book, e) && !x.cancelled ==> exists r :: Owns(s, r, e, x))
  }

  ghost predicate TicketsUnique(s: State) {
    && (forall r :: r in s.requests && s.requests[r].Waiting? ==> s.requests[r].ticket <= s.book.issued)
    && (forall r, q :: r in s.requests && q in s.requests && r != q && s.requests[r].Waiting? && s.requests[q].Waiting? ==>
          s.requests[r].ticket != s.requests[q].ticket)
  }

  ghost predicate Inv(s: State, max: int) {
    TicketsUnique(s) && forall e :: Counted(s, max, e) && HeapMatches(s, e)
  }

  lemma OccupantsAfter(requests: map<Request, Phase>, r: Request, p: Phase, e: Engine)
    ensures Occupants(requests[r := p], e) ==
      if Occupies(p, e) then Occupants(requests, e) + {r} else Occupants(requests, e) - {r}
  {
  }

  /** The unserved waiter that a release of `e` serves, if there is one. */
  lemma HeirOwner(s: State, max: int, e: Engine)
    requires Inv(s, max)
    ensures Heir(s.book, e).Some? ==> exists r :: Owns(s, r, e, Heir(s.book, e).value)
    ensures Heir(s.book, e) == None ==> forall r :: r in s.requests && Unserved(s.requests[r]) ==> s.requests[r].engine != e
    ensures Heir(s.book, e) == None ==> DropTombstones(Queue(s.book, e)) == []
  {
    var q := Queue(s.book, e);
    assert HeapMatches(s, e);
    DropTombstonesFacts(q);
    var rest := DropTombstones(q);
    if |rest| > 0 {
      assert rest[0] == q[|q| - |rest|];
      assert rest[0] in q;
    } else {
      assert forall x :: x in q ==> x.cancelled;
    }
  }

  lemma HandToNobody(s: State, max: int, r: Request)
    requires Enabled(s, RunRelease(r)) && Heir(s.book, s.requests[r].engine) == None
    ensures Next(s, max, RunRelease(r)).requests == s.requests[r := Finished]
  {
  }

  lemma HandToOne(s: State, max: int, r: Request, q: Request)
    requires Inv(s, max) && Enabled(s, RunRelease(r))
    requires Heir(s.book, s.requests[r].engine).Some?
    requires Owns(s, q, s.requests[r].engine, Heir(s.book, s.requests[r].engine).value)
    ensures q != r
    ensures Next(s, max, RunRelease(r)).requests == s.requests[r := Finished][q := s.requests[q].(isSet := true)]
  {
    var e := s.requests[r].engine;
    var heir := Heir(s.book, e);
    forall p | p in s.requests && p != q && p != r ensures !WaitsAt(s.requests[p], e, heir.value.ticket) {}
  }

  /** A request changes phase without gaining or losing a slot, and nothing is counted or queued. */
  lemma CountedKept(s: State, b: Book, r: Request, p: Phase, max: int, e: Engine)
    requires Counted(s, max, e) && r in s.requests
    requires b.inflight == s.book.inflight && b.queues.Keys == s.book.queues.Keys
    requires |Queue(b, e)| == |Queue(s.book, e)|
    requires Occupies(p, e) == Occupies(s.requests[r], e)
    ensures Counted(State(b, s.requests[r := p]), max, e)
  {
    OccupantsAfter(s.requests, r, p, e);
    if Occupies(p, e) { assert r in Occupants(s.requests, e); }
    assert Occupants(s.requests[r := p], e) == Occupants(s.requests, e);
  }

  lemma EnterBookAt(b: Book, max: int, priority: int, f: Engine, e: Engine)
    requires e in b.queues ==> e in b.inflight
    requires |Queue(b, f)| > 0 ==> f in b.inflight
    ensures var n, fast := EnterBook(b, max, priority, f), FastPath(b, max, f);
      && Inflight(n, e) == Inflight(b, e) + (if e == f && fast then 1 else 0)
      && (e != f || fast ==> Queue(n, e) == Queue(b, e))
      && (e in n.inflight <==> e in b.inflight || (e == f && fast))
      && (e in n.inflight && !(e == f && fast) ==> n.inflight[e] == b.inflight[e])
      && (e in n.queues <==> e in b.queues || (e == f && !fast))
  {
    hide Insert;
  }

  lemma CountedEnter(s: State, max: int, r: Request, priority: int, f: Engine, e: Engine)
    requires Inv(s, max) && max >= 1 && r !in s.requests
    ensures Counted(Next(s, max, Enter(r, priority, f)), max, e)
  {
    assert Counted(s, max, e) && Counted(s, max, f);
    EnterBookAt(s.book, max, priority, f, e);
    hide Insert, EnterBook, Inv, HeapMatches, TicketsUnique;
    var s' := Next(s, max, Enter(r, priority, f));
    OccupantsAfter(s.requests, r, s'.requests[r], e);
  }

  /** A slot that is freed: nobody was left to take it. */
  lemma CountedFree(s: State, max: int, r: Request, e: Engine)
    requires Inv(s, max) && Enabled(s, RunRelease(r)) && Heir(s.book, s.requests[r].engine) == None
    ensures Counted(Next(s, max, RunRelease(r)), max, e)
  {
    var f := s.requests[r].engine;
    var s' := Next(s, max, RunRelease(r));
    assert Counted(s, max, e);
    assert s'.requests == s.requests[r := Finished];
    OccupantsAfter(s.requests, r, Finished, e);
    if e == f {
      assert r in Occupants(s.requests, e);
      assert |Occupants(s'.requests, e)| == |Occupants(s.requests, e)| - 1;
      assert Queue(s'.book, e) == [];
      assert Inflight(s'.book, e) == Inflight(s.book, e) - 1;
    } else {
      assert Occupants(s'.requests, e) == Occupants(s.requests, e);
      assert Queue(s'.book, e) == Queue(s.book, e) && Inflight(s'.book, e) == Inflight(s.book, e);
    }
  }

  lemma HandOffBook(b: Book, f: Engine, e: Engine)
    requires Heir(b, f).Some?
    ensures var b' := ReleaseBook(b, f);
      && b'.inflight == b.inflight && b'.queues.Keys == b.queues.Keys
      && (if e == f then |Queue(b, e)| > 0 else Queue(b', e) == Queue(b, e))
  {
    DropTombstonesFacts(Queue(b, f));
  }

  /** A slot that is handed on: one occupant is swapped for another. */
  lemma CountedHandOff(s: State, max: int, r: Request, e: Engine)
    requires Inv(s, max) && Enabled(s, RunRelease(r)) && Heir(s.book, s.requests[r].engine).Some?
    ensures Counted(Next(s, max, RunRelease(r)), max, e)
  {
    var f := s.requests[r].engine;
    var s' := Next(s, max, RunRelease(r));
    assert Counted(s, max, e);
    HeirOwner(s, max, f);
    HandOffBook(s.book, f, e);
    var q :| Owns(s, q, f, Heir(s.book, f).value);
    HandToOne(s, max, r, q);
    OccupantsAfter(s.requests, r, Finished, e);
    OccupantsAfter(s.requests[r := Finished], q, s.requests[q].(isSet := true), e);
    assert q !in Occupants(s.requests, e);
    if e == f { assert r in Occupants(s.requests, e); } else { assert r !in Occupants(s.requests, e); }
    assert |Occupants(s'.requests, e)| == |Occupants(s.requests, e)|;
  }

  lemma CountedStep(s: State, max: int, t: Step, e: Engine)
    requires Inv(s, max) && max >= 1 && Enabled(s, t)
    ensures Counted(Next(s, max, t), max, e)
  {
    assert Counted(s, max, e);
    match t
    case Enter(r, priority, f) => CountedEnter(s, max, r, priority, f, e);
    case Resume(r) => CountedKept(s, s.book, r, Holding(s.requests[r].engine), max, e);
    case Cancel(r) =>
      if s.requests[r].Waiting? { CountedKept(s, s.book, r, s.requests[r].(cancelRequested := true), max, e); }
    case Deliver(r) =>
      var p := s.requests[r];
      if p.isSet { CountedKept(s, s.book, r, Releasing(p.engine), max, e); }
      else { CountedKept(s, CancelBook(s.book, p.engine, p.ticket), r, Finished, max, e); }
    case Exit(r) => CountedKept(s, s.book, r, Releasing(s.requests[r].engine), max, e);
    case RunRelease(r) =>
      if Heir(s.book, s.requests[r].engine) == None { CountedFree(s, max, r, e); } else { CountedHandOff(s, max, r, e); }
  }

  lemma TicketsUniqueStep(s: State, max: int, t: Step)
    requires Inv(s, max) && Enabled(s, t)
    ensures TicketsUnique(Next(s, max, t))
  {
  }

  /** A step that leaves a heap and the unserved waiters of its engine alone. */
  lemma HeapKept(s: State, s': State, e: Engine)
    requires HeapMatches(s, e)
    requires Queue(s'.book, e) == Queue(s.book, e) && s'.book.issued >= s.book.issued
    requires forall r, x :: Owns(s, r, e, x) <==> Owns(s', r, e, x)
    ensures HeapMatches(s', e)
  {
    forall r | r in s'.requests && Unserved(s'.requests[r]) && s'.requests[r].engine == e
      ensures EntryOf(s'.requests[r]) in Queue(s.book, e)
    {
      var x := EntryOf(s'.requests[r]);
      assert Owns(s', r, e, x);
      assert Owns(s, r, e, x);
    }
    forall x | x in Queue(s'.book, e) && !x.cancelled ensures exists r :: Owns(s', r, e, x) {
      var r :| Owns(s, r, e, x);
      assert Owns(s', r, e, x);
    }
  }

  lemma HeapEnter(s: State, max: int, r: Request, priority: int, e: Engine)
    requires Inv(s, max) && Enabled(s, Enter(r, priority, e)) && !FastPath(s.book, max, e)
    ensures HeapMatches(Next(s, max, Enter(r, priority, e)), e)
  {
    var s' := Next(s, max, Enter(r, priority, e));
    var q := Queue(s.book, e);
    var x := Entry(Clamp(priority), s.book.issued + 1, false);
    assert HeapMatches(s, e);
    InsertFacts(q, x);
    assert Owns(s', r, e, x);
    forall y | y in Queue(s'.book, e) && !y.cancelled ensures exists p :: Owns(s', p, e, y) {
      if y != x {
        var p :| Owns(s, p, e, y);
        assert Owns(s', p, e, y);
      }
    }
  }

  lemma MarkFacts(q: seq<Entry>, ticket: nat, bound: nat)
    requires Sorted(q) && forall x :: x in q ==> x.ticket <= bound
    ensures Sorted(Mark(q, ticket)) && forall x :: x in Mark(q, ticket) ==> x.ticket <= bound
    ensures forall x :: x in q && x.ticket != ticket ==> x in Mark(q, ticket)
    ensures forall x :: x in Mark(q, ticket) && !x.cancelled ==> x in q && x.ticket != ticket
  {
    hide Mark;
    var m := Mark(q, ticket);
    forall i, j | 0 <= i < j < |m| ensures Before(m[i], m[j]) { assert Before(q[i], q[j]); }
    forall x | x in q && x.ticket != ticket ensures x in m {
      var i :| 0 <= i < |q| && q[i] == x;
      assert m[i] == x;
    }
    forall x | x in m ensures x.ticket <= bound && (!x.cancelled ==> x in q && x.ticket != ticket) {
      var i :| 0 <= i < |m| && m[i] == x;
      assert q[i] in q;
    }
  }

  lemma HeapTombstone(s: State, max: int, r: Request)
    requires Inv(s, max) && Enabled(s, Deliver(r)) && !s.requests[r].isSet
    ensures HeapMatches(Next(s, max, Deliver(r)), s.requests[r].engine)
  {
    hide Mark;
    var p := s.requests[r];
    var e := p.engine;
    var s' := Next(s, max, Deliver(r));
    var q := Queue(s.book, e);
    assert HeapMatches(s, e);
    MarkFacts(q, p.ticket, s.book.issued);
    assert Entry(p.priority, p.ticket, false) in q;
    assert Queue(s'.book, e) == Mark(q, p.ticket);
    forall x | x in Mark(q, p.ticket) && !x.cancelled ensures exists o :: Owns(s', o, e, x) {
      var o :| Owns(s, o, e, x);
      assert Owns(s', o, e, x);
    }
  }

  /** The heap behind a live head: everything else it held, still in order. */
  lemma TailFacts(q: seq<Entry>, d: nat)
    requires Sorted(q) && 0 < d <= |q| && forall i :: 0 <= i < d - 1 ==> q[i].cancelled
    ensures Sorted(q[d..])
    ensures forall x :: x in q[d..] ==> x in q && Before(q[d - 1], x)
    ensures forall x :: x in q && !x.cancelled && x != q[d - 1] ==> x in q[d..]
  {
    forall x | x in q[d..] ensures x in q && Before(q[d - 1], x) {
      var i :| 0 <= i < |q[d..]| && q[d..][i] == x;
      assert Before(q[d - 1], q[d + i]);
    }
    forall x | x in q && !x.cancelled && x != q[d - 1] ensures x in q[d..] {
      var i :| 0 <= i < |q| && q[i] == x;
      assert q[d..][i - d] == x;
    }
  }

  lemma HeapWithoutHeir(s: State, s': State, e: Engine, o: Request, d: nat)
    requires TicketsUnique(s) && HeapMatches(s, e) && 0 < d <= |Queue(s.book, e)|
    requires forall i :: 0 <= i < d - 1 ==> Queue(s.book, e)[i].cancelled
    requires Owns(s, o, e, Queue(s.book, e)[d - 1]) && !Queue(s.book, e)[d - 1].cancelled
    requires Queue(s'.book, e) == Queue(s.book, e)[d..] && s'.book.issued == s.book.issued
    requires o in s'.requests && !Unserved(s'.requests[o])
    requires forall p, x :: p != o ==> (Owns(s', p, e, x) <==> Owns(s, p, e, x))
    ensures HeapMatches(s', e)
  {
    var q := Queue(s.book, e);
    TailFacts(q, d);
    forall p | p in s'.requests && Unserved(s'.requests[p]) && s'.requests[p].engine == e
      ensures EntryOf(s'.requests[p]) in q[d..]
    {
      var x := EntryOf(s'.requests[p]);
      assert Owns(s', p, e, x);
      assert Owns(s, p, e, x);
    }
    forall x | x in q[d..] && !x.cancelled ensures exists p :: Owns(s', p, e, x) {
      var p :| Owns(s, p, e, x);
      assert Owns(s', p, e, x);
    }
  }

  lemma HeapHandOff(s: State, max: int, r: Request)
    requires Inv(s, max) && Enabled(s, RunRelease(r))
    ensures HeapMatches(Next(s, max, RunRelease(r)), s.requests[r].engine)
  {
    hide DropTombstones, HandTo, Counted, TicketsUnique;
    var e := s.requests[r].engine;
    var s' := Next(s, max, RunRelease(r));
    var q := Queue(s.book, e);
    var rest := DropTombstones(q);
    assert HeapMatches(s, e);
    HeirOwner(s, max, e);
    DropTombstonesFacts(q);
    if |rest| > 0 {
      var o :| Owns(s, o, e, rest[0]);
      HandToOne(s, max, r, o);
      HeapWithoutHeir(s, s', e, o, |q| - |rest| + 1);
    } else {
      assert Queue(s'.book, e) == [];
      HandToNobody(s, max, r);
    }
  }

  /** Phase changes that touch neither a heap nor an unserved waiter's identity. */
  lemma HeapPhaseChange(s: State, r: Request, p: Phase, e: Engine)
    requires HeapMatches(s, e) && r in s.requests
    requires if Unserved(p) then s.requests[r].Waiting? && p == s.requests[r].(cancelRequested := p.cancelRequested) else !Unserved(s.requests[r])
    ensures HeapMatches(s.(requests := s.requests[r := p]), e)
  {
    HeapKept(s, s.(requests := s.requests[r := p]), e);
  }

  lemma HeapDeliver(s: State, max: int, r: Request, e: Engine)
    requires Inv(s, max) && Enabled(s, Deliver(r))
    ensures HeapMatches(Next(s, max, Deliver(r)), e)
  {
    hide Mark;
    var p := s.requests[r];
    assert HeapMatches(s, e);
    if p.isSet {
      HeapPhaseChange(s, r, Releasing(p.engine), e);
    } else if p.engine == e {
      HeapTombstone(s, max, r);
    } else {
      HeapKept(s, Next(s, max, Deliver(r)), e);
    }
  }

  lemma HeapElsewhere(s: State, max: int, r: Request, e: Engine)
    requires Inv(s, max) && Enabled(s, RunRelease(r)) && s.requests[r].engine != e
    ensures HeapMatches(Next(s, max, RunRelease(r)), e)
  {
    hide DropTombstones;
    assert HeapMatches(s, e);
    HeapKept(s, Next(s, max, RunRelease(r)), e);
  }

  lemma HeapJoin(s: State, max: int, r: Request, priority: int, f: Engine, e: Engine)
    requires Inv(s, max) && Enabled(s, Enter(r, priority, f))
    ensures HeapMatches(Next(s, max, Enter(r, priority, f)), e)
  {
    hide Insert;
    assert HeapMatches(s, e);
    if f == e && !FastPath(s.book, max, e) {
      HeapEnter(s, max, r, priority, e);
    } else {
      HeapKept(s, Next(s, max, Enter(r, priority, f)), e);
    }
  }

  lemma HeapStep(s: State, max: int, t: Step, e: Engine)
    requires Inv(s, max) && Enabled(s, t)
    ensures HeapMatches(Next(s, max, t), e)
  {
    hide HeapMatches;
    assert HeapMatches(s, e);
    match t
    case Enter(r, priority, f) => HeapJoin(s, max, r, priority, f, e);
    case Resume(r) => HeapPhaseChange(s, r, Holding(s.requests[r].engine), e);
    case Cancel(r) =>
      if s.requests[r].Waiting? { HeapPhaseChange(s, r, s.requests[r].(cancelRequested := true), e); }
    case Deliver(r) => HeapDeliver(s, max, r, e);
    case Exit(r) => HeapPhaseChange(s, r, Releasing(s.requests[r].engine), e);
    case RunRelease(r) =>
      if s.requests[r].engine == e { HeapHandOff(s, max, r); } else { HeapElsewhere(s, max, r, e); }
  }

  lemma InvStep(s: State, max: int, t: Step)
    requires Inv(s, max) && max >= 1 && Enabled(s, t)
    ensures Inv(Next(s, max, t), max)
  {
    TicketsUniqueStep(s, max, t);
    forall e ensures Counted(Next(s, max, t), max, e) && HeapMatches(Next(s, max, t), e) {
      CountedStep(s, max, t, e);
      HeapStep(s, max, t, e);
    }
  }

  lemma {:induction false} InvRun(s: State, max: int, run: seq<Step>)
    requires Inv(s, max) && max >= 1 && ValidRun(s, max, run)
    ensures Inv(After(s, max, run), max)
    decreases |run|
  {
    if |run| > 0 {
      InvStep(s, max, run[0]);
      InvRun(Next(s, max, run[0]), max, run[1..]);
    }
  }

  // ----- what the invariant means over whole runs --------------------------------------------

  /** Slots are conserved in every reachable state, a release never finds the count at zero, a queue
      beside spare capacity never exists, and nothing is left once every request has ended. */
  lemma SlotsConserved(max: int, run: seq<Step>)
    requires max >= 1 && ValidRun(INIT, max, run)
    ensures var s := After(INIT, max, run);
      && (forall e :: Inflight(s.book, e) == |Occupants(s.requests, e)| <= max)
      && (forall e :: |Queue(s.book, e)| > 0 ==> Inflight(s.book, e) == max)
      && (forall r :: Enabled(s, RunRelease(r)) ==> Inflight(s.book, s.requests[r].engine) >= 1)
      && (forall r :: r in s.requests && Unserved(s.requests[r]) ==> Inflight(s.book, s.requests[r].engine) == max)
      && ((forall r :: r in s.requests ==> s.requests[r].Finished?) ==> s.book.inflight == map[] && s.book.queues == map[])
  {
    assert Inv(INIT, max);
    InvRun(INIT, max, run);
    var s := After(INIT, max, run);
    forall e ensures Inflight(s.book, e) == |Occupants(s.requests, e)| <= max
      && (|Queue(s.book, e)| > 0 ==> Inflight(s.book, e) == max)
    {
      assert Counted(s, max, e);
    }
    forall r | Enabled(s, RunRelease(r)) ensures Inflight(s.book, s.requests[r].engine) >= 1 {
      var e := s.requests[r].engine;
      assert Counted(s, max, e) && r in Occupants(s.requests, e);
    }
    forall r | r in s.requests && Unserved(s.requests[r]) ensures Inflight(s.book, s.requests[r].engine) == max {
      var e := s.requests[r].engine;
      assert HeapMatches(s, e) && Counted(s, max, e);
      assert EntryOf(s.requests[r]) in Queue(s.book, e);
    }
    if forall r :: r in s.requests ==> s.requests[r].Finished? {
      forall e ensures e !in s.book.inflight && e !in s.book.queues {
        assert Counted(s, max, e) && Occupants(s.requests, e) == {};
      }
    }
  }

  /** Why a positive ceiling is needed: without one, a cancelled request strands its tombstone for good. */
  lemma NoCapacityStrandsBookkeeping(max: int)
    requires max < 1
    ensures var run := [Enter(0, 5, "m"), Cancel(0), Deliver(0)];
      && ValidRun(INIT, max, run)
      && After(INIT, max, run).requests == map[0 := Finished]
      && After(INIT, max, run).book.queues != map[]
  {
    var run := [Enter(0, 5, "m"), Cancel(0), Deliver(0)];
    var s1 := Next(INIT, max, run[0]);
    var s2 := Next(s1, max, run[1]);
    var s3 := Next(s2, max, run[2]);
    assert run[1..] == [Cancel(0), Deliver(0)] && run[1..][1..] == [Deliver(0)] && run[1..][1..][1..] == [];
    assert After(INIT, max, run) == After(s1, max, run[1..]) == After(s2, max, run[1..][1..]) == s3;
    assert "m" in s3.book.queues;
  }

  /** A hand-off serves exactly one request: of the unserved waiters of the engine, the one of highest
      priority, and of those the one that came first. */
  lemma HandOffServesTheFirst(s: State, max: int, r: Request)
    requires Inv(s, max) && Enabled(s, RunRelease(r)) && Heir(s.book, s.requests[r].engine).Some?
    ensures var e, s' := s.requests[r].engine, Next(s, max, RunRelease(r));
      exists q :: q in s.requests && Unserved(s.requests[q]) && s.requests[q].engine == e
        && s'.requests == s.requests[r := Finished][q := s.requests[q].(isSet := true)]
        && forall p :: p in s.requests && p != q && Unserved(s.requests[p]) && s.requests[p].engine == e ==>
             s.requests[q].priority > s.requests[p].priority
             || (s.requests[q].priority == s.requests[p].priority && s.requests[q].ticket < s.requests[p].ticket)
  {
    var e := s.requests[r].engine;
    var x := Heir(s.book, e).value;
    HeirOwner(s, max, e);
    var q :| Owns(s, q, e, x);
    HandToOne(s, max, r, q);
    DropTombstonesFacts(Queue(s.book, e));
    forall p | p in s.requests && p != q && Unserved(s.requests[p]) && s.requests[p].engine == e
      ensures x.priority > s.requests[p].priority || (x.priority == s.requests[p].priority && x.ticket < s.requests[p].ticket)
    {
      var y := EntryOf(s.requests[p]);
      assert HeapMatches(s, e) && y in Queue(s.book, e);
      var h, d := Queue(s.book, e), |Queue(s.book, e)| - |DropTombstones(Queue(s.book, e))|;
      assert h[d] == x;
      var i :| 0 <= i < |h| && h[i] == y;
    }
  }

  /** A request that has to wait takes the next ticket and its priority, cut to the range from 0 to 9, and
      stands ahead of exactly the entries of a lower priority. */
  lemma EnterStandsByPriority(s: State, max: int, r: Request, priority: int, e: Engine) returns (k: nat)
    requires Inv(s, max) && r !in s.requests && !FastPath(s.book, max, e)
    ensures var n, q := Next(s, max, Enter(r, priority, e)), Queue(s.book, e);
      var x := n.requests[r];
      && x.Waiting? && x.engine == e && !x.isSet && x.ticket == s.book.issued + 1 == n.book.issued
      && x.priority == (if priority < 0 then 0 else if priority > 9 then 9 else priority)
      && k <= |q| && Queue(n.book, e) == q[..k] + [Entry(x.priority, x.ticket, false)] + q[k..]
      && (forall i :: 0 <= i < k ==> q[i].priority >= x.priority)
      && (forall i :: k <= i < |q| ==> q[i].priority < x.priority)
  {
    assert HeapMatches(s, e);
    k := InsertPlace(Queue(s.book, e), Entry(Clamp(priority), s.book.issued + 1, false));
    hide Insert;
  }

  /** A cancelled waiter leaves at once: before a hand-off without a slot, its entry a tombstone that no
      release serves; after one it owes exactly the release of the slot it was handed. */
  lemma CancelledWaiterLeaves(s: State, max: int, r: Request)
    requires Inv(s, max) && max >= 1 && r in s.requests && s.requests[r].Waiting?
    ensures var c := Next(s, max, Cancel(r));
      && Enabled(c, Deliver(r)) && !Enabled(c, Resume(r))
      && var n := Next(c, max, Deliver(r));
      var x := s.requests[r];
      && n.requests[r] == (if x.isSet then Releasing(x.engine) else Finished)
      && (x.isSet ==> n.book == s.book)
      && (!x.isSet ==> n.book.inflight == s.book.inflight
                       && forall y :: y in Queue(n.book, x.engine) && y.ticket == x.ticket ==> y.cancelled)
  {
    hide Inv;
  }

  /** A waiter that was handed its slot and not cancelled holds it next, and gives it back when it ends. */
  lemma ServedWaiterHolds(s: State, max: int, r: Request)
    requires r in s.requests && s.requests[r].Waiting? && s.requests[r].isSet && !s.requests[r].cancelRequested
    ensures Enabled(s, Resume(r))
    ensures var n := Next(s, max, Resume(r));
      n.requests[r] == Holding(s.requests[r].engine) && n.book == s.book
      && Enabled(n, Exit(r)) && Next(n, max, Exit(r)).requests[r] == Releasing(s.requests[r].engine)
  {
  }

  /** The fast path never overtakes: it is open only while nobody waits for that engine. */
  lemma FastPathOvertakesNobody(s: State, max: int, e: Engine)
    requires Inv(s, max) && FastPath(s.book, max, e)
    ensures forall r :: r in s.requests && Unserved(s.requests[r]) ==> s.requests[r].engine != e
  {
    assert HeapMatches(s, e);
  }

  // ----- bounded waiting -------------------------------------------------------------------

  /** Live entries served before `x`. */
  function Rank(q: seq<Entry>, x: Entry): nat {
    if |q| == 0 || q[0] == x then 0 else (if q[0].cancelled then 0 else 1) + Rank(q[1..], x)
  }

  /** The live entries that the order puts ahead of `x`. */
  ghost function LiveAhead(q: seq<Entry>, x: Entry): set<Entry> {
    set y | y in q && !y.cancelled && (y.priority > x.priority || (y.priority == x.priority && y.ticket < x.ticket))
  }

  lemma {:induction false} RankCounts(q: seq<Entry>, x: Entry)
    requires Sorted(q) && x in q
    ensures Rank(q, x) == |LiveAhead(q, x)|
  {
    SortedParts(q);
    hide Sorted;
    var h, t := q[0], q[1..];
    assert q == [h] + t;
    if h == x {
      assert LiveAhead(q, x) == {};
    } else {
      RankCounts(t, x);
      AheadParts(h, t, x);
      hide LiveAhead;
    }
  }

  lemma AheadParts(h: Entry, t: seq<Entry>, x: Entry)
    requires x in t
    requires forall y :: y in t ==> h.priority > y.priority || (h.priority == y.priority && h.ticket < y.ticket)
    ensures |LiveAhead([h] + t, x)| == |LiveAhead(t, x)| + if h.cancelled then 0 else 1
  {
    assert h !in t;
    assert LiveAhead([h] + t, x) == LiveAhead(t, x) + if h.cancelled then {} else {h};
  }

  /** The waiters of `r`'s engine that come before it: of a higher priority, or of the same and earlier. */
  ghost function WaitersAhead(s: State, r: Request): set<Request>
    requires r in s.requests && s.requests[r].Waiting?
  {
    var x := s.requests[r];
    set p | p in s.requests && Unserved(s.requests[p]) && s.requests[p].engine == x.engine
      && (s.requests[p].priority > x.priority || (s.requests[p].priority == x.priority && s.requests[p].ticket < x.ticket))
  }

  lemma {:induction false} EntriesOf(requests: map<Request, Phase>, rs: set<Request>)
    requires forall p :: p in rs ==> p in requests && requests[p].Waiting?
    requires forall p, q :: p in rs && q in rs && p != q ==> requests[p].ticket != requests[q].ticket
    ensures |set p | p in rs :: EntryOf(requests[p])| == |rs|
    decreases |rs|
  {
    if rs != {} {
      var p :| p in rs;
      var rest := rs - {p};
      EntriesOf(requests, rest);
      assert EntryOf(requests[p]) !in (set q | q in rest :: EntryOf(requests[q]));
      assert (set q | q in rs :: EntryOf(requests[q])) == (set q | q in rest :: EntryOf(requests[q])) + {EntryOf(requests[p])};
    }
  }

  /** A waiter's rank is the number of waiters ahead of it. */
  lemma RankIsWaitersAhead(s: State, max: int, r: Request)
    requires Inv(s, max) && r in s.requests && Unserved(s.requests[r])
    ensures Rank(Queue(s.book, s.requests[r].engine), EntryOf(s.requests[r])) == |WaitersAhead(s, r)|
  {
    var e, x, rs := s.requests[r].engine, EntryOf(s.requests[r]), WaitersAhead(s, r);
    assert HeapMatches(s, e);
    RankCounts(Queue(s.book, e), x);
    EntriesOf(s.requests, rs);
    hide Sorted, Rank;
    var entries := set p | p in rs :: EntryOf(s.requests[p]);
    forall y | y in LiveAhead(Queue(s.book, e), x) ensures y in entries {
      var p :| Owns(s, p, e, y);
      assert p in rs && EntryOf(s.requests[p]) == y;
    }
    assert LiveAhead(Queue(s.book, e), x) == entries;
  }

  lemma {:induction false} RankInsert(q: seq<Entry>, x: Entry, y: Entry)
    requires Sorted(q) && x in q && !Before(y, x) && x != y
    ensures Rank(Insert(q, y), x) == Rank(q, x)
  {
    var k :| 0 <= k < |q| && q[k] == x;
    if k > 0 {
      assert Before(q[0], x);
      assert q[1..][k - 1] == x;
      RankInsert(q[1..], x, y);
    }
  }

  lemma {:induction false} RankMark(q: seq<Entry>, x: Entry, ticket: nat)
    requires !x.cancelled && x.ticket != ticket
    ensures Rank(Mark(q, ticket), x) <= Rank(q, x)
  {
    if |q| > 0 && q[0] != x { RankMark(q[1..], x, ticket); }
  }

  lemma {:induction false} RankDrop(q: seq<Entry>, x: Entry)
    requires !x.cancelled
    ensures Rank(DropTombstones(q), x) == Rank(q, x)
  {
    if |q| > 0 && q[0].cancelled { RankDrop(q[1..], x); }
  }

  lemma RankHead(q: seq<Entry>, x: Entry)
    requires |q| > 0 && q[0] != x && !q[0].cancelled
    ensures Rank(q, x) == 1 + Rank(q[1..], x)
  {
  }

  predicate ReleaseOf(s: State, t: Step, e: Engine)
    requires Enabled(s, t)
  {
    t.RunRelease? && s.requests[t.r].engine == e
  }

  function Releases(s: State, max: int, run: seq<Step>, e: Engine): nat
    requires ValidRun(s, max, run)
    decreases |run|
  {
    if |run| == 0 then 0 else
      (if ReleaseOf(s, run[0], e) then 1 else 0) + Releases(Next(s, max, run[0]), max, run[1..], e)
  }

  predicate Higher(t: Step, e: Engine, priority: int) {
    t.Enter? && t.engine == e && Clamp(t.priority) > priority
  }

  predicate HandedIn(s: State, max: int, run: seq<Step>, r: Request)
    requires ValidRun(s, max, run)
    decreases |run|
  {
    |run| > 0 && (var s' := Next(s, max, run[0]);
      (r in s'.requests && s'.requests[r].Waiting? && s'.requests[r].isSet) || HandedIn(s', max, run[1..], r))
  }

  /** What one step may do to an unserved waiter: serve it, or leave it no further back. */
  ghost predicate Closer(s: State, s': State, r: Request, steps: nat) {
    && r in s.requests && Unserved(s.requests[r]) && r in s'.requests && s'.requests[r].Waiting?
    && (!s'.requests[r].isSet ==>
          && s'.requests[r] == s.requests[r].(cancelRequested := s'.requests[r].cancelRequested)
          && Rank(Queue(s'.book, s.requests[r].engine), EntryOf(s.requests[r])) + steps
               <= Rank(Queue(s.book, s.requests[r].engine), EntryOf(s.requests[r])))
  }

  lemma RankEnter(s: State, max: int, q: Request, priority: int, f: Engine, r: Request)
    requires Inv(s, max) && Enabled(s, Enter(q, priority, f))
    requires r in s.requests && Unserved(s.requests[r])
    requires !Higher(Enter(q, priority, f), s.requests[r].engine, s.requests[r].priority)
    ensures Closer(s, Next(s, max, Enter(q, priority, f)), r, 0)
  {
    hide Insert, Rank;
    var e, x := s.requests[r].engine, EntryOf(s.requests[r]);
    assert HeapMatches(s, e) && x in Queue(s.book, e);
    if f == e && !FastPath(s.book, max, e) {
      RankInsert(Queue(s.book, e), x, Entry(Clamp(priority), s.book.issued + 1, false));
    }
  }

  lemma RankDeliver(s: State, max: int, q: Request, r: Request)
    requires Inv(s, max) && Enabled(s, Deliver(q)) && q != r
    requires r in s.requests && Unserved(s.requests[r])
    ensures Closer(s, Next(s, max, Deliver(q)), r, 0)
  {
    hide Mark, Rank;
    var e, x := s.requests[r].engine, EntryOf(s.requests[r]);
    if s.requests[q].engine == e && !s.requests[q].isSet {
      RankMark(Queue(s.book, e), x, s.requests[q].ticket);
    }
  }

  lemma RankRelease(s: State, max: int, q: Request, r: Request)
    requires Inv(s, max) && Enabled(s, RunRelease(q))
    requires r in s.requests && Unserved(s.requests[r])
    ensures Closer(s, Next(s, max, RunRelease(q)), r, if s.requests[q].engine == s.requests[r].engine then 1 else 0)
  {
    hide DropTombstones, Rank;
    var e, x := s.requests[r].engine, EntryOf(s.requests[r]);
    if s.requests[q].engine == e {
      var h := Queue(s.book, e);
      HeirOwner(s, max, e);
      DropTombstonesFacts(h);
      RankDrop(h, x);
      if DropTombstones(h)[0] != x { RankHead(DropTombstones(h), x); }
    }
  }

  /** One step brings an unserved waiter no further back, and a release of its engine one place on. */
  lemma RankStep(s: State, max: int, t: Step, r: Request)
    requires Inv(s, max) && max >= 1 && Enabled(s, t)
    requires r in s.requests && Unserved(s.requests[r])
    requires !Higher(t, s.requests[r].engine, s.requests[r].priority) && t != Deliver(r)
    ensures Closer(s, Next(s, max, t), r, if ReleaseOf(s, t, s.requests[r].engine) then 1 else 0)
  {
    hide Inv;
    match t
    case Enter(q, priority, f) => RankEnter(s, max, q, priority, f, r);
    case Deliver(q) => RankDeliver(s, max, q, r);
    case RunRelease(q) => RankRelease(s, max, q, r);
    case _ =>
  }

  lemma {:induction false} ServedByRank(s: State, max: int, run: seq<Step>, r: Request)
    requires Inv(s, max) && max >= 1 && ValidRun(s, max, run)
    requires r in s.requests && Unserved(s.requests[r])
    requires forall i :: 0 <= i < |run| ==>
      run[i] != Deliver(r) && !Higher(run[i], s.requests[r].engine, s.requests[r].priority)
    requires Releases(s, max, run, s.requests[r].engine) > Rank(Queue(s.book, s.requests[r].engine), EntryOf(s.requests[r]))
    ensures HandedIn(s, max, run, r)
    decreases |run|
  {
    if |run| > 0 {
      var s' := Next(s, max, run[0]);
      RankStep(s, max, run[0], r);
      InvStep(s, max, run[0]);
      if !s'.requests[r].isSet {
        ServedByRank(s', max, run[1..], r);
      }
    }
  }

  /** With k live waiters ahead and nothing higher arriving, k + 1 releases hand a waiter its slot. */
  lemma BoundedWait(s: State, max: int, run: seq<Step>, r: Request)
    requires Inv(s, max) && max >= 1 && ValidRun(s, max, run)
    requires r in s.requests && Unserved(s.requests[r])
    requires forall i :: 0 <= i < |run| ==>
      run[i] != Deliver(r) && !Higher(run[i], s.requests[r].engine, s.requests[r].priority)
    requires Releases(s, max, run, s.requests[r].engine) > |WaitersAhead(s, r)|
    ensures HandedIn(s, max, run, r)
  {
    RankIsWaitersAhead(s, max, r);
    ServedByRank(s, max, run, r);
  }
}
