/** The bookkeeping of the per-engine priority gate: in-flight counters and admission heaps.

    `Book` and the functions over it say what one atomic critical section does; the class
    `PriorityScheduler` updates its fields in place and is proved against them. The protocol that
    several requests run over these sections is in module AdmissionProtocol. */
module Admission {

  import opened Wrappers

  type Engine = string

  /** What the heap of one engine can see of a waiter. */
  datatype Entry = Entry(priority: int, ticket: nat, cancelled: bool)

  datatype Book = Book(inflight: map<Engine, nat>, queues: map<Engine, seq<Entry>>, issued: nat)

  const DEFAULT_MAX_INFLIGHT := 16
  const EMPTY_BOOK := Book(map[], map[], 0)

  /** The environment override; unparsable (None) or non-positive values mean the default. */
  function DefaultMaxInflight(env: Option<int>): (r: int)
    ensures r >= 1
    ensures env.Some? && env.value >= 1 ==> r == env.value
  {
    if env.Some? && env.value > 0 then env.value else DEFAULT_MAX_INFLIGHT
  }

  function Clamp(priority: int): (r: int)
    ensures 0 <= r <= 9
    ensures 0 <= priority <= 9 ==> r == priority
  {
    if priority < 0 then 0 else if priority > 9 then 9 else priority
  }

  /** The heap order: higher priority first, then first come first served. */
  predicate Before(a: Entry, b: Entry) {
    a.priority > b.priority || (a.priority == b.priority && a.ticket < b.ticket)
  }

  /** The (-priority, ticket) order. */
  ghost predicate Sorted(q: seq<Entry>) {
    forall i, j :: 0 <= i < j < |q| ==>
      q[i].priority > q[j].priority || (q[i].priority == q[j].priority && q[i].ticket < q[j].ticket)
  }

  /** Heap insertion, with the heap kept as the sequence in which it would be popped. */
  function Insert(q: seq<Entry>, x: Entry): seq<Entry> {
    if |q| == 0 || Before(x, q[0]) then [x] + q else [q[0]] + Insert(q[1..], x)
  }

  lemma SortedParts(q: seq<Entry>)
    requires |q| > 0
    ensures Sorted(q) <==> Sorted(q[1..]) && forall y :: y in q[1..] ==>
      q[0].priority > y.priority || (q[0].priority == y.priority && q[0].ticket < y.ticket)
  {
    var t := q[1..];
    assert forall i :: 0 < i < |q| ==> q[i] == t[i - 1] && q[i] in t;
    if Sorted(q) {
      forall y | y in t ensures q[0].priority > y.priority || (q[0].priority == y.priority && q[0].ticket < y.ticket) {
        var i :| 0 <= i < |t| && t[i] == y;
        assert q[i + 1] == y;
      }
    }
  }

  lemma {:induction false} InsertMembers(q: seq<Entry>, x: Entry)
    ensures |Insert(q, x)| == |q| + 1
    ensures forall y :: y in Insert(q, x) <==> y in q || y == x
  {
    if |q| > 0 && !Before(x, q[0]) {
      InsertMembers(q[1..], x);
      assert q == [q[0]] + q[1..];
    }
  }

  lemma {:induction false} InsertFacts(q: seq<Entry>, x: Entry)
    ensures |Insert(q, x)| == |q| + 1
    ensures forall y :: y in Insert(q, x) <==> y in q || y == x
    ensures Sorted(q) && (forall y :: y in q ==> y.ticket < x.ticket) ==> Sorted(Insert(q, x))
  {
    InsertMembers(q, x);
    if Sorted(q) && (forall y :: y in q ==> y.ticket < x.ticket) {
      SortedParts(Insert(q, x));
      if |q| == 0 {
        assert Insert(q, x)[1..] == q;
      } else {
        SortedParts(q);
        hide Sorted;
        assert q == [q[0]] + q[1..];
        if Before(x, q[0]) {
          assert Insert(q, x)[1..] == q;
        } else {
          assert Insert(q, x)[1..] == Insert(q[1..], x);
          InsertMembers(q[1..], x);
          InsertFacts(q[1..], x);
        }
      }
    }
  }

  /** The heap after the tombstones at its head have been popped. */
  function DropTombstones(q: seq<Entry>): seq<Entry> {
    if |q| > 0 && q[0].cancelled then DropTombstones(q[1..]) else q
  }

  /** What is dropped is exactly the prefix of tombstones. */
  lemma {:induction false} DropTombstonesFacts(q: seq<Entry>)
    ensures var r := DropTombstones(q);
      && |r| <= |q| && r == q[|q| - |r|..]
      && (forall i :: 0 <= i < |q| - |r| ==> q[i].cancelled)
      && (|r| > 0 ==> !r[0].cancelled)
  {
    if |q| > 0 && q[0].cancelled { DropTombstonesFacts(q[1..]); }
  }

  function Mark(q: seq<Entry>, ticket: nat): (r: seq<Entry>)
    ensures |r| == |q|
    ensures forall i :: 0 <= i < |q| ==> r[i] == if q[i].ticket == ticket then q[i].(cancelled := true) else q[i]
  {
    if |q| == 0 then [] else
      [if q[0].ticket == ticket then q[0].(cancelled := true) else q[0]] + Mark(q[1..], ticket)
  }

  function Inflight(b: Book, e: Engine): nat {
    if e in b.inflight then b.inflight[e] else 0
  }

  function Queue(b: Book, e: Engine): seq<Entry> {
    if e in b.queues then b.queues[e] else []
  }

  predicate FastPath(b: Book, max: int, e: Engine) {
    Inflight(b, e) < max && |Queue(b, e)| == 0
  }

  /** The entry critical section: take a slot, or join the heap. */
  function EnterBook(b: Book, max: int, priority: int, e: Engine): Book {
    if FastPath(b, max, e) then
      b.(inflight := b.inflight[e := Inflight(b, e) + 1])
    else
      b.(queues := b.queues[e := Insert(Queue(b, e), Entry(Clamp(priority), b.issued + 1, false))],
         issued := b.issued + 1)
  }

  /** Who a release hands the slot to: the sequence number of the first live waiter. */
  function Heir(b: Book, e: Engine): Option<Entry> {
    var rest := DropTombstones(Queue(b, e));
    if |rest| > 0 then Some(rest[0]) else None
  }

  /** The release critical section: drain tombstones, hand the slot on, or free it. */
  function ReleaseBook(b: Book, e: Engine): Book {
    var rest := DropTombstones(Queue(b, e));
    if |rest| > 0 then b.(queues := b.queues[e := rest[1..]])
    else if Inflight(b, e) <= 1 then b.(inflight := b.inflight - {e}, queues := b.queues - {e})
    else b.(inflight := b.inflight[e := Inflight(b, e) - 1],
            queues := if e in b.queues then b.queues[e := []] else b.queues)
  }

  /** Popping a tombstone off a heap changes nothing a release can see. */
  lemma PopTombstone(b: Book, e: Engine)
    requires e in b.queues && |b.queues[e]| > 0 && b.queues[e][0].cancelled
    ensures var b' := b.(queues := b.queues[e := b.queues[e][1..]]);
      Heir(b', e) == Heir(b, e) && ReleaseBook(b', e) == ReleaseBook(b, e)
  {
    var b' := b.(queues := b.queues[e := b.queues[e][1..]]);
    var rest := DropTombstones(b.queues[e]);
    var left := if |rest| > 0 then rest[1..] else [];
    assert b'.queues[e := left] == b.queues[e := left];
    assert b'.queues - {e} == b.queues - {e};
  }

  function CancelBook(b: Book, e: Engine, ticket: nat): Book {
    if e in b.queues then b.(queues := b.queues[e := Mark(b.queues[e], ticket)]) else b
  }

  /** Where the heap serves `x`: behind every entry it does not precede. */
  lemma {:induction false} InsertAt(q: seq<Entry>, x: Entry, k: nat)
    requires k <= |q|
    requires forall i :: 0 <= i < k ==> !Before(x, q[i])
    requires k < |q| ==> Before(x, q[k])
    ensures Insert(q, x) == q[..k] + [x] + q[k..]
  {
    if k > 0 {
      InsertAt(q[1..], x, k - 1);
      assert q[..k] == [q[0]] + q[1..][..k - 1];
    }
  }

  lemma {:induction false} FirstBehind(q: seq<Entry>, x: Entry) returns (k: nat)
    ensures k <= |q| && (forall i :: 0 <= i < k ==> !Before(x, q[i])) && (k < |q| ==> Before(x, q[k]))
  {
    k := 0;
    while k < |q| && !Before(x, q[k])
      invariant k <= |q| && forall i :: 0 <= i < k ==> !Before(x, q[i])
    {
      k := k + 1;
    }
  }

  /** A newcomer, whose ticket is the highest, stands behind everybody of its own priority or a higher one
      and ahead of everybody of a lower one. */
  lemma InsertPlace(q: seq<Entry>, x: Entry) returns (k: nat)
    requires Sorted(q) && forall y :: y in q ==> y.ticket < x.ticket
    ensures k <= |q| && Insert(q, x) == q[..k] + [x] + q[k..]
    ensures forall i :: 0 <= i < k ==> q[i].priority >= x.priority
    ensures forall i :: k <= i < |q| ==> q[i].priority < x.priority
  {
    hide Insert;
    k := FirstBehind(q, x);
    InsertAt(q, x, k);
    assert forall i :: 0 <= i < |q| ==> q[i] in q;
  }

  /** One queued request. Its flags are shared between the heap and the coroutine that waits. */
  class Waiter {
    const priority: int
    const ticket: nat
    ghost const home: Engine
    var isSet: bool
    var cancelled: bool

    constructor (priority: int, ticket: nat, ghost home: Engine)
      ensures this.priority == priority && this.ticket == ticket && this.home == home
      ensures !isSet && !cancelled
    {
      this.priority, this.ticket, this.home := priority, ticket, home;
      isSet, cancelled := false, false;
    }

    function AsEntry(): Entry
      reads this
    {
      Entry(priority, ticket, cancelled)
    }
  }

  /** One heap: owned waiters of this engine with distinct tickets, and what the heap sees of them. */
  ghost predicate Shows(waiting: set<Waiter>, issued: nat, e: Engine, q: seq<Waiter>, entries: seq<Entry>)
    reads waiting
  {
    && |q| == |entries|
    && (forall i :: 0 <= i < |q| ==>
          q[i] in waiting && q[i].home == e && q[i].ticket <= issued && entries[i] == q[i].AsEntry())
    && (forall i, j :: 0 <= i < j < |q| ==> q[i].ticket != q[j].ticket)
  }

  lemma ShowsInsert(waiting: set<Waiter>, issued: nat, e: Engine, q: seq<Waiter>, es: seq<Entry>, w: Waiter, k: nat)
    requires Shows(waiting, issued, e, q, es)
    requires w.home == e && w.ticket == issued + 1 && k <= |q|
    ensures Shows(waiting + {w}, issued + 1, e, q[..k] + [w] + q[k..], es[..k] + [w.AsEntry()] + es[k..])
  {
  }

  lemma ShowsGrow(waiting: set<Waiter>, issued: nat, e: Engine, q: seq<Waiter>, es: seq<Entry>, w: Waiter)
    requires Shows(waiting, issued, e, q, es)
    ensures Shows(waiting + {w}, issued + 1, e, q, es)
  {
  }

  class PriorityScheduler {
    const maxInflight: int
    var inflight: map<Engine, nat>
    var queues: map<Engine, seq<Waiter>>
    var issued: nat
    ghost var waiting: set<Waiter>
    ghost var book: Book

    ghost predicate Valid()
      reads this, waiting
    {
      && book.inflight == inflight && book.issued == issued
      && book.queues.Keys == queues.Keys
      && (forall e :: e in queues ==> Shows(waiting, issued, e, queues[e], book.queues[e]))
    }

    constructor (max: Option<int>, env: Option<int>)
      ensures Valid() && book == EMPTY_BOOK && waiting == {}
      ensures maxInflight == if max.Some? then max.value else DefaultMaxInflight(env)
    {
      maxInflight := if max.Some? then max.value else DefaultMaxInflight(env);
      inflight, queues, issued := map[], map[], 0;
      waiting, book := {}, EMPTY_BOOK;
    }

    /** First half of `acquire`: null means the slot was taken on the fast path. */
    method Enter(priority: int, e: Engine) returns (w: Waiter?)
      requires Valid()
      modifies this
      ensures Valid()
      ensures book == EnterBook(old(book), maxInflight, priority, e)
      ensures w == null <==> FastPath(old(book), maxInflight, e)
      ensures w == null ==> waiting == old(waiting)
      ensures w != null ==> fresh(w) && !w.isSet && waiting == old(waiting) + {w} && w.ticket == issued
      ensures w != null ==> e in queues && w in queues[e]
    {
      var n := if e in inflight then inflight[e] else 0;
      if n < maxInflight && (e !in queues || |queues[e]| == 0) {
        inflight := inflight[e := n + 1];
        book := book.(inflight := inflight);
        w := null;
      } else {
        w := new Waiter(Clamp(priority), issued + 1, e);
        Put(e, w);
      }
    }

    /** `put`: adds a waiter with a new ticket to the heap, created on first use. */
    method Put(e: Engine, w: Waiter)
      requires Valid() && w !in waiting && w.home == e && w.ticket == issued + 1
      modifies this`queues, this`issued, this`waiting, this`book
      ensures Valid() && waiting == old(waiting) + {w}
      ensures e in queues && w in queues[e]
      ensures book == Book(inflight, old(book).queues[e := Insert(Queue(old(book), e), w.AsEntry())], w.ticket)
    {
      hide Insert;
      var q := if e in queues then queues[e] else [];
      ghost var es := Queue(book, e);
      assert Shows(waiting, issued, e, q, es);
      var k := HeapPosition(q, w);
      InsertAt(es, w.AsEntry(), k);
      ShowsInsert(waiting, issued, e, q, es, w, k);
      forall f | f in queues ensures Shows(waiting + {w}, issued + 1, f, queues[f], book.queues[f]) {
        ShowsGrow(waiting, issued, f, queues[f], book.queues[f], w);
      }
      issued := issued + 1;
      waiting := waiting + {w};
      Store(e, q[..k] + [w] + q[k..], Insert(es, w.AsEntry()));
      assert queues[e][k] == w;
    }

    /** Replaces one heap. */
    method Store(e: Engine, q: seq<Waiter>, ghost es: seq<Entry>)
      requires Shows(waiting, issued, e, q, es)
      requires book.queues.Keys == queues.Keys
      requires forall f :: f in queues ==> Shows(waiting, issued, f, queues[f], book.queues[f])
      requires book.inflight == inflight
      modifies this`queues, this`book
      ensures Valid() && queues == old(queues)[e := q]
      ensures book == Book(inflight, old(book).queues[e := es], issued)
    {
      queues := queues[e := q];
      book := Book(inflight, book.queues[e := es], issued);
    }

    /** The position at which the heap would serve `x`. */
    method HeapPosition(q: seq<Waiter>, x: Waiter) returns (k: nat)
      ensures k <= |q|
      ensures forall i :: 0 <= i < k ==> !Before(x.AsEntry(), q[i].AsEntry())
      ensures k < |q| ==> Before(x.AsEntry(), q[k].AsEntry())
    {
      k := 0;
      while k < |q| && !Before(x.AsEntry(), q[k].AsEntry())
        invariant k <= |q|
        invariant forall i :: 0 <= i < k ==> !Before(x.AsEntry(), q[i].AsEntry())
      {
        k := k + 1;
      }
    }

    /** A cancelled waiter whose event is still unset leaves a tombstone behind. */
    method Tombstone(e: Engine, w: Waiter)
      requires Valid() && e in queues && w in queues[e]
      modifies w, this`book
      ensures Valid()
      ensures book == CancelBook(old(book), e, w.ticket)
      ensures w.cancelled && w.isSet
    {
      hide Mark;
      assert Shows(waiting, issued, e, queues[e], book.queues[e]);
      w.cancelled := true;
      w.isSet := true;
      book := CancelBook(book, e, w.ticket);
      forall f | f in queues ensures Shows(waiting, issued, f, queues[f], book.queues[f]) {
        assert old(Shows(waiting, issued, f, queues[f], book.queues[f]));
        if f == e {
          var k :| 0 <= k < |queues[e]| && queues[e][k] == w;
        }
      }
    }

    /** `get_nowait`: pops the head of a non-empty heap. */
    method Pop(e: Engine) returns (w: Waiter)
      requires Valid() && e in queues && |queues[e]| > 0
      modifies this`queues, this`book
      ensures Valid() && queues.Keys == old(queues.Keys) && queues[e] == old(queues[e])[1..]
      ensures w in waiting && w.home == e && w.AsEntry() == old(book).queues[e][0]
      ensures book == old(book).(queues := old(book).queues[e := old(book).queues[e][1..]])
    {
      assert Shows(waiting, issued, e, queues[e], book.queues[e]);
      w := queues[e][0];
      Store(e, queues[e][1..], book.queues[e][1..]);
    }

    /** `event.set()`: invisible to the heaps. */
    method Wake(w: Waiter)
      requires Valid()
      modifies w`isSet
      ensures Valid() && w.isSet
    {
      w.isSet := true;
      forall f | f in queues ensures Shows(waiting, issued, f, queues[f], book.queues[f]) {
        assert old(Shows(waiting, issued, f, queues[f], book.queues[f]));
      }
    }

    /** `_release`: the returned waiter, if any, has been handed the slot. */
    method Release(e: Engine) returns (next: Waiter?)
      requires Valid()
      modifies this, waiting
      ensures Valid() && waiting == old(waiting)
      ensures book == ReleaseBook(old(book), e)
      ensures next == null <==> Heir(old(book), e) == None
      ensures next != null ==> next in waiting && next.home == e && next.isSet
      ensures next != null ==> Heir(old(book), e) == Some(next.AsEntry())
      ensures forall x :: x in waiting && x != next ==> unchanged(x)
    {
      ghost var b := book;
      while e in queues && |queues[e]| > 0
        invariant Valid() && waiting == old(waiting)
        invariant forall x :: x in waiting ==> unchanged(x)
        invariant Heir(book, e) == Heir(b, e) && ReleaseBook(book, e) == ReleaseBook(b, e)
        decreases if e in queues then |queues[e]| else 0
      {
        assert Shows(waiting, issued, e, queues[e], book.queues[e]);
        ghost var before := book;
        next := Pop(e);
        if next.cancelled {
          PopTombstone(before, e);
          continue;
        }
        Wake(next);
        return;
      }
      assert e in queues ==> Shows(waiting, issued, e, queues[e], book.queues[e]);
      next := null;
      Free(e);
    }

    /** The tail of `_release` once the heap is drained: one slot less, and no empty bookkeeping. */
    method Free(e: Engine)
      requires Valid() && (e in queues ==> queues[e] == [])
      modifies this`inflight, this`queues, this`book
      ensures Valid() && book == ReleaseBook(old(book), e)
    {
      assert e in queues ==> Shows(waiting, issued, e, queues[e], book.queues[e]);
      var cur := if e in inflight then inflight[e] else 0;
      if cur > 0 { cur := cur - 1; }
      if cur <= 0 {
        inflight := inflight - {e};
        queues := queues - {e};
        book := book.(inflight := inflight, queues := book.queues - {e});
      } else {
        inflight := inflight[e := cur];
        book := book.(inflight := inflight);
      }
      assert forall f :: f in queues ==> old(Shows(waiting, issued, f, queues[f], book.queues[f]));
    }
  }
}
