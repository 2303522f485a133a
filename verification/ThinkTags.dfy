/** Finding `<think>` and `</think>` in a text that arrives in pieces.

    The reference definition reads the whole text once and reports tags by the position at which they
    end; the scanner of module Runaway looks at seven retained characters plus one new piece. */
module ThinkTags {

  const OPEN := "<think>"
  const CLOSE := "</think>"
  const TAIL_LEN := 7

  /** A tag found at `pos`, the position of its first character. */
  datatype Event = Event(pos: int, isOpen: bool)

  /** Whether a think block is open, and the delta count when it was opened. */
  datatype Think = Think(open: bool, blockStart: nat)

  function TagOf(isOpen: bool): string {
    if isOpen then OPEN else CLOSE
  }

  function TagLen(isOpen: bool): (n: nat)
    ensures n == |TagOf(isOpen)|
  {
    if isOpen then 7 else 8
  }

  predicate Spells(text: string, tag: string, p: int)
    requires 0 <= p && p + |tag| <= |text|
  {
    forall i :: 0 <= i < |tag| ==> text[p + i] == tag[i]
  }

  predicate At(text: string, isOpen: bool, p: int) {
    0 <= p && p + TagLen(isOpen) <= |text| && Spells(text, TagOf(isOpen), p)
  }

  /** The tag that ends just before position `k`, if one does; `base` is where the text itself starts. */
  function Ending(text: string, k: int, base: int): seq<Event> {
    if At(text, true, k - 7) then [Event(base + k - 7, true)]
    else if At(text, false, k - 8) then [Event(base + k - 8, false)]
    else []
  }

  /** All tags that end after `lo` and not after `hi`, in text order. */
  function Events(text: string, lo: nat, hi: nat, base: int): seq<Event>
    decreases hi
  {
    if hi <= lo then [] else Events(text, lo, hi - 1, base) + Ending(text, hi, base)
  }

  /** Every tag of a text: one scan from start to end. */
  function AllEvents(text: string): seq<Event> {
    Events(text, 0, |text|, 0)
  }

  /** Acting on tags in order: opening an open block or closing a closed one changes nothing. */
  function Apply(events: seq<Event>, think: Think, total: nat): Think {
    if |events| == 0 then think else
      var t := Apply(events[..|events| - 1], think, total);
      if events[|events| - 1].isOpen then (if t.open then t else Think(true, total)) else t.(open := false)
  }

  /** The answer of one scan over the whole text: is a think block open at its end? */
  function OpenAfter(text: string): bool {
    Apply(AllEvents(text), Think(false, 0), 0).open
  }

  ghost predicate Ascending(events: seq<Event>) {
    forall i, j :: 0 <= i < j < |events| ==> events[i].pos < events[j].pos
  }

  /** A tag occurrence that ends in the given range. */
  ghost predicate IsTag(text: string, lo: int, hi: int, e: Event) {
    At(text, e.isOpen, e.pos) && lo < e.pos + TagLen(e.isOpen) <= hi
  }

  /** What a tag is, as text. */
  lemma AtIsTheTag(text: string, p: nat)
    ensures At(text, true, p) <==> p + 7 <= |text| && text[p..p + 7] == "<think>"
    ensures At(text, false, p) <==> p + 8 <= |text| && text[p..p + 8] == "</think>"
  {
    if p + 7 <= |text| {
      assert text[p..p + 7] == "<think>" <==> forall i :: 0 <= i < 7 ==> text[p..p + 7][i] == OPEN[i];
    }
    if p + 8 <= |text| {
      assert text[p..p + 8] == "</think>" <==> forall i :: 0 <= i < 8 ==> text[p..p + 8][i] == CLOSE[i];
    }
  }

  /** The two tags never share an end, nor a start. */
  lemma Exclusive(text: string, p: int, q: int)
    requires At(text, true, p) && At(text, false, q)
    ensures p + 7 != q + 8 && p != q
  {
    assert text[p + 0] == OPEN[0] == '<' && text[p + 1] == OPEN[1] == 't';
    assert text[q + 0] == CLOSE[0] && text[q + 1] == CLOSE[1] == '/';
  }

  lemma EndingFacts(text: string, k: nat, e: Event)
    ensures e in Ending(text, k, 0) <==> At(text, e.isOpen, e.pos) && e.pos + TagLen(e.isOpen) == k
    ensures |Ending(text, k, 0)| <= 1
  {
    if At(text, true, k - 7) && At(text, false, k - 8) { Exclusive(text, k - 7, k - 8); }
  }

  /** `Events` lists exactly the tags of the range, by strictly increasing position. */
  lemma {:induction false} EventsFacts(text: string, lo: nat, hi: nat)
    ensures Ascending(Events(text, lo, hi, 0))
    ensures forall e :: e in Events(text, lo, hi, 0) <==> IsTag(text, lo, hi, e)
    decreases hi
  {
    if hi > lo {
      EventsFacts(text, lo, hi - 1);
      EventsMore(text, lo, hi, Events(text, lo, hi - 1, 0));
    }
  }

  lemma EventsMore(text: string, lo: nat, hi: nat, before: seq<Event>)
    requires hi > lo && Ascending(before) && forall e :: e in before <==> IsTag(text, lo, hi - 1, e)
    ensures var events := before + Ending(text, hi, 0);
      Ascending(events) && forall e :: e in events <==> IsTag(text, lo, hi, e)
  {
    hide Ending, At;
    var last := Ending(text, hi, 0);
    forall e ensures e in before + last <==> IsTag(text, lo, hi, e) { EndingFacts(text, hi, e); }
    if |last| > 0 {
      EndingFacts(text, hi, last[0]);
      forall i | 0 <= i < |before| ensures before[i].pos < last[0].pos {
        assert before[i] in before;
        if before[i].isOpen && !last[0].isOpen { Exclusive(text, before[i].pos, last[0].pos); }
      }
    }
  }

  ghost predicate SliceAt(text: string, piece: string, off: nat) {
    off + |piece| <= |text| && forall i :: 0 <= i < |piece| ==> text[off + i] == piece[i]
  }

  lemma AtSlice(text: string, piece: string, off: nat, isOpen: bool, p: int)
    requires SliceAt(text, piece, off) && p + TagLen(isOpen) <= |piece| && (off == 0 || p >= 0)
    ensures At(text, isOpen, off + p) <==> At(piece, isOpen, p)
  {
    if p >= 0 {
      var tag := TagOf(isOpen);
      forall i {:trigger tag[i]} | 0 <= i < |tag| ensures text[off + p + i] == piece[p + i] {
        assert piece[p + i] == text[off + (p + i)];
      }
    }
  }

  /** A tag ending at `k` is visible in any slice that reaches back far enough. */
  lemma EndingSlice(text: string, piece: string, off: nat, k: int, base: int)
    requires SliceAt(text, piece, off) && 0 <= k <= |piece| && (off == 0 || k > TAIL_LEN)
    ensures Ending(text, off + k, base) == Ending(piece, k, base + off)
  {
    AtSlice(text, piece, off, true, k - 7);
    AtSlice(text, piece, off, false, k - 8);
  }

  /** The tags of a slice are the tags of the text it was cut from. */
  lemma {:induction false} EventsSlice(text: string, piece: string, off: nat, b: nat, k: nat, base: int)
    requires SliceAt(text, piece, off) && b + k <= |piece| && (off == 0 || b >= TAIL_LEN)
    ensures Events(text, off + b, off + b + k, base) == Events(piece, b, b + k, base + off)
    decreases k
  {
    hide Ending;
    if k > 0 {
      EventsSlice(text, piece, off, b, k - 1, base);
      EndingSlice(text, piece, off, b + k, base);
      assert off + b + (k - 1) == off + b + k - 1;
    }
  }

  lemma {:induction false} EventsSplit(text: string, a: nat, b: nat, c: nat, base: int)
    requires a <= b <= c
    ensures Events(text, a, c, base) == Events(text, a, b, base) + Events(text, b, c, base)
    decreases c
  {
    hide Ending;
    if c > b {
      EventsSplit(text, a, b, c - 1, base);
    }
  }

  /** What the scanner keeps of the text so far. */
  function Tail(text: string): string {
    if |text| <= TAIL_LEN then text else text[|text| - TAIL_LEN..]
  }

  lemma TailSlices(text: string, delta: string)
    ensures var t := Tail(text);
      && |t| <= |text| && (|t| < |text| ==> |t| == TAIL_LEN)
      && SliceAt(text + delta, text, 0) && SliceAt(text + delta, t + delta, |text| - |t|)
  {
  }

  /** The tags a scan of tail and delta acts on are exactly the new tags of the whole text, once each. */
  lemma TailScanFindsNewTags(text: string, delta: string)
    ensures var t := Tail(text);
      AllEvents(text + delta) == AllEvents(text) + Events(t + delta, |t|, |t + delta|, |text| - |t|)
  {
    hide Events, SliceAt, Tail;
    var t := Tail(text);
    TailSlices(text, delta);
    EventsSlice(text + delta, text, 0, 0, |text|, 0);
    EventsSlice(text + delta, t + delta, |text| - |t|, |t|, |delta|, 0);
    EventsSplit(text + delta, 0, |text|, |text + delta|, 0);
  }

  /** The tail of the longer text can be cut from tail and delta. */
  lemma TailOfTail(text: string, delta: string)
    ensures Tail(Tail(text) + delta) == Tail(text + delta)
  {
  }

  lemma {:induction false} ApplySplit(a: seq<Event>, b: seq<Event>, think: Think, total: nat)
    ensures Apply(a + b, think, total) == Apply(b, Apply(a, think, total), total)
  {
    if |b| == 0 { assert a + b == a; } else {
      assert (a + b)[..|a + b| - 1] == a + b[..|b| - 1];
      ApplySplit(a, b[..|b| - 1], think, total);
    }
  }

  /** Whether a block ends up open depends neither on positions nor on delta counts. */
  lemma {:induction false} ApplyOpen(text: string, lo: nat, hi: nat, base: int, t: Think, u: Think, m: nat, n: nat)
    requires t.open == u.open
    ensures Apply(Events(text, lo, hi, base), t, m).open == Apply(Events(text, lo, hi, 0), u, n).open
    decreases hi
  {
    if hi > lo {
      ApplyOpen(text, lo, hi - 1, base, t, u, m, n);
      var a, b := Events(text, lo, hi - 1, base), Events(text, lo, hi - 1, 0);
      ApplySplit(a, Ending(text, hi, base), t, m);
      ApplySplit(b, Ending(text, hi, 0), u, n);
      ApplyOne(Ending(text, hi, base), Apply(a, t, m), m);
      ApplyOne(Ending(text, hi, 0), Apply(b, u, n), n);
    }
  }

  lemma ApplyOne(events: seq<Event>, t: Think, m: nat)
    requires |events| <= 1
    ensures Apply(events, t, m).open == if events == [] then t.open else events[0].isOpen
  {
    if |events| == 1 { assert events[..0] == []; }
  }

  /** Scanning piece by piece gives the answer of one scan over the whole text. */
  lemma OpenAfterPiece(text: string, delta: string, think: Think, total: nat)
    requires think.open == OpenAfter(text)
    ensures var t := Tail(text);
      Apply(Events(t + delta, |t|, |t + delta|, 0), think, total).open == OpenAfter(text + delta)
  {
    hide Events, Apply, Tail;
    var t := Tail(text);
    var news := Events(t + delta, |t|, |t + delta|, |text| - |t|);
    TailScanFindsNewTags(text, delta);
    ApplySplit(AllEvents(text), news, Think(false, 0), 0);
    ApplyOpen(t + delta, |t|, |t + delta|, |text| - |t|, Apply(AllEvents(text), Think(false, 0), 0), think, 0, total);
  }

  // ----- sorting what two tag searches found ------------------------------------------------

  function InsertEvent(sorted: seq<Event>, e: Event): seq<Event> {
    if |sorted| == 0 || e.pos < sorted[0].pos then [e] + sorted else [sorted[0]] + InsertEvent(sorted[1..], e)
  }

  /** `list.sort()` on (position, flag) pairs with distinct positions. */
  function SortEvents(events: seq<Event>): seq<Event> {
    if |events| == 0 then [] else InsertEvent(SortEvents(events[1..]), events[0])
  }

  ghost predicate DistinctPositions(events: seq<Event>) {
    forall i, j :: 0 <= i < j < |events| ==> events[i].pos != events[j].pos
  }

  lemma {:induction false} InsertEventFacts(sorted: seq<Event>, e: Event)
    requires Ascending(sorted) && forall x :: x in sorted ==> x.pos != e.pos
    ensures Ascending(InsertEvent(sorted, e))
    ensures forall x :: x in InsertEvent(sorted, e) <==> x in sorted || x == e
  {
    if |sorted| == 0 || e.pos < sorted[0].pos {
    } else {
      InsertEventFacts(sorted[1..], e);
      assert sorted == [sorted[0]] + sorted[1..];
      var rest := InsertEvent(sorted[1..], e);
      forall i | 0 <= i < |rest| ensures sorted[0].pos < rest[i].pos {
        assert rest[i] in rest;
        if rest[i] != e {
          var k :| 0 <= k < |sorted[1..]| && sorted[1..][k] == rest[i];
          assert sorted[0].pos < sorted[k + 1].pos;
        } else { assert sorted[0] in sorted; }
      }
    }
  }

  lemma {:induction false} SortEventsFacts(events: seq<Event>)
    requires DistinctPositions(events)
    ensures Ascending(SortEvents(events))
    ensures forall x :: x in SortEvents(events) <==> x in events
  {
    if |events| > 0 {
      SortEventsFacts(events[1..]);
      assert events == [events[0]] + events[1..];
      forall x | x in SortEvents(events[1..]) ensures x.pos != events[0].pos {
        var k :| 0 <= k < |events[1..]| && events[1..][k] == x;
        assert events[k + 1] == x;
      }
      InsertEventFacts(SortEvents(events[1..]), events[0]);
    }
  }

  lemma TailMembers(a: seq<Event>, x: Event)
    requires |a| > 0 && Ascending(a)
    ensures x in a[1..] <==> x in a && x != a[0]
  {
    assert a == [a[0]] + a[1..];
    if x in a[1..] {
      var k :| 0 <= k < |a[1..]| && a[1..][k] == x;
      assert a[0].pos < a[k + 1].pos;
    }
  }

  /** Strictly ascending sequences with the same elements are equal. */
  lemma {:induction false} AscendingUnique(a: seq<Event>, b: seq<Event>)
    requires Ascending(a) && Ascending(b) && forall x :: x in a <==> x in b
    ensures a == b
  {
    assert b == [] || b[0] in a;
    if |a| > 0 {
      assert a[0] in a && a[0] in b;
      assert b[0] in b && b[0] in a;
      assert a[0] == b[0];
      forall x ensures x in a[1..] <==> x in b[1..] {
        TailMembers(a, x);
        TailMembers(b, x);
      }
      AscendingUnique(a[1..], b[1..]);
    }
  }

  /** Collecting both kinds of tag and sorting by position is the one scan. */
  lemma SortedTagsAreEvents(text: string, lo: nat, found: seq<Event>)
    requires DistinctPositions(found)
    requires forall e :: e in found <==> IsTag(text, lo, |text|, e)
    ensures SortEvents(found) == Events(text, lo, |text|, 0)
  {
    SortEventsFacts(found);
    EventsFacts(text, lo, |text|);
    AscendingUnique(SortEvents(found), Events(text, lo, |text|, 0));
  }

  // ----- the tag that opened the block --------------------------------------------------------

  /** Event `j` opened the block that is open after all of them: nothing closes from there on, and it is the
      first of all or comes right after a closing tag. */
  predicate OpenedBy(events: seq<Event>, j: int) {
    && 0 <= j < |events| && (forall i :: j <= i < |events| ==> events[i].isOpen)
    && (j > 0 ==> !events[j - 1].isOpen)
  }

  /** That event, or -1 when the block is closed. */
  function Opener(events: seq<Event>): (j: int)
    ensures -1 <= j < |events|
  {
    if events == [] then -1
    else
      var n := |events| - 1;
      if !events[n].isOpen then -1
      else if Opener(events[..n]) >= 0 then Opener(events[..n])
      else n
  }

  lemma {:induction false} OpenerExact(events: seq<Event>, j: int)
    ensures OpenedBy(events, j) <==> j == Opener(events) && j >= 0
    decreases |events|
  {
    if events != [] {
      var n := |events| - 1;
      var init := events[..n];
      OpenerExact(init, j);
      OpenerExact(init, n - 1);
      OpenerExact(init, Opener(init));
    }
  }

  /** Acting on more tags, all seen in piece `total`: the block is open as the whole list says, and started
      in this piece exactly if the tag that opened it is one of the new ones. */
  lemma {:induction false} ApplyStart(before: seq<Event>, news: seq<Event>, seen: seq<Event>, think: Think, total: nat)
    requires think.open <==> Opener(before) >= 0
    requires |seen| == |news| && forall i :: 0 <= i < |news| ==> seen[i].isOpen == news[i].isOpen
    ensures var t, j := Apply(seen, think, total), Opener(before + news);
      && (t.open <==> j >= 0)
      && (j >= 0 ==> t.blockStart == if j < |before| then think.blockStart else total)
      && (0 <= j < |before| ==> j == Opener(before))
    decreases |news|
  {
    if news == [] {
      assert before + news == before && seen == [];
    } else {
      var n := |news| - 1;
      ApplyStart(before, news[..n], seen[..n], think, total);
      var all := before + news;
      assert all[..|before| + n] == before + news[..n] && all[|before| + n] == news[n] && |all| - 1 == |before| + n;
      assert seen[n].isOpen == news[n].isOpen;
    }
  }
}
