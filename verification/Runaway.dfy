/** The per-request runaway detector: think-block budget, repetition loop, absolute backstop.

    `text` is everything that has been scanned for tags, `fed` everything that has passed through the
    repetition window; they differ only after a think-budget trip, which skips the window. */
module Runaway {
  import opened ThinkTags
  import opened Repetition

  datatype Verdict = Ok | TripThink | TripRepeat | TripHard

  /** The counters hold the multiplicity of every live hash and nothing else. */
  ghost predicate CountsOf(counts: map<int, nat>, hashes: seq<int>) {
    forall h :: (h in counts <==> Count(hashes, h) > 0) && (h in counts ==> counts[h] == Count(hashes, h))
  }

  lemma CountDropFirst(x: int, rest: seq<int>, h: int)
    ensures Count([x] + rest, h) == Count(rest, h) + if x == h then 1 else 0
  {
  }

  class RunawayDetector {
    const thinkBudget: int
    const repeatMax: int
    const hardMax: int
    const shingleSize: nat
    const windowChars: nat
    const power: int

    var total: nat
    var thinkOpen: bool
    var thinkTokens: nat
    var blockStart: nat
    var tail: string

    var win: string
    var shingles: seq<int>
    var counts: map<int, nat>
    var codes: string
    var h: int
    var verdict: Verdict

    ghost var text: string
    ghost var fed: string

    /** Every piece of the repetition state as a function of the characters fed so far. */
    ghost predicate WindowValid()
      reads this`win, this`shingles, this`counts, this`codes, this`h, this`fed
    {
      && power == Power(shingleSize) % HASH_MOD
      && codes == Last(fed, shingleSize)
      && h == Hash(codes)
      && win == Last(fed, windowChars)
      && shingles == Hashes(fed, shingleSize, FirstLive(shingleSize, windowChars, |fed|), |fed| + 1)
      && CountsOf(counts, shingles)
    }

    ghost predicate Valid()
      reads this
    {
      && thinkOpen == OpenAfter(text)
      && tail == Tail(text)
      && WindowValid()
      && (verdict != TripThink ==> fed == text)
    }

    constructor (thinkBudget: int, repeatMax: int, hardMax: int, shingleSize: nat, windowChars: nat)
      ensures Valid() && text == "" && verdict == Ok && total == 0 && !thinkOpen && thinkTokens == 0
      ensures this.thinkBudget == thinkBudget && this.repeatMax == repeatMax && this.hardMax == hardMax
      ensures this.shingleSize == shingleSize && this.windowChars == windowChars
    {
      this.thinkBudget, this.repeatMax, this.hardMax := thinkBudget, repeatMax, hardMax;
      this.shingleSize, this.windowChars := shingleSize, windowChars;
      power := Power(shingleSize) % HASH_MOD;
      total, thinkOpen, thinkTokens, blockStart, tail := 0, false, 0, 0, "";
      win, shingles, counts, codes, h := "", [], map[], "", 0;
      verdict := Ok;
      text, fed := "", "";
    }

    /** The first occurrence of a tag at or after `start`, or -1: `str.find`. */
    method Find(s: string, isOpen: bool, start: nat) returns (p: int)
      ensures p == -1 ==> forall q :: q >= start ==> !At(s, isOpen, q)
      ensures p != -1 ==> p >= start && At(s, isOpen, p) && forall q :: start <= q < p ==> !At(s, isOpen, q)
    {
      p := start;
      while p + TagLen(isOpen) <= |s|
        invariant start <= p
        invariant forall q :: start <= q < p ==> !At(s, isOpen, q)
      {
        if At(s, isOpen, p) { return; }
        p := p + 1;
      }
      p := -1;
    }

    /** All occurrences of one tag that end past `tailLen`, left to right. */
    method FindTags(combined: string, isOpen: bool, tailLen: nat) returns (found: seq<Event>)
      ensures Ascending(found)
      ensures forall e :: e in found <==> e.isOpen == isOpen && IsTag(combined, tailLen, |combined|, e)
    {
      hide Spells;
      found := [];
      var start := 0;
      while true
        invariant 0 <= start <= |combined| + 1
        invariant Ascending(found) && forall e :: e in found ==> e.pos < start
        invariant forall e :: e in found <==> e.isOpen == isOpen && e.pos < start && IsTag(combined, tailLen, |combined|, e)
        decreases |combined| + 1 - start
      {
        var p := Find(combined, isOpen, start);
        if p == -1 { break; }
        AtInside(combined, isOpen, p);
        if p + TagLen(isOpen) > tailLen { found := found + [Event(p, isOpen)]; }
        start := p + 1;
      }
    }

    /** Acts on the new tags in text order. */
    method ScanTags(combined: string, tailLen: nat)
      modifies this`thinkOpen, this`blockStart
      ensures Think(thinkOpen, blockStart)
        == Apply(Events(combined, tailLen, |combined|, 0), old(Think(thinkOpen, blockStart)), total)
    {
      var opens := FindTags(combined, true, tailLen);
      var closes := FindTags(combined, false, tailLen);
      BothTags(combined, tailLen, opens, closes);
      var events := SortEvents(opens + closes);
      ghost var before := Think(thinkOpen, blockStart);
      for i := 0 to |events|
        invariant Think(thinkOpen, blockStart) == Apply(events[..i], before, total)
      {
        assert events[..i + 1][..i] == events[..i];
        if events[i].isOpen {
          if !thinkOpen {
            thinkOpen := true;
            blockStart := total;
          }
        } else {
          thinkOpen := false;
        }
      }
      assert events[..|events|] == events;
    }

    /** Slides every character of a piece through the window; fires iff some shingle in it repeats. */
    method FeedRepetition(delta: string) returns (tripped: bool)
      requires WindowValid()
      modifies this`win, this`shingles, this`counts, this`codes, this`h, this`fed
      ensures WindowValid() && fed == old(fed) + delta
      ensures tripped <==> RepeatsIn(fed, shingleSize, windowChars, repeatMax, |old(fed)|, |fed|)
    {
      hide WindowValid, RepeatsAt;
      ghost var start := |fed|;
      tripped := false;
      for k := 0 to |delta|
        invariant WindowValid() && fed == old(fed) + delta[..k]
        invariant tripped <==> RepeatsIn(fed, shingleSize, windowChars, repeatMax, start, |fed|)
      {
        ghost var before := fed;
        var fires := Slide(delta[k]);
        RepeatsInPrefix(before, [delta[k]], shingleSize, windowChars, repeatMax, start, |before|);
        tripped := tripped || fires;
        assert delta[..k + 1] == delta[..k] + [delta[k]];
      }
      assert delta[..|delta|] == delta;
    }

    /** What one piece of text does to a detector that has not tripped. */
    method Feed(delta: string) returns (v: Verdict)
      requires Valid()
      modifies this
      ensures Valid() && v == verdict
      ensures old(verdict) != Ok || delta == "" ==>
        v == old(verdict) && text == old(text) && total == old(total) && thinkTokens == old(thinkTokens)
        && thinkOpen == old(thinkOpen) && blockStart == old(blockStart)
      ensures old(verdict) == Ok && delta != "" ==>
        && text == old(text) + delta && total == old(total) + 1
        && Think(thinkOpen, blockStart) == After(old(text), delta, old(Think(thinkOpen, blockStart)), total)
        && thinkTokens == old(thinkTokens) + (if old(thinkOpen) && thinkOpen then 1 else 0)
        && v == (if thinkOpen && total - blockStart > thinkBudget then TripThink
                 else if RepeatsIn(text, shingleSize, windowChars, repeatMax, |old(text)|, |text|) then TripRepeat
                 else if total > hardMax then TripHard
                 else Ok)
    {
      hide RepeatsIn, WindowValid, Events, Apply, OpenAfter, Tail;
      if verdict != Ok { return verdict; }
      if delta == "" { return Ok; }
      total := total + 1;
      var wasOpen := thinkOpen;
      var combined := tail + delta;
      AfterPiece(text, delta, Think(thinkOpen, blockStart), total);
      ScanTags(combined, |tail|);
      TailOfTail(text, delta);
      tail := Tail(combined);
      text := text + delta;
      if wasOpen && thinkOpen { thinkTokens := thinkTokens + 1; }
      if thinkOpen && total - blockStart > thinkBudget {
        verdict := TripThink;
        return verdict;
      }
      var repeats := FeedRepetition(delta);
      if repeats {
        verdict := TripRepeat;
        return verdict;
      }
      if total > hardMax {
        verdict := TripHard;
        return verdict;
      }
      return Ok;
    }

    /** One character through the rolling window. */
    method Slide(c: char) returns (fires: bool)
      requires WindowValid()
      modifies this`win, this`shingles, this`counts, this`codes, this`h, this`fed
      ensures WindowValid() && fed == old(fed) + [c]
      ensures fires <==> RepeatsAt(fed, shingleSize, windowChars, repeatMax, |fed|)
    {
      hide Hashes, ShingleHash, CountsOf, Hash, RepeatsAt;
      ghost var before := fed;
      Roll(c);
      SlideEnds(before, c, shingleSize, FirstLive(shingleSize, windowChars, |before|));
      fires := false;
      if |codes| == shingleSize { fires := Complete(); } else { TooEarly(fed, shingleSize, windowChars, repeatMax); }
      Retire();
    }

    /** Extends the rolling hash by one character, dropping the oldest once the shingle is full. */
    method Roll(c: char)
      requires WindowValid()
      modifies this`win, this`codes, this`h, this`fed
      ensures fed == old(fed) + [c] && win == Last(old(fed), windowChars) + [c]
      ensures codes == Last(fed, shingleSize) && h == Hash(codes)
    {
      hide Hash, Grown, Shrunk, Power;
      win := win + [c];
      HashGrow(h, codes, c);
      h := Grown(h, c);
      codes := codes + [c];
      if |codes| > shingleSize {
        HashShrink(h, codes, power);
        h := Shrunk(h, codes[0], power);
        codes := codes[1..];
      }
      fed := fed + [c];
    }

    /** A shingle has just been completed: record its hash. */
    method Complete() returns (fires: bool)
      requires |fed| >= FirstEnd(shingleSize) && codes == Last(fed, shingleSize) && h == Hash(codes)
      requires shingles == Hashes(fed, shingleSize, FirstLive(shingleSize, windowChars, |fed| - 1), |fed|)
      requires CountsOf(counts, shingles)
      modifies this`shingles, this`counts
      ensures shingles == Hashes(fed, shingleSize, FirstLive(shingleSize, windowChars, |fed| - 1), |fed| + 1)
      ensures CountsOf(counts, shingles)
      ensures fires <==> RepeatsAt(fed, shingleSize, windowChars, repeatMax, |fed|)
    {
      hide Hash, Hashes, Count, Power;
      CompletedShingle(fed, shingleSize, FirstLive(shingleSize, windowChars, |fed| - 1));
      forall x ensures Count(shingles + [h], x) == Count(shingles, x) + if x == h then 1 else 0 { CountAppend(shingles, h, x); }
      shingles := shingles + [h];
      counts := counts[h := (if h in counts then counts[h] else 0) + 1];
      fires := counts[h] > repeatMax;
    }

    /** A character lost by the window retires the leftmost live shingle, if there is one. */
    method Retire()
      requires |fed| >= 1 && win == Last(fed[..|fed| - 1], windowChars) + [fed[|fed| - 1]]
      requires shingles == Hashes(fed, shingleSize, FirstLive(shingleSize, windowChars, |fed| - 1), |fed| + 1)
      requires CountsOf(counts, shingles)
      modifies this`win, this`shingles, this`counts
      ensures win == Last(fed, windowChars)
      ensures shingles == Hashes(fed, shingleSize, FirstLive(shingleSize, windowChars, |fed|), |fed| + 1)
      ensures CountsOf(counts, shingles)
    {
      hide Hashes, ShingleHash, CountsOf, FirstLive, Last;
      LastGrow(fed[..|fed| - 1], fed[|fed| - 1], windowChars);
      assert fed[..|fed| - 1] + [fed[|fed| - 1]] == fed;
      FirstLiveStep(shingleSize, windowChars, |fed|);
      if |win| > windowChars {
        win := win[1..];
        if |shingles| > 0 {
          HashesDropFirst(fed, shingleSize, FirstLive(shingleSize, windowChars, |fed| - 1), |fed| + 1);
          DropFirst();
        }
      }
    }

    method DropFirst()
      requires |shingles| > 0 && CountsOf(counts, shingles)
      modifies this`shingles, this`counts
      ensures shingles == old(shingles)[1..] && CountsOf(counts, shingles)
    {
      hide Count;
      var gone, rest := shingles[0], shingles[1..];
      assert shingles == [gone] + rest;
      forall x ensures Count(shingles, x) == Count(rest, x) + if x == gone then 1 else 0 { CountDropFirst(gone, rest, x); }
      var n := (if gone in counts then counts[gone] else 0) - 1;
      if n <= 0 { counts := counts - {gone}; } else { counts := counts[gone := n]; }
      shingles := rest;
    }
  }

  lemma LastGrow(text: string, c: char, n: nat)
    ensures var w := Last(text, n) + [c];
      && (|w| > n <==> |text| + 1 > n)
      && Last(text + [c], n) == if |w| > n then w[1..] else w
  {
  }

  lemma CompletedShingle(text: string, size: nat, lo: nat)
    requires FirstEnd(size) <= lo <= |text|
    ensures Hash(Last(text, size)) == ShingleHash(text, size, |text|)
    ensures Hashes(text, size, lo, |text| + 1) == Hashes(text, size, lo, |text|) + [ShingleHash(text, size, |text|)]
  {
    assert Last(text, size) == text[|text| - size..|text|];
  }

  /** Retirement is in lockstep with the window from the moment there is a shingle to retire. */
  lemma FirstLiveStep(size: nat, window: nat, n: nat)
    requires n >= 1
    ensures var was, now := FirstLive(size, window, n - 1), FirstLive(size, window, n);
      && was >= FirstEnd(size)
      && (if n <= window then now == was else if was <= n then now == was + 1 else now == was > n)
  {
  }

  lemma TooEarly(text: string, size: nat, window: nat, repeatMax: int)
    requires |text| < FirstEnd(size)
    ensures !RepeatsAt(text, size, window, repeatMax, |text|)
  {
  }

  /** One more character: earlier shingles keep their hashes, and one ends here unless it is too early. */
  lemma SlideEnds(text: string, c: char, size: nat, lo: nat)
    requires lo >= FirstEnd(size)
    ensures Hashes(text + [c], size, lo, |text| + 1) == Hashes(text, size, lo, |text| + 1)
    ensures |text| + 1 < FirstEnd(size) ==> Hashes(text + [c], size, lo, |text| + 2) == Hashes(text, size, lo, |text| + 1) == []
    ensures |Last(text + [c], size)| == size <==> |text| + 1 >= FirstEnd(size)
  {
    HashesPrefix(text, [c], size, lo, |text| + 1);
  }

  /** The think state after a new piece, acting on its tags in text order. */
  function After(text: string, delta: string, think: Think, total: nat): Think {
    var t := Tail(text);
    Apply(Events(t + delta, |t|, |t + delta|, 0), think, total)
  }

  // ----- whole streams -----------------------------------------------------------------------

  function Concat(deltas: seq<string>): string {
    if |deltas| == 0 then "" else Concat(deltas[..|deltas| - 1]) + deltas[|deltas| - 1]
  }

  /** The think state after pieces fed in turn to a detector that never trips. */
  function AfterAll(deltas: seq<string>): Think {
    if |deltas| == 0 then Think(false, 0) else
      var n := |deltas| - 1;
      After(Concat(deltas[..n]), deltas[n], AfterAll(deltas[..n]), n + 1)
  }

  /** Tags acted on, feed by feed, at their places in the whole text. */
  function ActedOn(deltas: seq<string>): seq<Event> {
    if |deltas| == 0 then [] else
      var n := |deltas| - 1;
      var text := Concat(deltas[..n]);
      var t := Tail(text);
      ActedOn(deltas[..n]) + Events(t + deltas[n], |t|, |t + deltas[n]|, |text| - |t|)
  }

  /** However a text is cut into pieces, its tags are acted on exactly once each and in text order, and
      whether a think block is open afterwards is the answer of one scan over the whole text. */
  lemma {:induction false} ChunkingIsIrrelevant(deltas: seq<string>)
    ensures ActedOn(deltas) == AllEvents(Concat(deltas))
    ensures AfterAll(deltas).open == OpenAfter(Concat(deltas))
  {
    hide AllEvents, OpenAfter, After, Events, Tail;
    if |deltas| == 0 {
      NoText();
    } else {
      var n := |deltas| - 1;
      ChunkingIsIrrelevant(deltas[..n]);
      TailScanFindsNewTags(Concat(deltas[..n]), deltas[n]);
      AfterPiece(Concat(deltas[..n]), deltas[n], AfterAll(deltas[..n]), n + 1);
    }
  }

  // ----- where the open block began -----------------------------------------------------------

  /** The number of the piece in which position `end` of the whole text falls, counted from one. */
  function PieceOf(deltas: seq<string>, end: int): nat {
    if |deltas| == 0 then 0 else
      var n := |deltas| - 1;
      if end > |Concat(deltas[..n])| then n + 1 else PieceOf(deltas[..n], end)
  }

  /** Relative to the retained tail or to the whole text, the new tags are of the same kinds. */
  lemma {:induction false} SameKinds(text: string, lo: nat, hi: nat, a: int, b: int)
    ensures var x, y := Events(text, lo, hi, a), Events(text, lo, hi, b);
      |x| == |y| && forall i :: 0 <= i < |x| ==> x[i].isOpen == y[i].isOpen
    decreases hi
  {
    hide Ending;
    if hi > lo {
      SameKinds(text, lo, hi - 1, a, b);
      SameKindsEnding(text, hi, a, b);
    }
  }

  lemma SameKindsEnding(text: string, k: int, a: int, b: int)
    ensures var x, y := Ending(text, k, a), Ending(text, k, b);
      |x| == |y| && forall i :: 0 <= i < |x| ==> x[i].isOpen == y[i].isOpen
  {
    hide At;
  }

  /** While a block is open, its start is the number of the piece in which the tag that opened it ends: the
      first opening tag of the whole text after its last closing one. */
  lemma {:induction false} BlockStartExact(deltas: seq<string>)
    ensures var t, events := AfterAll(deltas), AllEvents(Concat(deltas));
      var j := Opener(events);
      && (t.open <==> j >= 0)
      && (j >= 0 ==> t.blockStart == PieceOf(deltas, events[j].pos + 7))
  {
    hide AllEvents, Opener, After, Events, Tail, Apply;
    if |deltas| == 0 {
      NoText();
      assert Opener([]) == -1 by { NothingOpens(); }
    } else {
      var n := |deltas| - 1;
      BlockStartExact(deltas[..n]);
      BlockStartPiece(deltas[..n], deltas[n]);
      assert deltas[..n] + [deltas[n]] == deltas;
    }
  }

  lemma NothingOpens()
    ensures Opener([]) == -1
  {
  }

  lemma BlockStartPiece(deltas: seq<string>, delta: string)
    requires var t, j := AfterAll(deltas), Opener(AllEvents(Concat(deltas)));
      && (t.open <==> j >= 0)
      && (j >= 0 ==> t.blockStart == PieceOf(deltas, AllEvents(Concat(deltas))[j].pos + 7))
    ensures var all := deltas + [delta];
      var t, events := AfterAll(all), AllEvents(Concat(all));
      var j := Opener(events);
      && (t.open <==> j >= 0)
      && (j >= 0 ==> t.blockStart == PieceOf(all, events[j].pos + 7))
  {
    hide AllEvents, Opener, Concat, After, AfterAll, PieceOf;
    OnePieceMore(deltas, delta);
    AfterStart(Concat(deltas), delta, AfterAll(deltas), |deltas| + 1);
    var events := AllEvents(Concat(deltas) + delta);
    var j := Opener(events);
    if j >= 0 { PieceOfGrow(deltas, delta, events[j].pos + 7); }
  }

  lemma OnePieceMore(deltas: seq<string>, delta: string)
    ensures Concat(deltas + [delta]) == Concat(deltas) + delta
    ensures AfterAll(deltas + [delta]) == After(Concat(deltas), delta, AfterAll(deltas), |deltas| + 1)
  {
    hide After;
    var all := deltas + [delta];
    assert all[..|all| - 1] == deltas && all[|all| - 1] == delta;
  }

  lemma PieceOfGrow(deltas: seq<string>, delta: string, end: int)
    ensures PieceOf(deltas + [delta], end) == if end > |Concat(deltas)| then |deltas| + 1 else PieceOf(deltas, end)
  {
    hide Concat;
    var all := deltas + [delta];
    assert all[..|all| - 1] == deltas;
  }

  /** One more piece: the block goes on from where it began, or begins in this piece. */
  lemma AfterStart(text: string, delta: string, think: Think, total: nat)
    requires think.open <==> Opener(AllEvents(text)) >= 0
    ensures var t, was, events := After(text, delta, think, total), AllEvents(text), AllEvents(text + delta);
      var j := Opener(events);
      && (t.open <==> j >= 0)
      && (j >= 0 ==> if events[j].pos + 7 <= |text|
                     then j < |was| && was[j] == events[j] && j == Opener(was) && t.blockStart == think.blockStart
                     else t.blockStart == total)
  {
    hide Events, AllEvents, Opener, Apply, Tail, OpenedBy;
    var t := Tail(text);
    var seen := Events(t + delta, |t|, |t + delta|, 0);
    var news := Events(t + delta, |t|, |t + delta|, |text| - |t|);
    var was, events := AllEvents(text), AllEvents(text + delta);
    TailScanFindsNewTags(text, delta);
    SameKinds(t + delta, |t|, |t + delta|, 0, |text| - |t|);
    ApplyStart(was, news, seen, think, total);
    var j := Opener(events);
    if j >= 0 {
      assert events[j].isOpen by { OpenerIsOpen(events); }
      if j < |was| {
        assert events[j] == was[j];
        OldTagsEndEarly(text, j);
      } else {
        assert events[j] == news[j - |was|];
        NewTagsEndLate(text, delta, j - |was|);
      }
    }
  }

  lemma OpenerIsOpen(events: seq<Event>)
    requires Opener(events) >= 0
    ensures events[Opener(events)].isOpen
  {
    OpenerExact(events, Opener(events));
  }

  lemma OldTagsEndEarly(text: string, j: nat)
    requires j < |AllEvents(text)|
    ensures AllEvents(text)[j].pos + TagLen(AllEvents(text)[j].isOpen) <= |text|
  {
    hide Events, At;
    EventsFacts(text, 0, |text|);
    assert AllEvents(text)[j] in AllEvents(text);
    assert IsTag(text, 0, |text|, AllEvents(text)[j]);
  }

  /** The new tags end after the old text. */
  lemma NewTagsEndLate(text: string, delta: string, j: nat)
    requires var t := Tail(text); j < |Events(t + delta, |t|, |t + delta|, |text| - |t|)|
    ensures var t := Tail(text);
      var e := Events(t + delta, |t|, |t + delta|, |text| - |t|)[j];
      e.pos + TagLen(e.isOpen) > |text|
  {
    hide Events;
    var t := Tail(text);
    EventsLate(t + delta, |t|, |t + delta|, |text| - |t|);
    var news := Events(t + delta, |t|, |t + delta|, |text| - |t|);
    assert news[j] in news;
  }

  lemma {:induction false} EventsLate(text: string, lo: nat, hi: nat, base: int)
    ensures forall e :: e in Events(text, lo, hi, base) ==> e.pos + TagLen(e.isOpen) > base + lo
    decreases hi
  {
    hide At;
    if hi > lo {
      EventsLate(text, lo, hi - 1, base);
    }
  }

  /** The think budget is exceeded: a block is open, and more than `budget` pieces came after the one in
      which the tag that opened it ends. */
  predicate ThoughtTooLong(deltas: seq<string>, budget: int) {
    var events := AllEvents(Concat(deltas));
    exists j :: 0 <= j < |events| && OpenedBy(events, j) && |deltas| - PieceOf(deltas, events[j].pos + 7) > budget
  }

  lemma TooLongExactly(deltas: seq<string>, budget: int)
    ensures ThoughtTooLong(deltas, budget) <==> AfterAll(deltas).open && |deltas| - AfterAll(deltas).blockStart > budget
  {
    hide AllEvents, Opener, AfterAll, OpenedBy, PieceOf, Concat;
    BlockStartExact(deltas);
    var events := AllEvents(Concat(deltas));
    OpenerExact(events, Opener(events));
    forall j: int ensures OpenedBy(events, j) <==> j == Opener(events) && j >= 0 {
      OpenerExact(events, j);
    }
  }

  /** Feeding a text piece by piece until the detector trips. It trips for thinking at the first piece after
      which the block has been open too long, unless another trip came before. */
  method FeedAll(d: RunawayDetector, deltas: seq<string>) returns (k: nat)
    requires d.Valid() && d.verdict == Ok && d.text == "" && d.total == 0 && !d.thinkOpen && d.blockStart == 0
    requires forall i :: 0 <= i < |deltas| ==> deltas[i] != ""
    modifies d
    ensures d.Valid() && k <= |deltas| && d.text == Concat(deltas[..k]) && d.total == k
    ensures d.verdict == Ok ==> k == |deltas|
    ensures d.verdict == TripThink <==> k > 0 && ThoughtTooLong(deltas[..k], d.thinkBudget)
    ensures forall i :: 0 <= i < k ==> !ThoughtTooLong(deltas[..i], d.thinkBudget)
  {
    hide RepeatsIn, After, AfterAll, Concat, ThoughtTooLong, RunawayDetector.Valid;
    k := 0;
    NeverTooLongAtFirst(deltas, d.thinkBudget);
    while k < |deltas| && d.verdict == Ok
      invariant k <= |deltas| && d.Valid() && d.text == Concat(deltas[..k]) && d.total == k
      invariant Think(d.thinkOpen, d.blockStart) == AfterAll(deltas[..k])
      invariant d.verdict == TripThink <==> k > 0 && ThoughtTooLong(deltas[..k], d.thinkBudget)
      invariant forall i :: 0 <= i < k ==> !ThoughtTooLong(deltas[..i], d.thinkBudget)
    {
      NextPiece(deltas, k, d.thinkBudget);
      var v := d.Feed(deltas[k]);
      k := k + 1;
    }
  }

  lemma NextPiece(deltas: seq<string>, k: nat, budget: int)
    requires k < |deltas|
    ensures Concat(deltas[..k + 1]) == Concat(deltas[..k]) + deltas[k]
    ensures AfterAll(deltas[..k + 1]) == After(Concat(deltas[..k]), deltas[k], AfterAll(deltas[..k]), k + 1)
    ensures var t := AfterAll(deltas[..k + 1]);
      ThoughtTooLong(deltas[..k + 1], budget) <==> t.open && k + 1 - t.blockStart > budget
  {
    hide ThoughtTooLong, After, AfterAll, Concat;
    assert deltas[..k + 1] == deltas[..k] + [deltas[k]];
    OnePieceMore(deltas[..k], deltas[k]);
    TooLongExactly(deltas[..k + 1], budget);
  }

  lemma NeverTooLongAtFirst(deltas: seq<string>, budget: int)
    ensures deltas[..0] == [] && Concat(deltas[..0]) == "" && AfterAll(deltas[..0]) == Think(false, 0)
    ensures !ThoughtTooLong(deltas[..0], budget)
  {
    NoText();
  }

  lemma NoText()
    ensures AllEvents("") == [] && !OpenAfter("")
  {
  }

  lemma AfterPiece(text: string, delta: string, think: Think, total: nat)
    requires think.open == OpenAfter(text)
    ensures After(text, delta, think, total).open == OpenAfter(text + delta)
  {
    hide OpenAfter, Events, Apply;
    OpenAfterPiece(text, delta, think, total);
  }

  /** Some piece of a text carries the repetition signal. */
  predicate SomePieceRepeats(deltas: seq<string>, size: nat, window: nat, repeatMax: int) {
    |deltas| > 0 && (
      var n := |deltas| - 1;
      SomePieceRepeats(deltas[..n], size, window, repeatMax)
      || RepeatsIn(Concat(deltas), size, window, repeatMax, |Concat(deltas[..n])|, |Concat(deltas)|))
  }

  /** The repetition trip does not depend on where the text is cut either. */
  lemma {:induction false} RepetitionIsChunkIndependent(deltas: seq<string>, size: nat, window: nat, repeatMax: int)
    ensures SomePieceRepeats(deltas, size, window, repeatMax)
      <==> RepeatsIn(Concat(deltas), size, window, repeatMax, 0, |Concat(deltas)|)
  {
    hide RepeatsAt;
    if |deltas| > 0 {
      var n := |deltas| - 1;
      RepetitionIsChunkIndependent(deltas[..n], size, window, repeatMax);
      RepeatsInSplit(Concat(deltas[..n]), deltas[n], size, window, repeatMax);
    }
  }

  lemma AtInside(s: string, isOpen: bool, p: int)
    requires At(s, isOpen, p)
    ensures 0 <= p && p + TagLen(isOpen) <= |s|
  {
  }

  /** Two one-tag searches together find every new tag, at distinct positions. */
  lemma BothTags(combined: string, tailLen: nat, opens: seq<Event>, closes: seq<Event>)
    requires Ascending(opens) && Ascending(closes)
    requires forall e :: e in opens <==> e.isOpen && IsTag(combined, tailLen, |combined|, e)
    requires forall e :: e in closes <==> !e.isOpen && IsTag(combined, tailLen, |combined|, e)
    ensures SortEvents(opens + closes) == Events(combined, tailLen, |combined|, 0)
  {
    hide At;
    forall i, j | 0 <= i < |opens| && 0 <= j < |closes| ensures opens[i].pos != closes[j].pos {
      assert opens[i] in opens && closes[j] in closes;
      Exclusive(combined, opens[i].pos, closes[j].pos);
    }
    SortedTagsAreEvents(combined, tailLen, opens + closes);
  }
}
