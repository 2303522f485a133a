/** The god-mode hub: a replay ring bounded by events and by characters, and bounded subscriber
    queues that drop their oldest event rather than block a publish. */
module GodMode {

  datatype Event = Event(seqNo: nat, texts: seq<string>)

  /** The string fields of an event, counted in characters. */
  function Cost(e: Event): nat {
    Chars(e.texts)
  }

  function Chars(texts: seq<string>): nat {
    if |texts| == 0 then 0 else |texts[0]| + Chars(texts[1..])
  }

  function Total(events: seq<Event>): nat {
    if |events| == 0 then 0 else Cost(events[0]) + Total(events[1..])
  }

  /** The suffix from `k` meets both bounds; a single newest event is excused from the second. */
  ghost predicate Fits(history: seq<Event>, k: nat, events: nat, chars: int) {
    k <= |history| && |history| - k <= events && (|history| - k <= 1 || Total(history[k..]) <= chars)
  }

  /** `k` starts the longest suffix of the whole history that fits. */
  ghost predicate Longest(history: seq<Event>, k: nat, events: nat, chars: int) {
    Fits(history, k, events, chars) && forall j: nat :: j < k ==> !Fits(history, j, events, chars)
  }

  ghost predicate Suffix(s: seq<Event>, history: seq<Event>) {
    |s| <= |history| && s == history[|history| - |s|..]
  }

  /** Events are numbered from one without gaps. */
  ghost predicate Numbered(history: seq<Event>) {
    forall i :: 0 <= i < |history| ==> history[i].seqNo == i + 1
  }

  lemma {:induction false} TotalAppend(events: seq<Event>, e: Event)
    ensures Total(events + [e]) == Total(events) + Cost(e)
  {
    hide Cost;
    if |events| == 0 {
      assert events + [e] == [e] && [e][1..] == [];
    } else {
      assert (events + [e])[1..] == events[1..] + [e];
      TotalAppend(events[1..], e);
    }
  }

  /** What never fitted before a publish cannot fit after it. */
  lemma PublishKeepsMisfits(history: seq<Event>, e: Event, k: nat, events: nat, chars: int)
    requires k <= |history| && forall j: nat :: j < k ==> !Fits(history, j, events, chars)
    ensures forall j: nat :: j < k ==> !Fits(history + [e], j, events, chars)
  {
    hide Cost, Total;
    forall j: nat | j < k ensures !Fits(history + [e], j, events, chars) {
      assert !Fits(history, j, events, chars);
      assert (history + [e])[j..] == history[j..] + [e];
      TotalAppend(history[j..], e);
    }
  }

  /** A gap-free suffix of the history is a consecutive run of sequence numbers up to the newest. */
  lemma SuffixIsConsecutive(s: seq<Event>, history: seq<Event>)
    requires Suffix(s, history) && Numbered(history)
    ensures forall i :: 0 <= i < |s| ==> s[i].seqNo == |history| - |s| + i + 1
  {
  }

  /** A bounded queue after one more event: when full it loses its oldest. */
  function Offered(queue: seq<Event>, maxsize: int, e: Event): seq<Event> {
    (if 0 < maxsize <= |queue| then queue[1..] else queue) + [e]
  }

  class Subscriber {
    const maxsize: int
    var queue: seq<Event>
    var lagged: bool
    ghost var snapshot: seq<Event>
    ghost var consumed: seq<Event>

    constructor (maxsize: int, ghost snapshot: seq<Event>)
      ensures this.maxsize == maxsize && queue == [] && !lagged
      ensures this.snapshot == snapshot && consumed == []
    {
      this.maxsize := maxsize;
      queue, lagged := [], false;
      this.snapshot, consumed := snapshot, [];
    }

    /** Everything an unlagged client has been or will be shown. */
    ghost function Shown(): seq<Event>
      reads this
    {
      snapshot + consumed + queue
    }

    /** Non-blocking put; a full queue loses its oldest event and is marked. */
    method Offer(e: Event)
      modifies this`queue, this`lagged
      ensures lagged <==> old(lagged) || 0 < maxsize <= |old(queue)|
      ensures queue == Offered(old(queue), maxsize, e)
    {
      if maxsize <= 0 || |queue| < maxsize {
        queue := queue + [e];
      } else {
        queue := queue[1..];
        queue := queue + [e];
        lagged := true;
      }
    }

    /** The streaming endpoint takes the next queued event. */
    method Take() returns (e: Event)
      requires |queue| > 0
      modifies this`queue, this`consumed
      ensures e == old(queue)[0] && queue == old(queue)[1..] && consumed == old(consumed) + [e]
      ensures Shown() == old(Shown())
    {
      e := queue[0];
      queue := queue[1..];
      consumed := consumed + [e];
      assert [e] + queue == old(queue);
    }
  }

  class GodModeHub {
    const ringEvents: nat
    const ringChars: int
    const queueMaxsize: int
    var ring: seq<(Event, nat)>
    var ringCharsTotal: int
    var seqNo: nat
    var subscribers: set<Subscriber>
    ghost var history: seq<Event>

    ghost predicate Mirrors(ring: seq<(Event, nat)>, events: seq<Event>) {
      |ring| == |events| && forall i :: 0 <= i < |ring| ==> ring[i] == (events[i], Cost(events[i]))
    }

    /** The ring is a suffix of the history with its exact cost. */
    ghost predicate RingValid()
      reads this`ring, this`ringCharsTotal, this`history
    {
      && |ring| <= |history|
      && Mirrors(ring, history[|history| - |ring|..])
      && ringCharsTotal == Total(history[|history| - |ring|..])
    }

    /** A subscriber's queue ends at the newest event; while unlagged, so does all it was ever shown. */
    ghost predicate Follows(s: Subscriber)
      reads s, this`history
    {
      Suffix(s.queue, history) && (!s.lagged ==> Suffix(s.Shown(), history))
    }

    ghost predicate Valid()
      reads this, subscribers
    {
      && RingValid()
      && Longest(history, |history| - |ring|, ringEvents, ringChars)
      && seqNo == |history| && Numbered(history)
      && forall s :: s in subscribers ==> Follows(s)
    }

    constructor (ringEvents: nat, ringChars: int, queueMaxsize: int)
      ensures Valid() && history == [] && subscribers == {}
      ensures this.ringEvents == ringEvents && this.ringChars == ringChars && this.queueMaxsize == queueMaxsize
    {
      this.ringEvents, this.ringChars, this.queueMaxsize := ringEvents, ringChars, queueMaxsize;
      ring, ringCharsTotal, seqNo, subscribers := [], 0, 0, {};
      history := [];
    }

    /** Numbers the event, appends it, evicts, and offers it to everyone: the ring is again the longest
        fitting suffix of the entire history, and nobody who has kept up has a gap. */
    method Publish(texts: seq<string>) returns (n: nat)
      requires Valid()
      modifies this, subscribers
      ensures Valid() && n == |history| && subscribers == old(subscribers)
      ensures history == old(history) + [Event(n, texts)]
      ensures ringEvents >= 1 ==> |ring| >= 1 && ring[|ring| - 1].0 == Event(n, texts)
      ensures forall s :: s in subscribers ==> s.queue == Offered(old(s.queue), s.maxsize, Event(n, texts))
    {
      hide RingValid, Longest, Suffix;
      ghost var was := history;
      seqNo := seqNo + 1;
      var e := Event(seqNo, texts);
      Append(e);
      Evict();
      assert history[..|history| - 1] == was;
      Broadcast(e, was);
      n := seqNo;
    }

    method Append(e: Event)
      requires RingValid() && Longest(history, |history| - |ring|, ringEvents, ringChars)
      modifies this`ring, this`ringCharsTotal, this`history
      ensures RingValid() && history == old(history) + [e] && ring == old(ring) + [(e, Cost(e))]
      ensures forall j: nat :: j < |history| - |ring| ==> !Fits(history, j, ringEvents, ringChars)
    {
      hide Cost, Total, Fits;
      ghost var k := |history| - |ring|;
      PublishKeepsMisfits(history, e, k, ringEvents, ringChars);
      TotalAppend(history[k..], e);
      assert (history + [e])[k..] == history[k..] + [e];
      ring := ring + [(e, Cost(e))];
      ringCharsTotal := ringCharsTotal + Cost(e);
      history := history + [e];
    }

    method PopLeft()
      requires RingValid() && |ring| > 0
      modifies this`ring, this`ringCharsTotal
      ensures RingValid() && ring == old(ring)[1..]
    {
      hide Cost;
      ghost var k := |history| - |ring|;
      assert history[k..][1..] == history[k + 1..];
      ringCharsTotal := ringCharsTotal - ring[0].1;
      ring := ring[1..];
    }

    /** First past the event bound, then past the character bound, keeping the newest event. */
    method Evict()
      requires RingValid() && |ring| > 0
      requires forall j: nat :: j < |history| - |ring| ==> !Fits(history, j, ringEvents, ringChars)
      modifies this`ring, this`ringCharsTotal
      ensures RingValid() && Longest(history, |history| - |ring|, ringEvents, ringChars)
      ensures ringEvents >= 1 ==> |ring| >= 1 && ring[|ring| - 1] == old(ring)[|old(ring)| - 1]
    {
      hide Total, Mirrors;
      while |ring| > ringEvents
        invariant RingValid() && |ring| <= |old(ring)| && ring == old(ring)[|old(ring)| - |ring|..]
        invariant |ring| >= ringEvents || ring == old(ring)
        invariant forall j: nat :: j < |history| - |ring| ==> !Fits(history, j, ringEvents, ringChars)
      {
        PopLeft();
      }
      while |ring| > 1 && ringCharsTotal > ringChars
        invariant RingValid() && |ring| <= ringEvents && |ring| <= |old(ring)| && ring == old(ring)[|old(ring)| - |ring|..]
        invariant ringEvents >= 1 ==> |ring| >= 1
        invariant forall j: nat :: j < |history| - |ring| ==> !Fits(history, j, ringEvents, ringChars)
      {
        PopLeft();
      }
    }

    method Broadcast(e: Event, ghost was: seq<Event>)
      requires history == was + [e]
      requires forall s :: s in subscribers ==> Suffix(s.queue, was) && (!s.lagged ==> Suffix(s.Shown(), was))
      modifies subscribers
      ensures forall s :: s in subscribers ==> Follows(s)
      ensures forall s :: s in subscribers ==> s.queue == Offered(old(s.queue), s.maxsize, e)
    {
      hide Suffix, Offered;
      var todo := subscribers;
      while todo != {}
        invariant todo <= subscribers
        invariant forall s :: s in subscribers - todo ==> Follows(s) && s.queue == Offered(old(s.queue), s.maxsize, e)
        invariant forall s :: s in todo ==> s.queue == old(s.queue)
        invariant forall s :: s in todo ==> Suffix(s.queue, was) && (!s.lagged ==> Suffix(s.Shown(), was))
        decreases |todo|
      {
        var s :| s in todo;
        Serve(s, e, was);
        todo := todo - {s};
      }
    }

    method Serve(s: Subscriber, e: Event, ghost was: seq<Event>)
      requires history == was + [e] && Suffix(s.queue, was) && (!s.lagged ==> Suffix(s.Shown(), was))
      modifies s`queue, s`lagged
      ensures Follows(s) && s.queue == Offered(old(s.queue), s.maxsize, e)
    {
      ghost var shown, queue := s.Shown(), s.queue;
      s.Offer(e);
      assert !s.lagged ==> s.Shown() == shown + [e];
      StillSuffix(shown, queue, s.Shown(), s.queue, was, e);
    }

    lemma StillSuffix(shown: seq<Event>, queue: seq<Event>, shown': seq<Event>, queue': seq<Event>, was: seq<Event>, e: Event)
      requires Suffix(queue, was) && (queue' == queue + [e] || (|queue| > 0 && queue' == queue[1..] + [e]))
      ensures Suffix(queue', was + [e])
      ensures Suffix(shown, was) && shown' == shown + [e] ==> Suffix(shown', was + [e])
    {
    }

    /** A new queue, and a copy of the ring for replay. */
    method Subscribe() returns (s: Subscriber, snapshot: seq<Event>)
      requires Valid()
      modifies this`subscribers
      ensures Valid() && fresh(s) && subscribers == old(subscribers) + {s}
      ensures !s.lagged && s.Shown() == snapshot == history[|history| - |ring|..]
    {
      hide Longest, Numbered, Cost, Total;
      snapshot := seq(|ring|, i requires 0 <= i < |ring| reads this => ring[i].0);
      s := new Subscriber(queueMaxsize, snapshot);
      assert snapshot == history[|history| - |ring|..];
      subscribers := subscribers + {s};
    }

    method Unsubscribe(s: Subscriber)
      requires Valid()
      modifies this`subscribers
      ensures Valid() && subscribers == old(subscribers) - {s}
    {
      subscribers := subscribers - {s};
    }

    /** What an unlagged client sees is a gap-free run of sequence numbers that ends at the newest event. */
    lemma UnlaggedSeesNoGap(s: Subscriber)
      requires Valid() && s in subscribers && !s.lagged
      ensures var shown := s.Shown();
        forall i :: 0 <= i < |shown| ==> shown[i].seqNo == seqNo - |shown| + i + 1
    {
      SuffixIsConsecutive(s.Shown(), history);
    }

    /** The ring in plain terms: the newest events of all that were published, no more than the event bound,
        and within the character bound unless it holds one event alone; one more event would break a bound. */
    lemma RingInPlainTerms()
      requires Valid()
      ensures var n := |ring|;
        && n <= |history| && n <= ringEvents && (n <= 1 || Characters(history[|history| - n..]) <= ringChars)
        && (forall i :: 0 <= i < n ==> ring[i].0 == history[|history| - n + i])
        && (n < |history| ==> n + 1 > ringEvents || (n >= 1 && Characters(history[|history| - n - 1..]) > ringChars))
    {
      hide Fits, Longest, Follows, Characters, Numbered, Total, Cost;
      LongestInPlainTerms(history, |ring|, ringEvents, ringChars);
    }
  }

  lemma LongestInPlainTerms(history: seq<Event>, n: nat, events: nat, chars: int)
    requires n <= |history| && Longest(history, |history| - n, events, chars)
    ensures n <= events && (n <= 1 || Characters(history[|history| - n..]) <= chars)
    ensures n < |history| ==> n + 1 > events || (n >= 1 && Characters(history[|history| - n - 1..]) > chars)
  {
    hide Total, Characters;
    CharactersAreTotal(history[|history| - n..]);
    if n < |history| {
      assert !Fits(history, |history| - n - 1, events, chars);
      CharactersAreTotal(history[|history| - n - 1..]);
    }
  }

  /** The characters of all string fields of all events. */
  function Characters(events: seq<Event>): nat {
    if events == [] then 0
    else Characters(events[..|events| - 1]) + Lengths(events[|events| - 1].texts)
  }

  function Lengths(texts: seq<string>): nat {
    if texts == [] then 0 else Lengths(texts[..|texts| - 1]) + |texts[|texts| - 1]|
  }

  lemma {:induction false} LengthsAreChars(texts: seq<string>)
    ensures Lengths(texts) == Chars(texts)
  {
    if texts != [] {
      var n := |texts| - 1;
      LengthsAreChars(texts[..n]);
      CharsAppend(texts[..n], texts[n]);
      assert texts[..n] + [texts[n]] == texts;
    }
  }

  lemma {:induction false} CharsAppend(texts: seq<string>, t: string)
    ensures Chars(texts + [t]) == Chars(texts) + |t|
  {
    if texts == [] {
      assert texts + [t] == [t] && [t][1..] == [];
    } else {
      assert (texts + [t])[1..] == texts[1..] + [t];
      CharsAppend(texts[1..], t);
    }
  }

  lemma {:induction false} CharactersAreTotal(events: seq<Event>)
    ensures Characters(events) == Total(events)
  {
    if events != [] {
      var n := |events| - 1;
      CharactersAreTotal(events[..n]);
      LengthsAreChars(events[n].texts);
      TotalAppend(events[..n], events[n]);
      assert events[..n] + [events[n]] == events;
    }
  }
}
