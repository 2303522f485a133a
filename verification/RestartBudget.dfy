/** The crash-loop guard: restart times per model, purged when they leave the window. */
module RestartBudget {
  type Model = string

  function Recent(events: seq<real>, now: real, window: real): seq<real> {
    if events == [] then []
    else (if now - events[0] < window then [events[0]] else []) + Recent(events[1..], now, window)
  }

  function EventsOf(events: map<Model, seq<real>>, m: Model): seq<real> {
    if m in events then events[m] else []
  }

  method Purge(all: seq<real>, now: real, window: real) returns (kept: seq<real>)
    ensures kept == Recent(all, now, window)
  {
    kept := [];
    for i := 0 to |all|
      invariant kept + Recent(all[i..], now, window) == Recent(all, now, window)
    {
      RecentStep(all, i, now, window);
      if now - all[i] < window {
        assert kept + [all[i]] + Recent(all[i + 1..], now, window) == kept + ([all[i]] + Recent(all[i + 1..], now, window));
        kept := kept + [all[i]];
      }
    }
    assert kept + [] == kept;
  }

  lemma RecentStep(all: seq<real>, i: nat, now: real, window: real)
    requires i < |all|
    ensures Recent(all[i..], now, window)
      == if now - all[i] < window then [all[i]] + Recent(all[i + 1..], now, window) else Recent(all[i + 1..], now, window)
  {
    assert all[i..][1..] == all[i + 1..];
  }

  class RestartBudget {
    var limit: int
    const window: real
    var events: map<Model, seq<real>>

    constructor (limit: int, window: real)
      ensures this.limit == limit && this.window == window && events == map[]
    {
      this.limit, this.window, events := limit, window, map[];
    }

    method Allow(m: Model, now: real) returns (allowed: bool)
      modifies this`events
      ensures events == old(events)[m := Recent(EventsOf(old(events), m), now, window)]
      ensures allowed <==> |events[m]| < limit
    {
      var kept := Purge(if m in events then events[m] else [], now, window);
      events := events[m := kept];
      return |kept| < limit;
    }

    method Record(m: Model, now: real)
      modifies this`events
      ensures events == old(events)[m := EventsOf(old(events), m) + [now]]
    {
      events := events[m := EventsOf(events, m) + [now]];
    }

    method Reset(m: Model)
      modifies this`events
      ensures events == old(events) - {m}
    {
      events := events - {m};
    }

    /** A change of the limit keeps the history. */
    method Reconfigure(limit: int)
      modifies this`limit
      ensures this.limit == limit
    {
      this.limit := limit;
    }
  }

  // ----- what the purged list says about the whole history ------------------------------------

  predicate Ordered(times: seq<real>) {
    forall i, j :: 0 <= i < j < |times| ==> times[i] <= times[j]
  }

  /** `events` is the end of the history, and what it misses has left the window for good. */
  predicate Remembers(events: seq<real>, history: seq<real>, clock: real, window: real) {
    && |events| <= |history|
    && events == history[|history| - |events|..]
    && (forall i :: 0 <= i < |history| - |events| ==> clock - history[i] >= window)
  }

  lemma {:induction false} AllRecent(events: seq<real>, now: real, window: real)
    requires forall i :: 0 <= i < |events| ==> now - events[i] < window
    ensures Recent(events, now, window) == events
  {
    if events != [] {
      AllRecent(events[1..], now, window);
      assert [events[0]] + events[1..] == events;
    }
  }

  lemma OrderedParts(events: seq<real>)
    requires Ordered(events) && events != []
    ensures Ordered(events[1..]) && forall i :: 0 <= i < |events| ==> events[0] <= events[i]
  {
  }

  /** The purge cuts an ordered list in two at `n`. */
  predicate CutsAt(events: seq<real>, n: nat, now: real, window: real) {
    && n <= |events| && Recent(events, now, window) == events[n..]
    && (forall i :: 0 <= i < n ==> now - events[i] >= window)
    && (forall i :: n <= i < |events| ==> now - events[i] < window)
  }

  lemma CutAfterHead(events: seq<real>, n: nat, now: real, window: real)
    requires events != [] && now - events[0] >= window && CutsAt(events[1..], n, now, window)
    ensures CutsAt(events, n + 1, now, window)
  {
    RecentDropsHead(events, now, window);
    hide Recent;
    assert events[1..][n..] == events[n + 1..];
    assert forall i :: 1 <= i < |events| ==> events[i] == events[1..][i - 1];
  }

  lemma {:induction false} RecentIsSuffix(events: seq<real>, now: real, window: real) returns (n: nat)
    requires Ordered(events)
    ensures CutsAt(events, n, now, window)
  {
    n := 0;
    if events != [] {
      OrderedParts(events);
      if now - events[0] < window {
        AllRecent(events, now, window);
      } else {
        var m := RecentIsSuffix(events[1..], now, window);
        CutAfterHead(events, m, now, window);
        n := m + 1;
      }
      hide Ordered, CutsAt, Recent;
    }
  }

  lemma RecentDropsHead(events: seq<real>, now: real, window: real)
    requires events != [] && now - events[0] >= window
    ensures Recent(events, now, window) == Recent(events[1..], now, window)
  {
  }

  lemma PurgeRemembers(events: seq<real>, history: seq<real>, clock: real, now: real, window: real)
    requires Ordered(history) && Remembers(events, history, clock, window) && clock <= now
    ensures Remembers(Recent(events, now, window), history, now, window)
  {
    var d := |history| - |events|;
    assert Ordered(events) by {
      assert forall i :: 0 <= i < |events| ==> events[i] == history[d + i];
    }
    var n := RecentIsSuffix(events, now, window);
    var r := Recent(events, now, window);
    assert r == history[|history| - |r|..];
    forall i | 0 <= i < |history| - |r| ensures now - history[i] >= window {
      if i >= d {
        assert history[i] == events[i - d];
      }
    }
  }

  /** When the guard allows, the restart that many places back in the whole history is out of the window. */
  lemma AllowedMeansSpread(events: seq<real>, history: seq<real>, clock: real, now: real, window: real, limit: int)
    requires Ordered(history) && Remembers(events, history, clock, window) && clock <= now
    requires |Recent(events, now, window)| < limit
    ensures limit >= 1
    ensures |history| >= limit ==> now - history[|history| - limit] >= window
  {
    PurgeRemembers(events, history, clock, now, window);
  }

  /** It refuses only when that many restarts of the history are inside the window. */
  lemma RefusedMeansCrowded(events: seq<real>, history: seq<real>, clock: real, now: real, window: real, limit: int)
    requires Ordered(history) && Remembers(events, history, clock, window) && clock <= now
    requires |Recent(events, now, window)| >= limit > 0
    ensures |history| >= limit && now - history[|history| - limit] < window
  {
    var d := |history| - |events|;
    assert Ordered(events) by {
      assert forall i :: 0 <= i < |events| ==> events[i] == history[d + i];
    }
    var n := RecentIsSuffix(events, now, window);
    assert history[|history| - limit] == events[|events| - limit];
  }
}
