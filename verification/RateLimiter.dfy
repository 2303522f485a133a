/** The per-token sliding-window rate limiter, compared with an oracle that never forgets. */
module RateLimiter {

  import opened Wrappers

  datatype Sample = Sample(at: real, charge: int)

  /** One call of `check_and_charge` for a fixed token. */
  datatype Call = Call(rate: Option<int>, tokens: int, now: real)

  function ChargeOf(tokens: int): int {
    if tokens < 1 then 1 else tokens
  }

  predicate Limited(rate: Option<int>) {
    rate.Some? && rate.value > 0
  }

  /** `rate` times the window, as repeated addition so that proofs about it stay linear. */
  ghost function Budget(window: real, rate: int): real
    decreases if rate < 0 then 0 else rate
  {
    if rate <= 0 then 0.0 else window + Budget(window, rate - 1)
  }

  lemma {:induction false} BudgetIsProduct(window: real, rate: int)
    requires rate >= 0
    ensures Budget(window, rate) == window * rate as real
    decreases rate
  {
    if rate > 0 {
      BudgetIsProduct(window, rate - 1);
      assert window * rate as real == window * ((rate - 1) as real + 1.0);
    }
  }

  lemma {:induction false} BudgetMonotone(window: real, a: int, b: int)
    requires window >= 0.0 && a <= b
    ensures 0.0 <= Budget(window, a) <= Budget(window, b)
    decreases if b < 0 then 0 else b
  {
    if b > 0 { BudgetMonotone(window, if a < b then a else b - 1, b - 1); }
  }

  function Sum(samples: seq<Sample>): int {
    if |samples| == 0 then 0 else samples[0].charge + Sum(samples[1..])
  }

  /** What the limiter keeps of a window that starts at `cutoff`: expired samples go from the left. */
  function Purge(samples: seq<Sample>, cutoff: real): seq<Sample> {
    if |samples| > 0 && samples[0].at < cutoff then Purge(samples[1..], cutoff) else samples
  }

  /** Everything ever admitted at times in the closed interval from `lo` to `hi`. */
  function Charged(history: seq<Sample>, lo: real, hi: real): int {
    if |history| == 0 then 0
    else (if lo <= history[0].at <= hi then history[0].charge else 0) + Charged(history[1..], lo, hi)
  }

  /** The oracle: it holds all past admissions and looks at the window that ends now. */
  ghost predicate OracleAccepts(history: seq<Sample>, window: real, call: Call) {
    !Limited(call.rate) ||
    (Charged(history, call.now - window, call.now) + ChargeOf(call.tokens)) as real <= Budget(window, call.rate.value)
  }

  /** All admissions after a call; unlimited calls are never recorded. */
  ghost function Admit(history: seq<Sample>, window: real, call: Call): seq<Sample> {
    if Limited(call.rate) && OracleAccepts(history, window, call)
    then history + [Sample(call.now, ChargeOf(call.tokens))] else history
  }

  /** A nondecreasing run of samples, none of them in the future. */
  ghost predicate UpTo(samples: seq<Sample>, now: real) {
    |samples| > 0 ==>
      && samples[0].at <= now
      && (|samples| > 1 ==> samples[0].at <= samples[1].at)
      && UpTo(samples[1..], now)
  }

  ghost predicate Expired(samples: seq<Sample>, cutoff: real) {
    |samples| > 0 ==> samples[0].at < cutoff && Expired(samples[1..], cutoff)
  }

  ghost predicate Since(samples: seq<Sample>, cutoff: real) {
    |samples| > 0 ==> cutoff <= samples[0].at
  }

  lemma {:induction false} SumAppend(a: seq<Sample>, b: seq<Sample>)
    ensures Sum(a + b) == Sum(a) + Sum(b)
  {
    if |a| == 0 { assert a + b == b; } else { assert (a + b)[1..] == a[1..] + b; SumAppend(a[1..], b); }
  }

  lemma {:induction false} ChargedAppend(a: seq<Sample>, b: seq<Sample>, lo: real, hi: real)
    ensures Charged(a + b, lo, hi) == Charged(a, lo, hi) + Charged(b, lo, hi)
  {
    if |a| == 0 { assert a + b == b; } else { assert (a + b)[1..] == a[1..] + b; ChargedAppend(a[1..], b, lo, hi); }
  }

  /** The samples a purge drops. */
  function Dropped(samples: seq<Sample>, cutoff: real): seq<Sample> {
    if |samples| > 0 && samples[0].at < cutoff then [samples[0]] + Dropped(samples[1..], cutoff) else []
  }

  lemma {:induction false} PurgeFacts(samples: seq<Sample>, cutoff: real, now: real)
    requires UpTo(samples, now)
    ensures samples == Dropped(samples, cutoff) + Purge(samples, cutoff)
    ensures Expired(Dropped(samples, cutoff), cutoff)
    ensures UpTo(Purge(samples, cutoff), now) && Since(Purge(samples, cutoff), cutoff)
  {
    if |samples| > 0 && samples[0].at < cutoff { PurgeFacts(samples[1..], cutoff, now); }
  }

  lemma {:induction false} ExpiredAppend(a: seq<Sample>, b: seq<Sample>, before: real, cutoff: real)
    requires Expired(a, before) && before <= cutoff && Expired(b, cutoff)
    ensures Expired(a + b, cutoff)
  {
    if |a| == 0 { assert a + b == b; } else { assert (a + b)[1..] == a[1..] + b; ExpiredAppend(a[1..], b, before, cutoff); }
  }

  lemma {:induction false} UpToAppend(samples: seq<Sample>, seen: real, x: Sample)
    requires UpTo(samples, seen) && seen <= x.at
    ensures UpTo(samples + [x], x.at) && UpTo(samples, x.at)
  {
    if |samples| > 0 {
      assert (samples + [x])[1..] == samples[1..] + [x];
      UpToAppend(samples[1..], seen, x);
    }
  }

  lemma {:induction false} ChargedExpired(samples: seq<Sample>, cutoff: real, now: real)
    requires Expired(samples, cutoff)
    ensures Charged(samples, cutoff, now) == 0
  {
    if |samples| > 0 { ChargedExpired(samples[1..], cutoff, now); }
  }

  lemma {:induction false} ChargedInside(samples: seq<Sample>, cutoff: real, now: real)
    requires UpTo(samples, now) && Since(samples, cutoff)
    ensures Charged(samples, cutoff, now) == Sum(samples)
  {
    if |samples| > 0 { ChargedInside(samples[1..], cutoff, now); }
  }

  lemma Regroup(a: seq<Sample>, b: seq<Sample>, c: seq<Sample>)
    ensures a + (b + c) == (a + b) + c
  {
  }

  /** What is left after a purge sums to what the oracle sees in the whole history. */
  lemma PurgedWindow(forgotten: seq<Sample>, bucket: seq<Sample>, before: real, cutoff: real, seen: real, x: Sample)
    requires Expired(forgotten, before) && before <= cutoff && UpTo(bucket, seen) && seen <= x.at
    ensures var d, p := Dropped(bucket, cutoff), Purge(bucket, cutoff);
      && Expired(forgotten + d, cutoff) && UpTo(p, x.at) && UpTo(p + [x], x.at)
      && forgotten + bucket == (forgotten + d) + p
      && Sum(p) == Charged(forgotten + bucket, cutoff, x.at)
  {
    var d, p := Dropped(bucket, cutoff), Purge(bucket, cutoff);
    PurgeFacts(bucket, cutoff, seen);
    ExpiredAppend(forgotten, d, before, cutoff);
    UpToAppend(p, seen, x);
    ChargedExpired(forgotten + d, cutoff, x.at);
    ChargedInside(p, cutoff, x.at);
    Regroup(forgotten, d, p);
    ChargedAppend(forgotten + d, p, cutoff, x.at);
  }

  lemma {:induction false} Later(gone: seq<Sample>, bucket: seq<Sample>, before: real, cutoff: real, seen: real, now: real)
    requires Expired(gone, before) && before <= cutoff && UpTo(bucket, seen) && seen <= now
    ensures Expired(gone, cutoff) && UpTo(bucket, now)
    decreases |gone| + |bucket|
  {
    if |gone| > 0 { Later(gone[1..], bucket, before, cutoff, seen, now); }
    else if |bucket| > 0 { Later(gone, bucket[1..], before, cutoff, seen, now); }
  }

  class TokenRateLimiter {
    const window: real
    var buckets: map<string, seq<Sample>>
    ghost var forgotten: map<string, seq<Sample>>
    ghost var clock: real

    /** Only samples no later window can contain have been forgotten, and none lies in the future. */
    ghost predicate Valid()
      reads this
    {
      && buckets.Keys == forgotten.Keys
      && forall k :: k in buckets ==> Expired(forgotten[k], clock - window) && UpTo(buckets[k], clock)
    }

    /** Every admission ever recorded for a token, in order. */
    ghost function Admitted(token: string): seq<Sample>
      requires Valid()
      reads this
    {
      if token in buckets then forgotten[token] + buckets[token] else []
    }

    /** A window given explicitly is used as it is. */
    constructor (window: real, ghost start: real)
      ensures Valid() && this.window == window && clock == start && buckets == map[]
    {
      this.window := window;
      buckets, forgotten, clock := map[], map[], start;
    }

    /** Accepts exactly what the oracle accepts, on a clock that does not run backwards. */
    method CheckAndCharge(token: string, rate: Option<int>, tokens: int, now: real) returns (ok: bool)
      requires Valid() && clock <= now
      modifies this
      ensures Valid() && clock == if Limited(rate) then now else old(clock)
      ensures ok <==> OracleAccepts(old(Admitted(token)), window, Call(rate, tokens, now))
      ensures Admitted(token) == Admit(old(Admitted(token)), window, Call(rate, tokens, now))
      ensures forall k :: k != token ==> Admitted(k) == old(Admitted(k))
    {
      if rate == None || rate.value <= 0 { return true; }
      BudgetIsProduct(window, rate.value);
      var budget := window * rate.value as real;
      assert budget == Budget(window, rate.value);
      ok := Charge(token, ChargeOf(tokens), budget, now);
    }

    /** The critical section under the bucket's lock. */
    method Charge(token: string, charge: int, budget: real, now: real) returns (ok: bool)
      requires Valid() && clock <= now
      modifies this
      ensures Valid() && clock == now
      ensures ok <==> (Charged(old(Admitted(token)), now - window, now) + charge) as real <= budget
      ensures Admitted(token) == old(Admitted(token)) + if ok then [Sample(now, charge)] else []
      ensures forall k :: k != token ==> Admitted(k) == old(Admitted(k))
    {
      hide Expired, UpTo, Purge, Dropped, Sum, Charged;
      var bucket := if token in buckets then buckets[token] else [];
      ghost var gone := if token in buckets then forgotten[token] else [];
      var samples := Expire(bucket, now - window);
      PurgedWindow(gone, bucket, clock - window, now - window, clock, Sample(now, charge));
      var current := Total(samples);
      ok := (current + charge) as real <= budget;
      Store(token, if ok then samples + [Sample(now, charge)] else samples, gone + Dropped(bucket, now - window), now);
    }

    method Store(token: string, samples: seq<Sample>, ghost gone: seq<Sample>, now: real)
      requires Valid() && clock <= now && UpTo(samples, now) && Expired(gone, now - window)
      modifies this
      ensures Valid() && clock == now && Admitted(token) == gone + samples
      ensures forall k :: k != token ==> Admitted(k) == old(Admitted(k))
    {
      hide Expired, UpTo;
      forall k | k in buckets ensures Expired(forgotten[k], now - window) && UpTo(buckets[k], now) {
        Later(forgotten[k], buckets[k], clock - window, now - window, clock, now);
      }
      clock := now;
      buckets := buckets[token := samples];
      forgotten := forgotten[token := gone];
    }

    /** Drops expired samples from the left of a bucket. */
    method Expire(bucket: seq<Sample>, cutoff: real) returns (samples: seq<Sample>)
      ensures samples == Purge(bucket, cutoff)
    {
      samples := bucket;
      while |samples| > 0 && samples[0].at < cutoff
        invariant Purge(samples, cutoff) == Purge(bucket, cutoff)
      {
        samples := samples[1..];
      }
    }

    method Total(samples: seq<Sample>) returns (total: int)
      ensures total == Sum(samples)
    {
      total := 0;
      for i := 0 to |samples|
        invariant total == Sum(samples[..i])
      {
        assert samples[..i + 1] == samples[..i] + [samples[i]];
        SumAppend(samples[..i], [samples[i]]);
        total := total + samples[i].charge;
      }
      assert samples[..|samples|] == samples;
    }
  }

  // ----- the admitted rate -----------------------------------------------------------------

  ghost predicate Nondecreasing(calls: seq<Call>) {
    forall i, j :: 0 <= i < j < |calls| ==> calls[i].now <= calls[j].now
  }

  /** All admissions of a run of calls, started from nothing. */
  ghost function Run(calls: seq<Call>, window: real): seq<Sample> {
    if |calls| == 0 then [] else Admit(Run(calls[..|calls| - 1], window), window, calls[|calls| - 1])
  }

  /** What one more call does after any run of calls, in plain terms: without a positive rate it is let
      through and leaves no trace. Otherwise a call for `n` tokens, one for fewer than one, is let through
      exactly if the window's charge and `n` stay within window times rate; the window's charge then grows
      by `n`, and a call that is not let through leaves everything as it was. */
  lemma CallDecided(calls: seq<Call>, window: real, call: Call)
    requires window >= 0.0
    ensures var n := if call.tokens >= 1 then call.tokens else 1;
      var was, now := Run(calls, window), Run(calls + [call], window);
      var used := Charged(was, call.now - window, call.now);
      if call.rate.None? || call.rate.value <= 0 then OracleAccepts(was, window, call) && now == was
      else if (used + n) as real <= window * call.rate.value as real then
        && OracleAccepts(was, window, call) && Charged(now, call.now - window, call.now) == used + n
        && now == was + [Sample(call.now, n)]
      else !OracleAccepts(was, window, call) && now == was
  {
    hide Charged, Budget;
    var all := calls + [call];
    assert all[..|all| - 1] == calls && all[|all| - 1] == call;
    if call.rate.Some? && call.rate.value > 0 {
      BudgetIsProduct(window, call.rate.value);
      var x := Sample(call.now, ChargeOf(call.tokens));
      ChargedAppend(Run(calls, window), [x], call.now - window, call.now);
      ChargedOne(x, call.now - window, call.now);
    }
  }

  lemma ChargedOne(x: Sample, lo: real, hi: real)
    ensures Charged([x], lo, hi) == if lo <= x.at <= hi then x.charge else 0
  {
    assert [x][1..] == [];
  }

  lemma {:induction false} RunFacts(calls: seq<Call>, window: real)
    requires Nondecreasing(calls)
    ensures forall x :: x in Run(calls, window) ==> x.charge >= 1 && |calls| > 0 && x.at <= calls[|calls| - 1].now
  {
    if |calls| > 0 {
      var rest := calls[..|calls| - 1];
      RunFacts(rest, window);
      if |rest| > 0 { assert rest[|rest| - 1].now <= calls[|calls| - 1].now; }
    }
  }

  /** Widening an interval to the left, on nonnegative charges, loses nothing. */
  lemma {:induction false} ChargedWiden(history: seq<Sample>, lo: real, lo': real, hi: real, hi': real)
    requires lo' <= lo && forall x :: x in history ==> x.charge >= 1 && x.at <= hi'
    ensures Charged(history, lo, hi) <= Charged(history, lo', hi')
  {
    if |history| > 0 { ChargedWiden(history[1..], lo, lo', hi, hi'); }
  }

  /** One admission: an interval that contains it is covered by the window the oracle looked at. */
  lemma AdmitBounded(history: seq<Sample>, window: real, call: Call, budget: real, lo: real)
    requires Limited(call.rate) && OracleAccepts(history, window, call) && Budget(window, call.rate.value) <= budget
    requires forall x :: x in history ==> x.charge >= 1 && x.at <= call.now
    requires Charged(history, lo, lo + window) as real <= budget
    ensures Charged(history + [Sample(call.now, ChargeOf(call.tokens))], lo, lo + window) as real <= budget
  {
    var s := Sample(call.now, ChargeOf(call.tokens));
    ChargedAppend(history, [s], lo, lo + window);
    if lo <= call.now <= lo + window {
      ChargedWiden(history, lo, call.now - window, lo + window, call.now);
    }
  }

  /** No closed interval as long as the window ever admits more than the window's worth of the highest
      rate in force: bursts cannot straddle a window boundary. */
  lemma {:induction false} AdmittedRateBounded(calls: seq<Call>, window: real, rate: int, lo: real)
    requires Nondecreasing(calls) && window >= 0.0 && rate >= 0
    requires forall i :: 0 <= i < |calls| && Limited(calls[i].rate) ==> calls[i].rate.value <= rate
    ensures Charged(Run(calls, window), lo, lo + window) as real <= Budget(window, rate)
  {
    BudgetMonotone(window, 0, rate);
    if |calls| > 0 {
      var n := |calls| - 1;
      var rest, call := calls[..n], calls[n];
      AdmittedRateBounded(rest, window, rate, lo);
      if Limited(call.rate) && OracleAccepts(Run(rest, window), window, call) {
        RunFacts(rest, window);
        assert n > 0 ==> rest[n - 1].now <= call.now;
        BudgetMonotone(window, call.rate.value, rate);
        AdmitBounded(Run(rest, window), window, call, Budget(window, rate), lo);
      }
    }
  }
}
