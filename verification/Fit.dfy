/** VRAM fit: the KV-cache reserve of a context length, the verdict on a weights file, and the solver that
    suggests a length. Ratios are reals; byte counts are integers. */
module Fit {
  import opened Wrappers

  datatype Verdict = Green | Yellow | Orange | Red

  const GREEN_RATIO := 0.55
  const YELLOW_RATIO := 0.80
  const ORANGE_RATIO := 1.0
  const TARGET_RATIO := 0.70

  /** The numbers of a model's configuration that the KV cache depends on. */
  datatype Shape = Shape(
    hidden: int, layers: int, kvHeads: int, attnHeads: int, dtypeBytes: int, batch: int,
    headDim: Option<int>, sliding: int, window: Option<int>)

  predicate Sound(s: Shape) {
    s.attnHeads > 0 && 0 <= s.sliding <= s.layers
  }

  function HeadDim(s: Shape): int
    requires s.attnHeads > 0
  {
    match s.headDim
    case Some(d) => d
    case None => s.hidden / s.attnHeads
  }

  function Min(a: int, b: int): int {
    if a <= b then a else b
  }

  /** An absent window and a window of zero are the same to the code. */
  predicate Slides(s: Shape) {
    s.sliding != 0 && s.window.Some? && s.window.value != 0
  }

  /** Tokens of KV cache that a context of `len` reserves over all layers. */
  function Tokens(s: Shape, len: int): int {
    (s.layers - s.sliding) * len + s.sliding * (if Slides(s) then Min(s.window.value, len) else len)
  }

  function PerLayerToken(s: Shape): int
    requires s.attnHeads > 0
  {
    2 * s.kvHeads * HeadDim(s) * s.dtypeBytes
  }

  /** None where the code raises a `ValueError`. */
  function KvReserve(s: Shape, len: int): Option<int> {
    if Sound(s) then Some(PerLayerToken(s) * Tokens(s, len) * s.batch) else None
  }

  /** Python's `int` of a float: towards zero. */
  function Truncate(x: real): int {
    if x >= 0.0 then x.Floor else -((-x).Floor)
  }

  function VramCap(vram: int, utilization: real): int {
    Truncate(vram as real * utilization)
  }

  function Classify(size: int, budget: int): Verdict {
    if budget <= 0 then Red
    else
      var ratio := size as real / budget as real;
      if ratio < GREEN_RATIO then Green
      else if ratio < YELLOW_RATIO then Yellow
      else if ratio < ORANGE_RATIO then Orange
      else Red
  }

  function Fixed(s: Shape): int
    requires s.attnHeads > 0
  {
    if Slides(s) then PerLayerToken(s) * s.batch * s.sliding * s.window.value else 0
  }

  function Slope(s: Shape): int
    requires s.attnHeads > 0
  {
    PerLayerToken(s) * s.batch * (s.layers - s.sliding)
  }

  function Numerator(s: Shape, cap: int, size: int, target: real): real
    requires s.attnHeads > 0 && target > 0.0
  {
    cap as real - size as real / target - Fixed(s) as real
  }

  function Recommend(s: Shape, cap: int, size: int, target: real): Option<int> {
    if !Sound(s) || target <= 0.0 || Slope(s) <= 0 || Numerator(s, cap, size, target) <= 0.0 then None
    else
      var len := (Numerator(s, cap, size, target) / Slope(s) as real).Floor;
      if len >= 1 then Some(len) else None
  }

  // ----- the reserve, layer by layer ----------------------------------------------------------

  /** The tokens one layer keeps: the layers that slide come last, and keep no more than a window that is
      given and not zero. */
  function LayerTokens(s: Shape, len: int, layer: int): int {
    if layer < s.layers - s.sliding || s.window.None? || s.window.value == 0 || s.window.value > len then len
    else s.window.value
  }

  /** One key or value tensor of one token: heads times head size times bytes, where a declared head size
      is used as it is. */
  function TensorBytes(s: Shape): int
    requires s.attnHeads > 0
  {
    s.kvHeads * (if s.headDim.Some? then s.headDim.value else s.hidden / s.attnHeads) * s.dtypeBytes
  }

  /** The bytes of the first `n` layers for one sequence. */
  function LayersBytes(s: Shape, len: int, n: nat): int
    requires s.attnHeads > 0
  {
    if n == 0 then 0
    else LayersBytes(s, len, n - 1) + LayerTokens(s, len, n - 1) * (TensorBytes(s) + TensorBytes(s))
  }

  lemma OneLayerMore(per: int, n: int, rest: int, t: int)
    ensures per * (n * t + rest) + t * per == per * ((n + 1) * t + rest)
  {
    assert (n + 1) * t == n * t + t;
    assert per * (n * t + rest + t) == per * (n * t + rest) + per * t;
  }

  lemma {:induction false} LayersBytesExact(s: Shape, len: int, n: nat)
    requires Sound(s) && n <= s.layers
    ensures var full := s.layers - s.sliding;
      var w := if s.window.None? || s.window.value == 0 || s.window.value > len then len else s.window.value;
      LayersBytes(s, len, n)
      == (TensorBytes(s) + TensorBytes(s)) * (if n <= full then n * len + 0 else (n - full) * w + full * len)
  {
    hide TensorBytes;
    if n > 0 {
      var full, per := s.layers - s.sliding, TensorBytes(s) + TensorBytes(s);
      LayersBytesExact(s, len, n - 1);
      if n <= full {
        OneLayerMore(per, n - 1, 0, len);
      } else {
        OneLayerMore(per, n - 1 - full, full * len, LayerTokens(s, len, n - 1));
      }
    }
  }

  lemma TwoTensors(s: Shape)
    requires s.attnHeads > 0
    ensures PerLayerToken(s) == TensorBytes(s) + TensorBytes(s)
  {
    var h := HeadDim(s);
    assert 2 * s.kvHeads * h * s.dtypeBytes == 2 * (s.kvHeads * h * s.dtypeBytes) by {
      assert 2 * s.kvHeads * h == 2 * (s.kvHeads * h);
      assert 2 * (s.kvHeads * h) * s.dtypeBytes == 2 * ((s.kvHeads * h) * s.dtypeBytes);
    }
  }

  /** The reserve is, for each sequence of the batch, the sum over all layers of two tensors for every token
      the layer keeps; it is refused for no attention heads and for a number of sliding layers that is
      negative or larger than the number of layers. */
  lemma ReserveIsSum(s: Shape, len: int)
    ensures KvReserve(s, len).None? <==> s.attnHeads <= 0 || s.sliding < 0 || s.sliding > s.layers
    ensures Sound(s) ==> KvReserve(s, len) == Some(LayersBytes(s, len, s.layers) * s.batch)
  {
    if Sound(s) {
      LayersBytesExact(s, len, s.layers);
      TwoTensors(s);
      hide PerLayerToken, TensorBytes;
    }
  }

  /** A cap is the whole part of its product: below it by less than one, on the side of zero. */
  lemma CapIsWholePart(vram: int, utilization: real)
    ensures var x, cap := vram as real * utilization, VramCap(vram, utilization);
      && (x >= 0.0 ==> cap >= 0 && cap as real <= x < cap as real + 1.0)
      && (x < 0.0 ==> cap <= 0 && cap as real - 1.0 < x <= cap as real)
  {
    WholePart(vram as real * utilization);
  }

  lemma WholePart(x: real)
    ensures x >= 0.0 ==> Truncate(x) >= 0 && Truncate(x) as real <= x < Truncate(x) as real + 1.0
    ensures x < 0.0 ==> Truncate(x) <= 0 && Truncate(x) as real - 1.0 < x <= Truncate(x) as real
  {
  }

  // ----- the reserve as the solver sees it ----------------------------------------------------

  lemma ProductOrder(p: int, t: int, b: int)
    ensures p * t * b == (p * b) * t
  {
    assert p * t * b == p * (t * b);
    assert t * b == b * t;
    assert (p * b) * t == p * (b * t);
  }

  lemma SumProduct(k: int, full: int, len: int, sliding: int, w: int)
    ensures k * (full * len + sliding * w) == (k * full) * len + (k * sliding) * w
  {
    assert k * (full * len + sliding * w) == k * (full * len) + k * (sliding * w);
    assert k * (full * len) == (k * full) * len;
    assert k * (sliding * w) == (k * sliding) * w;
  }

  lemma AtMost(k: int, v: int, w: int)
    requires k >= 0 && v <= w
    ensures k * v <= k * w
  {
  }

  lemma StrictlyMore(k: int, v: int, w: int)
    requires k > 0 && v < w
    ensures k * v < k * w
  {
  }

  lemma SlopePositive(s: Shape)
    requires Sound(s) && Slope(s) > 0
    ensures PerLayerToken(s) * s.batch > 0
  {
    var k, full := PerLayerToken(s) * s.batch, s.layers - s.sliding;
    assert full >= 0 && k * full > 0;
    if k <= 0 { AtMost(full, k, 0); }
  }

  /** Layers are said to slide but no window is given: the reserve charges them the full context, the
      solver nothing. */
  predicate WindowMissing(s: Shape) {
    s.sliding != 0 && !Slides(s)
  }

  /** What the reserve of a context holds beyond the solver's straight line. */
  function Excess(s: Shape, len: int): int
    requires s.attnHeads > 0
  {
    var k := PerLayerToken(s) * s.batch * s.sliding;
    if WindowMissing(s) then k * len
    else if Slides(s) then k * Min(s.window.value, len) - k * s.window.value
    else 0
  }

  lemma ReserveIsLinePlusExcess(s: Shape, len: int)
    requires Sound(s)
    ensures KvReserve(s, len).value == Slope(s) * len + Fixed(s) + Excess(s, len)
  {
    var k, full := PerLayerToken(s) * s.batch, s.layers - s.sliding;
    ProductOrder(PerLayerToken(s), Tokens(s, len), s.batch);
    hide PerLayerToken;
    var w := if Slides(s) then Min(s.window.value, len) else len;
    SumProduct(k, full, len, s.sliding, w);
    if s.sliding == 0 {
      assert (k * s.sliding) * w == 0;
    }
  }

  /** The reserve leaves the solver's line downwards exactly below the window, and upwards exactly when the
      window is missing. */
  lemma ReserveAgainstLine(s: Shape, len: int)
    requires Sound(s) && Slope(s) > 0 && len >= 1
    ensures var r, line := KvReserve(s, len).value, Slope(s) * len + Fixed(s);
      && (r < line <==> Slides(s) && len < s.window.value)
      && (r > line <==> WindowMissing(s))
  {
    ReserveIsLinePlusExcess(s, len);
    SlopePositive(s);
    var k := PerLayerToken(s) * s.batch;
    hide KvReserve, Slope, Fixed, PerLayerToken;
    if s.sliding != 0 {
      SlidingPositive(k, s.sliding);
      if Slides(s) {
        var w := Min(s.window.value, len);
        AtMost(k * s.sliding, w, s.window.value);
        if w < s.window.value { StrictlyMore(k * s.sliding, w, s.window.value); }
      } else {
        StrictlyMore(k * s.sliding, 0, len);
      }
    }
  }

  /** The reserve is the solver's line at every positive length from the window on if and only if the window
      is not missing. */
  lemma LineExact(s: Shape)
    requires Sound(s) && Slope(s) > 0
    ensures (forall len :: len >= 1 && (Slides(s) ==> len >= s.window.value) ==> OnLine(s, len)) <==> !WindowMissing(s)
  {
    forall len | len >= 1 && (Slides(s) ==> len >= s.window.value) ensures OnLine(s, len) <==> !WindowMissing(s) {
      ReserveAgainstLine(s, len);
    }
    if WindowMissing(s) {
      assert OnLine(s, 1) <==> !WindowMissing(s);
    }
  }

  predicate OnLine(s: Shape, len: int)
    requires Sound(s)
  {
    KvReserve(s, len).value == Slope(s) * len + Fixed(s)
  }

  lemma SlidingPositive(k: int, sliding: int)
    requires k > 0 && sliding > 0
    ensures k * sliding > 0
  {
  }

  // ----- what a recommendation promises -----------------------------------------------------------

  /** A context of `len` leaves at least the target share for the weights. */
  predicate Meets(s: Shape, cap: int, size: int, target: real, len: int)
    requires Sound(s) && target > 0.0
  {
    (cap - KvReserve(s, len).value) as real >= size as real / target
  }

  lemma FloorDivides(n: real, k: int)
    requires k > 0
    ensures var q := (n / k as real).Floor;
      (k * q) as real <= n < (k * (q + 1)) as real
  {
    DivideBack(n, k as real);
    ScaleFloor(n / k as real, k, n);
  }

  lemma DivideBack(n: real, k: real)
    requires k > 0.0
    ensures n / k * k == n
  {
  }

  lemma ScaleFloor(x: real, k: int, n: real)
    requires k > 0 && x * k as real == n
    ensures var q := x.Floor;
      (k * q) as real <= n < (k * (q + 1)) as real
  {
    var q := x.Floor;
    ProductAsReal(k, q);
    ProductsOrdered(q as real, x, k as real, (k * q) as real, n);
    ProductAsReal(k, q + 1);
    ProductsOrderedStrictly(x, (q + 1) as real, k as real, n, (k * (q + 1)) as real);
  }

  lemma ProductsOrdered(a: real, b: real, k: real, ak: real, bk: real)
    requires a <= b && k > 0.0 && ak == a * k && bk == b * k
    ensures ak <= bk
  {
    RealOrder(a, b, k);
  }

  lemma ProductsOrderedStrictly(a: real, b: real, k: real, ak: real, bk: real)
    requires a < b && k > 0.0 && ak == a * k && bk == b * k
    ensures ak < bk
  {
    RealOrderStrict(a, b, k);
  }

  lemma {:induction false} ProductAsReal(k: int, q: int)
    ensures (k * q) as real == q as real * k as real
    decreases if q >= 0 then q else -q
  {
    if q > 0 {
      ProductAsReal(k, q - 1);
      assert k * q == k * (q - 1) + k;
      assert q as real * k as real == (q - 1) as real * k as real + k as real;
    } else if q < 0 {
      ProductAsReal(k, q + 1);
      assert k * q == k * (q + 1) - k;
      assert q as real * k as real == (q + 1) as real * k as real - k as real;
    }
  }

  lemma RealOrder(a: real, b: real, k: real)
    requires a <= b && k > 0.0
    ensures a * k <= b * k
  {
  }

  lemma RealOrderStrict(a: real, b: real, k: real)
    requires a < b && k > 0.0
    ensures a * k < b * k
  {
  }

  /** Meeting the target is a bound on what the line and the excess take together. */
  lemma MeetsByExcess(s: Shape, cap: int, size: int, target: real, len: int)
    requires Sound(s) && target > 0.0
    ensures Meets(s, cap, size, target, len) <==> (Slope(s) * len + Excess(s, len)) as real <= Numerator(s, cap, size, target)
  {
    ReserveIsLinePlusExcess(s, len);
    hide KvReserve, Slope, Fixed, Excess;
  }

  /** Every length up to the recommendation meets the target, unless the window is missing: then it does
      exactly when the sliding layers fit into what the line leaves over. Every longer length that the
      window does not cut short misses it; without a recommendation, every positive one of those. */
  lemma RecommendExact(s: Shape, cap: int, size: int, target: real, len: int)
    requires Sound(s) && target > 0.0 && Slope(s) > 0 && len >= 1
    ensures var r := Recommend(s, cap, size, target);
      && (r.Some? && len <= r.value && !WindowMissing(s) ==> Meets(s, cap, size, target, len))
      && (r.Some? && len <= r.value && WindowMissing(s) ==>
            (Meets(s, cap, size, target, len) <==> Excess(s, len) as real <= LeftOver(s, cap, size, target, len)))
      && ((r.Some? ==> len > r.value) && (Slides(s) ==> len >= s.window.value) ==> !Meets(s, cap, size, target, len))
  {
    var n, k := Numerator(s, cap, size, target), Slope(s);
    MeetsByExcess(s, cap, size, target, len);
    ReserveIsLinePlusExcess(s, len);
    ReserveAgainstLine(s, len);
    FloorDivides(n, k);
    var q := (n / k as real).Floor;
    hide KvReserve, Slope, Fixed, Excess;
    if len <= q {
      AtMost(k, len, q);
    } else {
      AtMost(k, q + 1, len);
    }
    NothingBelowOne(n, k, len);
  }

  lemma NothingBelowOne(n: real, k: int, len: int)
    requires k > 0 && len >= 1
    ensures n <= 0.0 ==> (k * len) as real > n
    ensures n <= 0.0 ==> (n / k as real).Floor < 1
  {
    AtMost(k, 1, len);
    FloorDivides(n, k);
    var q := (n / k as real).Floor;
    if q >= 1 { AtMost(k, 1, q); }
  }

  lemma RatioBelow(size: int, budget: int, target: real)
    requires size >= 0 && target > 0.0 && budget > 0 && budget as real >= size as real / target
    ensures size as real / budget as real <= target
  {
    var ratio := size as real / budget as real;
    assert ratio * budget as real == size as real;
    assert size as real / target * target == size as real;
    RealOrder(size as real / target, budget as real, target);
    if ratio > target {
      RealOrderStrict(target, ratio, budget as real);
    }
  }

  /** The bytes the division left over at a length. */
  function LeftOver(s: Shape, cap: int, size: int, target: real, len: int): real
    requires s.attnHeads > 0 && target > 0.0
  {
    Numerator(s, cap, size, target) - (Slope(s) * len) as real
  }

  /** Green or yellow is a bound on the excess, for every shape: what the division left over, and the room
      between the target and the yellow band. */
  lemma FitsByExcess(s: Shape, cap: int, size: int, target: real, len: int)
    requires Sound(s) && target > 0.0 && size >= 0
    ensures var verdict := Classify(size, cap - KvReserve(s, len).value);
      (verdict.Green? || verdict.Yellow?) <==>
        Excess(s, len) as real < LeftOver(s, cap, size, target, len) + (size as real / target - size as real / YELLOW_RATIO)
  {
    ReserveIsLinePlusExcess(s, len);
    GreenOrYellow(size, cap - KvReserve(s, len).value);
    hide KvReserve, Slope, Fixed, Excess, Classify;
  }

  lemma GreenOrYellow(size: int, budget: int)
    requires size >= 0
    ensures Classify(size, budget).Green? || Classify(size, budget).Yellow? <==> size as real / YELLOW_RATIO < budget as real
  {
    Quotient(size, YELLOW_RATIO, budget);
    if budget > 0 {
      RatioLess(size, budget, YELLOW_RATIO);
      RatioLess(size, budget, GREEN_RATIO);
    }
  }

  lemma Quotient(size: int, c: real, budget: int)
    requires size >= 0 && c > 0.0
    ensures (size as real) < c * budget as real <==> size as real / c < budget as real
    ensures size as real / c >= 0.0
  {
    var q := size as real / c;
    DivideBack(size as real, c);
    if q < budget as real {
      RealOrderStrict(q, budget as real, c);
    } else {
      RealOrder(budget as real, q, c);
    }
    if q < 0.0 {
      RealOrderStrict(q, 0.0, c);
    }
  }

  /** A recommended length is green or yellow under the full formula exactly as follows. With the window in
      place it always is, except for a weights file of no size with a division that comes out even; with
      the window missing it is when the sliding layers fit into what is left over. */
  lemma RecommendationFits(s: Shape, cap: int, size: int, target: real)
    requires size >= 0 && target < YELLOW_RATIO && Recommend(s, cap, size, target).Some?
    ensures var len := Recommend(s, cap, size, target).value;
      var verdict := Classify(size, cap - KvReserve(s, len).value);
      (verdict.Green? || verdict.Yellow?) <==>
        if WindowMissing(s) then
          Excess(s, len) as real < LeftOver(s, cap, size, target, len) + (size as real / target - size as real / YELLOW_RATIO)
        else
          size > 0 || LeftOver(s, cap, size, target, len) != 0.0 || (Slides(s) && len < s.window.value)
  {
    var n, k := Numerator(s, cap, size, target), Slope(s);
    var len := Recommend(s, cap, size, target).value;
    FitsByExcess(s, cap, size, target, len);
    ReserveIsLinePlusExcess(s, len);
    ReserveAgainstLine(s, len);
    FloorDivides(n, k);
    TargetBelowYellow(size, target);
    hide KvReserve, Slope, Fixed, Excess;
  }

  lemma TargetBelowYellow(size: int, target: real)
    requires size >= 0 && 0.0 < target < YELLOW_RATIO
    ensures size as real / target >= size as real / YELLOW_RATIO
    ensures size > 0 ==> size as real / target > size as real / YELLOW_RATIO
  {
    var x, a, b := size as real, size as real / target, size as real / YELLOW_RATIO;
    DivideBack(x, target);
    DivideBack(x, YELLOW_RATIO);
    BudgetLeft(size, target);
    if a > 0.0 {
      RealOrderStrict(target, YELLOW_RATIO, a);
      Cancel(b, a, YELLOW_RATIO, target);
    }
  }

  lemma Cancel(b: real, a: real, yellow: real, target: real)
    requires yellow > 0.0 && b * yellow == a * target && target * a < yellow * a
    ensures b < a
  {
    if a <= b {
      RealOrder(a, b, yellow);
    }
  }

  lemma BudgetLeft(size: int, target: real)
    requires size >= 0 && target > 0.0
    ensures size as real / target >= 0.0 && (size > 0 <==> size as real / target > 0.0)
  {
    assert size as real / target * target == size as real;
  }

  /** Every shape with the window missing has red recommendations: for each length from three on there is
      a memory size for which the solver recommends that length to a file of seven bytes. */
  lemma MissingWindowMisleads(s: Shape, len: int)
    requires Sound(s) && Slope(s) > 0 && WindowMissing(s) && len >= 3
    ensures var cap := Slope(s) * len + 10;
      Recommend(s, cap, 7, TARGET_RATIO) == Some(len) && Classify(7, cap - KvReserve(s, len).value).Red?
  {
    var cap, k := Slope(s) * len + 10, Slope(s);
    ReserveIsLinePlusExcess(s, len);
    SlopePositive(s);
    SlidingPositive(PerLayerToken(s) * s.batch, s.sliding);
    AtMost(PerLayerToken(s) * s.batch * s.sliding, 3, len);
    assert Excess(s, len) >= 3;
    assert 7.0 / 0.70 == 10.0;
    assert Numerator(s, cap, 7, TARGET_RATIO) == (k * len) as real;
    EvenDivision(k, len);
    StrictlyMore(k, 0, len);
    VerdictBands(7, cap - KvReserve(s, len).value);
    hide KvReserve, Slope, PerLayerToken, Excess, Classify;
  }

  lemma EvenDivision(k: int, len: int)
    requires k > 0
    ensures ((k * len) as real / k as real).Floor == len
  {
    FloorDivides((k * len) as real, k);
    var q := ((k * len) as real / k as real).Floor;
    if q < len {
      AtMost(k, q + 1, len);
    } else if q > len {
      StrictlyMore(k, len, q);
    }
  }

  /** The solver's recommendations meet their target, whatever the memory and the file, if and only if the
      window is not missing. */
  lemma SolverTrusted(s: Shape)
    requires Sound(s) && Slope(s) > 0
    ensures (forall cap, size: nat :: Trusted(s, cap, size)) <==> !WindowMissing(s)
  {
    if WindowMissing(s) {
      var cap := Slope(s) * 3 + 10;
      MissingWindowMisleads(s, 3);
      if Trusted(s, cap, 7) {
        MeetsIsNotRed(s, cap, 7, 3);
      }
      assert !Trusted(s, cap, 7);
    } else {
      forall cap, size: nat ensures Trusted(s, cap, size) {
        var r := Recommend(s, cap, size, TARGET_RATIO);
        if r.Some? {
          RecommendExact(s, cap, size, TARGET_RATIO, r.value);
        }
      }
    }
  }

  predicate Trusted(s: Shape, cap: int, size: nat)
    requires Sound(s)
  {
    var r := Recommend(s, cap, size, TARGET_RATIO);
    r.Some? ==> Meets(s, cap, size, TARGET_RATIO, r.value)
  }

  lemma RatioLess(size: int, budget: int, c: real)
    requires budget > 0
    ensures size as real / budget as real < c <==> (size as real) < c * budget as real
  {
    var ratio := size as real / budget as real;
    DivideBack(size as real, budget as real);
    if ratio < c {
      RealOrderStrict(ratio, c, budget as real);
    } else {
      RealOrder(c, ratio, budget as real);
    }
  }

  /** The verdicts in whole numbers: the bands begin at 55, 80 and 100 hundredths of the budget. */
  lemma VerdictBands(size: int, budget: int)
    ensures Classify(size, budget) ==
      if budget <= 0 then Red
      else if 100 * size < 55 * budget then Green
      else if 100 * size < 80 * budget then Yellow
      else if size < budget then Orange
      else Red
  {
    if budget > 0 {
      RatioLess(size, budget, GREEN_RATIO);
      RatioLess(size, budget, YELLOW_RATIO);
      RatioLess(size, budget, ORANGE_RATIO);
    }
  }

  // ----- the preflight ----------------------------------------------------------------------------

  /** A field of the raw configuration after `int(... or 0)`: absent, null and false read as zero, and what
      `int` cannot convert raises. */
  datatype Field = Number(value: int) | Malformed

  /** `config.json` as it was parsed. `kvHeads` is None where it is absent or zero and the head
      count stands in for it, and `dtypeBytes` is malformed for a type name that is no string. */
  datatype Config =
    | NoObject
    | Config(hidden: Field, layers: Field, attnHeads: Field, kvHeads: Option<Field>, maxLen: Field, dtypeBytes: Field)

  /** The numbers that are left when every field converts. */
  datatype Numbers = Numbers(hidden: int, layers: int, attnHeads: int, kvHeads: int, maxLen: int, dtypeBytes: int)

  datatype Decision = Proceed | Cap(capTo: int, fromLen: int) | Block(recommended: Option<int>) | Raises

  predicate Converts(c: Config) {
    && c.Config?
    && c.hidden.Number? && c.layers.Number? && c.attnHeads.Number? && c.maxLen.Number? && c.dtypeBytes.Number?
    && (c.kvHeads.Some? ==> c.kvHeads.value.Number?)
  }

  function Read(c: Config): Numbers
    requires Converts(c)
  {
    Numbers(c.hidden.value, c.layers.value, c.attnHeads.value,
            if c.kvHeads.Some? then c.kvHeads.value.value else c.attnHeads.value,
            c.maxLen.value, c.dtypeBytes.value)
  }

  predicate Complete(c: Numbers) {
    c.hidden != 0 && c.layers != 0 && c.attnHeads != 0 && c.kvHeads != 0
  }

  function ShapeOf(c: Numbers, batch: int): Shape {
    Shape(c.hidden, c.layers, c.kvHeads, c.attnHeads, c.dtypeBytes, batch, None, 0, None)
  }

  function EffectiveLen(c: Numbers, row: Option<int>): int {
    if row.Some? && row.value != 0 then row.value else c.maxLen
  }

  function Capped(rec: Option<int>, maxLen: int): Option<int> {
    if rec.Some? && maxLen > 0 then Some(Min(rec.value, maxLen)) else rec
  }

  predicate Degraded(vram: int, weights: int, utilization: real) {
    vram <= 0 || weights <= 0 || utilization <= 0.0
  }

  function Decide(c: Config, vram: int, weights: int, row: Option<int>, utilization: real, batch: int): Decision {
    if Degraded(vram, weights, utilization) then Proceed
    else if !Converts(c) then Raises
    else DecideOn(Read(c), vram, weights, row, utilization, batch)
  }

  function DecideOn(c: Numbers, vram: int, weights: int, row: Option<int>, utilization: real, batch: int): Decision {
    if !Complete(c) || EffectiveLen(c, row) <= 0 then Proceed
    else
      var s := ShapeOf(c, batch);
      var len := EffectiveLen(c, row);
      match KvReserve(s, len)
      case None => Raises
      case Some(kv) =>
        var cap := VramCap(vram, utilization);
        var red := Classify(weights, cap - kv).Red?;
        var rec := Capped(Recommend(s, cap, weights, TARGET_RATIO), c.maxLen);
        if row.None? then
          if red && rec.Some? && rec.value < len then Cap(rec.value, len) else Proceed
        else if red then Block(rec)
        else Proceed
  }

  /** The promise that the preflight never raises fails exactly when the three numbers it was handed are
      positive and the configuration is no object, or has a field that does not convert, or is complete
      with a length to evaluate and a negative head or layer count. */
  lemma NeverRaisesExact(c: Config, vram: int, weights: int, row: Option<int>, utilization: real, batch: int)
    ensures Decide(c, vram, weights, row, utilization, batch).Raises? <==>
      && !Degraded(vram, weights, utilization)
      && (Converts(c) ==>
            var n := Read(c);
            Complete(n) && EffectiveLen(n, row) > 0 && (n.attnHeads < 0 || n.layers < 0))
  {
    hide Classify, Recommend;
  }

  /** An explicit length is never rewritten, and blocked only when it is red. */
  lemma ExplicitIsKept(c: Config, vram: int, weights: int, row: int, utilization: real, batch: int)
    ensures var d := Decide(c, vram, weights, Some(row), utilization, batch);
      && !d.Cap?
      && (d.Block? ==>
            && Converts(c)
            && var s, len := ShapeOf(Read(c), batch), EffectiveLen(Read(c), Some(row));
            Sound(s) && Classify(weights, VramCap(vram, utilization) - KvReserve(s, len).value).Red?)
  {
    hide Classify, Recommend;
  }

  /** Whether some positive length leaves the target share for the weights. */
  ghost predicate SomeLengthFits(s: Shape, cap: int, size: int)
    requires Sound(s)
  {
    exists len :: len >= 1 && Meets(s, cap, size, TARGET_RATIO, len)
  }

  lemma MeetsIsNotRed(s: Shape, cap: int, size: int, len: int)
    requires Sound(s) && size > 0 && Meets(s, cap, size, TARGET_RATIO, len)
    ensures var verdict := Classify(size, cap - KvReserve(s, len).value); verdict.Green? || verdict.Yellow?
  {
    var budget := cap - KvReserve(s, len).value;
    hide KvReserve;
    BudgetLeft(size, TARGET_RATIO);
    RatioBelow(size, budget, TARGET_RATIO);
  }

  /** A cap is positive, strictly below the original length, and green or yellow; and a length nobody asked
      for is capped exactly when it is red and some positive length would meet the target. */
  lemma CapExact(c: Config, vram: int, weights: int, utilization: real, batch: int)
    requires !Degraded(vram, weights, utilization) && Converts(c) && Complete(Read(c)) && Read(c).maxLen > 0
    requires Sound(ShapeOf(Read(c), batch)) && Slope(ShapeOf(Read(c), batch)) > 0
    ensures var d := Decide(c, vram, weights, None, utilization, batch);
      var s, cap, maxLen := ShapeOf(Read(c), batch), VramCap(vram, utilization), Read(c).maxLen;
      && (d.Cap? ==>
            var verdict := Classify(weights, cap - KvReserve(s, d.capTo).value);
            1 <= d.capTo < d.fromLen == maxLen && (verdict.Green? || verdict.Yellow?))
      && (d.Cap? <==> Classify(weights, cap - KvReserve(s, maxLen).value).Red? && SomeLengthFits(s, cap, weights))
  {
    var s, cap, maxLen := ShapeOf(Read(c), batch), VramCap(vram, utilization), Read(c).maxLen;
    var r := Recommend(s, cap, weights, TARGET_RATIO);
    RecommendExact(s, cap, weights, TARGET_RATIO, maxLen);
    if r.Some? {
      RecommendExact(s, cap, weights, TARGET_RATIO, r.value);
      MeetsIsNotRed(s, cap, weights, r.value);
      if r.value >= maxLen {
        MeetsIsNotRed(s, cap, weights, maxLen);
      }
    } else {
      forall len | len >= 1 ensures !Meets(s, cap, weights, TARGET_RATIO, len) {
        RecommendExact(s, cap, weights, TARGET_RATIO, len);
      }
    }
    hide Classify, Recommend, Meets, VramCap, Slope;
  }
}
