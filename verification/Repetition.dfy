/** The rolling window of shingle hashes: what the deques and counters of the repetition signal mean
    in terms of the whole text seen so far. */
module Repetition {

  const HASH_BASE := 257
  const HASH_MOD := 0x1FFF_FFFF_FFFF_FFFF

  function Power(n: nat): int {
    if n == 0 then 1 else HASH_BASE * Power(n - 1)
  }

  /** The polynomial hash before reduction, most significant character first. */
  function Poly(s: string): int {
    if |s| == 0 then 0 else Poly(s[..|s| - 1]) * HASH_BASE + s[|s| - 1] as int
  }

  function Hash(s: string): int {
    Poly(s) % HASH_MOD
  }

  /** The last `n` characters, or all of them. */
  function Last(text: string, n: nat): string {
    if |text| <= n then text else text[|text| - n..]
  }

  /** The hash of the shingle that ends at position `i`. */
  function ShingleHash(text: string, size: nat, i: nat): int
    requires size <= i <= |text|
  {
    Hash(text[i - size..i])
  }

  /** Hashes of the shingles ending at `lo`, `lo + 1`, ... and before `hi`. */
  function Hashes(text: string, size: nat, lo: nat, hi: nat): (r: seq<int>)
    requires size <= lo && hi <= |text| + 1
    ensures |r| == if lo <= hi then hi - lo else 0
    decreases hi
  {
    if hi <= lo then [] else Hashes(text, size, lo, hi - 1) + [ShingleHash(text, size, hi - 1)]
  }

  /** Where the first shingle ends: an empty one is still only hashed after a character. */
  function FirstEnd(size: nat): (r: nat)
    ensures r >= 1 && r >= size
  {
    if size == 0 then 1 else size
  }

  /** The first shingle end still live once `n` characters have passed: one shingle retires for every
      character the window loses, starting when there is a shingle to retire. */
  function FirstLive(size: nat, window: nat, n: int): nat {
    var span := if window >= FirstEnd(size) - 1 then window else FirstEnd(size) - 1;
    FirstEnd(size) + if n > span then n - span else 0
  }

  function Count(hashes: seq<int>, h: int): nat {
    multiset(hashes)[h]
  }

  /** The repetition signal at position `i`: the shingle just completed recurs too often among those
      that lie inside the last `window + 1` characters. */
  predicate RepeatsAt(text: string, size: nat, window: nat, repeatMax: int, i: nat)
    requires i <= |text|
  {
    i >= FirstEnd(size) &&
    Count(Hashes(text, size, FirstLive(size, window, i - 1), i + 1), ShingleHash(text, size, i)) > repeatMax
  }

  /** The signal for a piece of text: it fires somewhere in it. */
  predicate RepeatsIn(text: string, size: nat, window: nat, repeatMax: int, lo: nat, hi: nat)
    requires hi <= |text|
  {
    exists i :: lo < i <= hi && RepeatsAt(text, size, window, repeatMax, i)
  }

  // ----- the rolling hash --------------------------------------------------------------------

  lemma ModShift(x: int, k: int)
    ensures (x + HASH_MOD * k) % HASH_MOD == x % HASH_MOD
  {
  }

  /** The hash with one more character at the end. */
  function Grown(h: int, c: char): int {
    (h * HASH_BASE + c as int) % HASH_MOD
  }

  /** The hash without its first character, whose place had this power of the base. */
  function Shrunk(h: int, c: char, power: int): int {
    (h - c as int * power) % HASH_MOD
  }

  lemma HashGrow(h: int, s: string, c: char)
    requires h == Hash(s)
    ensures Grown(h, c) == Hash(s + [c])
  {
    assert (s + [c])[..|s|] == s;
    GrowMod(Poly(s), c as int);
  }

  lemma GrowMod(p: int, c: int)
    ensures (p % HASH_MOD * HASH_BASE + c) % HASH_MOD == (p * HASH_BASE + c) % HASH_MOD
  {
    ModShift(p % HASH_MOD * HASH_BASE + c, HASH_BASE * (p / HASH_MOD));
  }

  lemma {:induction false} PolyHead(s: string)
    requires |s| > 0
    ensures Poly(s) == s[0] as int * Power(|s| - 1) + Poly(s[1..])
  {
    if |s| == 1 {
      assert s[..0] == [] && s[1..] == [];
    } else {
      var t := s[..|s| - 1];
      PolyHead(t);
      assert t[1..] == s[1..][..|s| - 2];
      var c, p := s[0] as int, Power(|s| - 2);
      assert (c * p) * HASH_BASE == c * (HASH_BASE * p);
    }
  }

  lemma TimesReduced(c: int, p: int)
    ensures c * (p % HASH_MOD) == c * p - HASH_MOD * (c * (p / HASH_MOD))
  {
    var q := p / HASH_MOD;
    assert p % HASH_MOD == p - HASH_MOD * q;
    assert c * (p - HASH_MOD * q) == c * p - c * (HASH_MOD * q);
    assert c * (HASH_MOD * q) == HASH_MOD * (c * q);
  }

  lemma HashShrink(h: int, s: string, power: int)
    requires |s| > 0 && h == Hash(s) && power == Power(|s| - 1) % HASH_MOD
    ensures Shrunk(h, s[0], power) == Hash(s[1..])
  {
    PolyHead(s);
    ModOnly(Poly(s), s[0] as int, Power(|s| - 1), Poly(s[1..]));
  }

  /** Subtracting a reduced product from a reduced sum leaves the rest of the sum, reduced. */
  lemma ModOnly(whole: int, c: int, p: int, rest: int)
    requires whole == c * p + rest
    ensures (whole % HASH_MOD - c * (p % HASH_MOD)) % HASH_MOD == rest % HASH_MOD
  {
    TimesReduced(c, p);
    var product := c * (p % HASH_MOD);
    var k := c * (p / HASH_MOD) - whole / HASH_MOD;
    assert whole % HASH_MOD - product == rest + HASH_MOD * k;
    ModShift(rest, k);
  }

  // ----- windows -----------------------------------------------------------------------------

  lemma {:induction false} HashesPrefix(text: string, more: string, size: nat, lo: nat, hi: nat)
    requires size <= lo && hi <= |text| + 1
    ensures Hashes(text + more, size, lo, hi) == Hashes(text, size, lo, hi)
    decreases hi
  {
    hide Hash;
    if lo < hi {
      HashesPrefix(text, more, size, lo, hi - 1);
      assert (text + more)[hi - 1 - size..hi - 1] == text[hi - 1 - size..hi - 1];
    }
  }

  lemma {:induction false} HashesDropFirst(text: string, size: nat, lo: nat, hi: nat)
    requires size <= lo < hi <= |text| + 1
    ensures Hashes(text, size, lo, hi) == [ShingleHash(text, size, lo)] + Hashes(text, size, lo + 1, hi)
    decreases hi
  {
    hide ShingleHash;
    if lo < hi - 1 { HashesDropFirst(text, size, lo, hi - 1); }
  }

  /** The signal of a piece depends only on the text up to its end. */
  lemma RepeatsAtPrefix(text: string, more: string, size: nat, window: nat, repeatMax: int, i: nat)
    requires i <= |text|
    ensures RepeatsAt(text + more, size, window, repeatMax, i) <==> RepeatsAt(text, size, window, repeatMax, i)
  {
    hide Hash, Hashes, Count;
    if i >= FirstEnd(size) {
      HashesPrefix(text, more, size, FirstLive(size, window, i - 1), i + 1);
      assert (text + more)[i - size..i] == text[i - size..i];
    }
  }

  lemma RepeatsInPrefix(text: string, more: string, size: nat, window: nat, repeatMax: int, lo: nat, hi: nat)
    requires hi <= |text|
    ensures RepeatsIn(text + more, size, window, repeatMax, lo, hi) <==> RepeatsIn(text, size, window, repeatMax, lo, hi)
  {
    hide RepeatsAt;
    forall i: nat | lo < i <= hi
      ensures RepeatsAt(text + more, size, window, repeatMax, i) <==> RepeatsAt(text, size, window, repeatMax, i)
    {
      RepeatsAtPrefix(text, more, size, window, repeatMax, i);
    }
  }

  /** The signal is independent of chunking: a text repeats somewhere iff one of its pieces does. */
  lemma RepeatsInSplit(text: string, more: string, size: nat, window: nat, repeatMax: int)
    ensures RepeatsIn(text + more, size, window, repeatMax, 0, |text + more|) <==>
      RepeatsIn(text, size, window, repeatMax, 0, |text|) || RepeatsIn(text + more, size, window, repeatMax, |text|, |text + more|)
  {
    hide RepeatsAt;
    RepeatsInPrefix(text, more, size, window, repeatMax, 0, |text|);
  }

  // ----- no genuine repeat is missed -----------------------------------------------------------

  /** How often the shingle ending at `i` occurs, as text, among the shingles ending in a range. */
  function Copies(text: string, size: nat, lo: nat, hi: nat, i: nat): nat
    requires size <= lo && hi <= |text| + 1 && size <= i <= |text|
    decreases hi
  {
    if hi <= lo then 0
    else Copies(text, size, lo, hi - 1, i) + if text[hi - 1 - size..hi - 1] == text[i - size..i] then 1 else 0
  }

  lemma CountAppend(hashes: seq<int>, x: int, h: int)
    ensures Count(hashes + [x], h) == Count(hashes, h) + if x == h then 1 else 0
  {
  }

  lemma {:induction false} CopiesCounted(text: string, size: nat, lo: nat, hi: nat, i: nat)
    requires size <= lo && hi <= |text| + 1 && size <= i <= |text|
    ensures Copies(text, size, lo, hi, i) <= Count(Hashes(text, size, lo, hi), ShingleHash(text, size, i))
    decreases hi
  {
    hide Hash, Count;
    if lo < hi {
      CopiesCounted(text, size, lo, hi - 1, i);
      CountAppend(Hashes(text, size, lo, hi - 1), ShingleHash(text, size, hi - 1), ShingleHash(text, size, i));
    }
  }

  lemma {:induction false} CopiesWiden(text: string, size: nat, lo: nat, lo': nat, hi: nat, i: nat)
    requires size <= lo <= lo' && hi <= |text| + 1 && size <= i <= |text|
    ensures Copies(text, size, lo', hi, i) <= Copies(text, size, lo, hi, i)
    decreases hi
  {
    if lo < hi { CopiesWiden(text, size, lo, lo', hi - 1, i); }
  }

  /** With a shingle no longer than the window, a shingle that recurs as text more than `repeatMax`
      times inside the last `window` characters always fires, whatever its hash. */
  lemma GenuineRepeatFires(text: string, size: nat, window: nat, repeatMax: int, i: nat)
    requires 1 <= size <= window && size <= i <= |text|
    requires Copies(text, size, if i > window then size + (i - window) else size, i + 1, i) > repeatMax
    ensures RepeatsAt(text, size, window, repeatMax, i)
  {
    hide Copies, Hashes, ShingleHash;
    var lo := if i > window then size + (i - window) else size;
    var first := FirstLive(size, window, i - 1);
    CopiesCounted(text, size, first, i + 1, i);
    CopiesWiden(text, size, first, lo, i + 1, i);
  }

  /** Where no other shingle in the range has the hash of the one at `i`, equal hashes are equal texts. */
  ghost predicate NoCollision(text: string, size: nat, lo: nat, hi: nat, i: nat)
    requires size <= lo && hi <= |text| + 1 && size <= i <= |text|
  {
    forall k: nat :: lo <= k < hi && ShingleHash(text, size, k) == ShingleHash(text, size, i)
      ==> text[k - size..k] == text[i - size..i]
  }

  lemma CollisionFreeEnd(text: string, size: nat, lo: nat, hi: nat, i: nat)
    requires size <= lo < hi && hi <= |text| + 1 && size <= i <= |text| && NoCollision(text, size, lo, hi, i)
    ensures NoCollision(text, size, lo, hi - 1, i)
    ensures text[hi - 1 - size..hi - 1] == text[i - size..i] <==> ShingleHash(text, size, hi - 1) == ShingleHash(text, size, i)
  {
    hide Hash;
  }

  lemma {:induction false} CopiesExact(text: string, size: nat, lo: nat, hi: nat, i: nat)
    requires size <= lo && hi <= |text| + 1 && size <= i <= |text| && NoCollision(text, size, lo, hi, i)
    ensures Copies(text, size, lo, hi, i) == Count(Hashes(text, size, lo, hi), ShingleHash(text, size, i))
    decreases hi
  {
    hide ShingleHash, NoCollision;
    if lo < hi {
      CollisionFreeEnd(text, size, lo, hi, i);
      CopiesExact(text, size, lo, hi - 1, i);
      CountAppend(Hashes(text, size, lo, hi - 1), ShingleHash(text, size, hi - 1), ShingleHash(text, size, i));
      hide Count;
    }
  }

  /** Without collisions the signal fires exactly when the shingle just completed occurs, as text, more than
      `repeatMax` times inside the last `window + 1` characters: one more than the window holds, for the
      character that is about to leave has not left yet. */
  lemma RepeatsExactly(text: string, size: nat, window: nat, repeatMax: int, i: nat)
    requires 1 <= size <= window && size <= i <= |text|
    requires NoCollision(text, size, if i > window + 1 then size + (i - window - 1) else size, i + 1, i)
    ensures RepeatsAt(text, size, window, repeatMax, i)
      <==> Copies(text, size, if i > window + 1 then size + (i - window - 1) else size, i + 1, i) > repeatMax
  {
    hide Copies, Hashes, ShingleHash, NoCollision;
    CopiesExact(text, size, FirstLive(size, window, i - 1), i + 1, i);
  }

  /** With a shingle longer than the window nothing is ever compared: one shingle is live at a time. */
  lemma OversizedShingleNeverRepeats(text: string, size: nat, window: nat, repeatMax: int, i: nat)
    requires size > window && repeatMax >= 1 && i <= |text|
    ensures !RepeatsAt(text, size, window, repeatMax, i)
  {
    hide ShingleHash;
    if i >= FirstEnd(size) {
      var h := ShingleHash(text, size, i);
      assert Hashes(text, size, i, i + 1) == Hashes(text, size, i, i) + [h];
      assert [] + [h] == [h];
    }
  }
}
