/** Rounding a 64-bit word up to a power of two. */
module PowersOfTwo {

  const WORD_BITS: nat := 64
  const WORD_RANGE: nat := 0x1_0000_0000_0000_0000
  const HALF_RANGE: nat := 0x8000_0000_0000_0000

  function Pow2(n: nat): (p: nat)
    ensures p >= 1
  {
    if n == 0 then 1 else 2 * Pow2(n - 1)
  }

  lemma {:induction false} Pow2Monotone(m: nat, n: nat)
    requires m <= n
    ensures Pow2(m) <= Pow2(n)
    ensures m < n ==> 2 * Pow2(m) <= Pow2(n)
    decreases n
  {
    if m < n { Pow2Monotone(m, n - 1); }
  }

  lemma {:induction false} Pow2Sum(m: nat, n: nat)
    ensures Pow2(m + n) == Pow2(m) * Pow2(n)
    decreases m
  {
    if m > 0 { Pow2Sum(m - 1, n); }
  }

  lemma Ranges()
    ensures Pow2(WORD_BITS) == WORD_RANGE && Pow2(WORD_BITS - 1) == HALF_RANGE
  {
    Pow2Sum(1, 1);
    Pow2Sum(2, 2);
    Pow2Sum(4, 4);
    Pow2Sum(8, 8);
    Pow2Sum(16, 16);
    Pow2Sum(32, 32);
  }

  ghost predicate IsPow2(p: nat) {
    exists k: nat :: p == Pow2(k)
  }

  // ----- Words as bits, the least significant first ---------------------------------------

  type Word = w: seq<bool> | |w| == WORD_BITS witness seq(WORD_BITS, _ => false)

  function Value(w: seq<bool>): nat {
    if w == [] then 0 else (if w[0] then 1 else 0) + 2 * Value(w[1..])
  }

  function Bits(v: nat, n: nat): (w: seq<bool>)
    ensures |w| == n
  {
    if n == 0 then [] else [v % 2 == 1] + Bits(v / 2, n - 1)
  }

  lemma {:induction false} ValueOfBits(v: nat, n: nat)
    requires v < Pow2(n)
    ensures Value(Bits(v, n)) == v
    decreases n
  {
    if n > 0 {
      ValueOfBits(v / 2, n - 1);
      assert Bits(v, n)[1..] == Bits(v / 2, n - 1);
    }
  }

  function ShiftRight(w: Word, k: nat): Word
    requires k <= WORD_BITS
  {
    w[k..] + seq(k, _ => false)
  }

  function Or(a: Word, b: Word): Word {
    seq(WORD_BITS, i requires 0 <= i < WORD_BITS => a[i] || b[i])
  }

  /** Bit `i` of `w` says whether `v` has a bit among the `s` from `i` upwards. */
  ghost predicate Smeared(v: Word, w: Word, s: nat) {
    forall i :: 0 <= i < WORD_BITS ==> (w[i] <==> exists j :: i <= j < WORD_BITS && j < i + s && v[j])
  }

  lemma SmearDoubles(v: Word, w: Word, s: nat)
    requires Smeared(v, w, s) && s <= WORD_BITS
    ensures Smeared(v, Or(w, ShiftRight(w, s)), 2 * s)
  {
    var u := Or(w, ShiftRight(w, s));
    forall i | 0 <= i < WORD_BITS
      ensures u[i] <==> exists j :: i <= j < WORD_BITS && j < i + 2 * s && v[j]
    {
      assert ShiftRight(w, s)[i] <==> i + s < WORD_BITS && w[i + s];
      if exists j :: i <= j < WORD_BITS && j < i + 2 * s && v[j] {
        var j :| i <= j < WORD_BITS && j < i + 2 * s && v[j];
        if j < i + s { assert w[i]; } else { assert w[i + s]; }
      }
    }
  }

  /** Bits `0..m` set and no others. */
  lemma {:induction false} ValueOfOnes(w: seq<bool>, m: nat)
    requires m <= |w| && forall i :: 0 <= i < |w| ==> (w[i] <==> i < m)
    ensures Value(w) == Pow2(m) - 1
    decreases |w|
  {
    if w != [] {
      ValueOfOnes(w[1..], if m == 0 then 0 else m - 1);
    }
  }

  lemma {:induction false} ValueByHighBit(w: seq<bool>, m: nat)
    requires m < |w| && w[m] && forall i :: m < i < |w| ==> !w[i]
    ensures Pow2(m) <= Value(w) < Pow2(m + 1)
    decreases |w|
  {
    if m == 0 {
      ValueOfOnes(w[1..], 0);
    } else {
      ValueByHighBit(w[1..], m - 1);
    }
  }

  /** Smearing over the whole width turns a value into the all-ones value of the same length. */
  lemma SmearedValue(v: Word, w: Word)
    requires Smeared(v, w, WORD_BITS)
    ensures Value(v) == 0 ==> Value(w) == 0
    ensures Value(v) > 0 ==> exists m: nat :: m < WORD_BITS && Value(w) == Pow2(m + 1) - 1 && Pow2(m) <= Value(v) <= Value(w)
  {
    if exists j :: 0 <= j < WORD_BITS && v[j] {
      var m := HighBit(v, WORD_BITS);
      ValueByHighBit(v, m);
      ValueOfOnes(w, m + 1);
    } else {
      ValueOfOnes(v, 0);
      ValueOfOnes(w, 0);
    }
  }

  lemma {:induction false} HighBit(v: Word, n: nat) returns (m: nat)
    requires n <= WORD_BITS && exists j :: 0 <= j < n && v[j]
    requires forall i :: n <= i < WORD_BITS ==> !v[i]
    ensures m < WORD_BITS && v[m] && forall i :: m < i < WORD_BITS ==> !v[i]
    decreases n
  {
    if v[n - 1] { m := n - 1; } else { m := HighBit(v, n - 1); }
  }

  // ----- The rounding ----------------------------------------------------------------------

  /** The least power of two that is at least `v`. */
  function LeastPow2(v: nat): (p: nat)
    requires v >= 1
    ensures v <= p < 2 * v
  {
    if v == 1 then 1 else 2 * LeastPow2((v + 1) / 2)
  }

  lemma {:induction false} LeastPow2IsPow2(v: nat)
    requires v >= 1
    ensures IsPow2(LeastPow2(v))
  {
    if v == 1 {
      assert LeastPow2(v) == Pow2(0);
    } else {
      LeastPow2IsPow2((v + 1) / 2);
      var k: nat :| LeastPow2((v + 1) / 2) == Pow2(k);
      assert LeastPow2(v) == Pow2(k + 1);
    }
  }

  lemma Pow2Unique(v: nat, a: nat, b: nat)
    requires v >= 1 && v <= Pow2(a) < 2 * v && v <= Pow2(b) < 2 * v
    ensures a == b
  {
    if a < b { Pow2Monotone(a, b); } else if b < a { Pow2Monotone(b, a); }
  }

  /** `LeastPow2(v)` is a power of two, is at least `v`, and no smaller power of two is. */
  lemma LeastPow2IsLeast(v: nat, k: nat)
    requires v >= 1
    ensures IsPow2(LeastPow2(v)) && v <= LeastPow2(v)
    ensures v <= Pow2(k) <==> LeastPow2(v) <= Pow2(k)
  {
    LeastPow2IsPow2(v);
    var m: nat :| LeastPow2(v) == Pow2(m);
    if v <= Pow2(k) && k < m { Pow2Monotone(k, m); }
    if k >= m { Pow2Monotone(m, k); }
  }

  lemma {:induction false} Wraps(a: nat, m: nat)
    requires m > 0 && a <= m
    ensures a < m ==> a % m == a
    ensures a == m ==> a % m == 0
  {
  }

  /** Rounding up an `n`-bit value exceeds the width exactly above the top power, and then hits 2^n. */
  lemma LeastPow2Bounded(v: nat, n: nat)
    requires n > 0 && 1 <= v < Pow2(n)
    ensures v <= Pow2(n - 1) ==> LeastPow2(v) < Pow2(n)
    ensures v > Pow2(n - 1) ==> LeastPow2(v) == Pow2(n)
  {
    LeastPow2IsLeast(v, n - 1);
    LeastPow2IsLeast(v, n);
    if v > Pow2(n - 1) {
      var k: nat :| LeastPow2(v) == Pow2(k);
      Pow2Unique(v, k, n);
    }
  }

  /** What the 64-bit computation yields: 0 stays 0, and the result wraps to 0 beyond 2^63. */
  function RoundUp(v: nat): nat {
    if v == 0 then 0 else LeastPow2(v) % WORD_RANGE
  }

  /** All the bits of `v - 1` smeared to the right of its highest one. */
  method Smear(v: nat) returns (w: Word)
    requires 1 <= v < WORD_RANGE
    ensures Value(w) + 1 == LeastPow2(v)
  {
    Ranges();
    var w0: Word := Bits(v - 1, WORD_BITS);
    ValueOfBits(v - 1, WORD_BITS);
    w := w0;
    assert Smeared(w0, w, 1);
    SmearDoubles(w0, w, 1);
    w := Or(w, ShiftRight(w, 1));
    SmearDoubles(w0, w, 2);
    w := Or(w, ShiftRight(w, 2));
    SmearDoubles(w0, w, 4);
    w := Or(w, ShiftRight(w, 4));
    SmearDoubles(w0, w, 8);
    w := Or(w, ShiftRight(w, 8));
    SmearDoubles(w0, w, 16);
    w := Or(w, ShiftRight(w, 16));
    SmearDoubles(w0, w, 32);
    w := Or(w, ShiftRight(w, 32));
    SmearedIsLeast(v, w0, w);
  }

  lemma SmearedIsLeast(v: nat, w0: Word, w: Word)
    requires v >= 1 && Value(w0) == v - 1 && Smeared(w0, w, WORD_BITS)
    ensures Value(w) + 1 == LeastPow2(v)
  {
    SmearedValue(w0, w);
    LeastPow2IsPow2(v);
    var k: nat :| LeastPow2(v) == Pow2(k);
    if v > 1 {
      var m: nat :| m < WORD_BITS && Value(w) == Pow2(m + 1) - 1 && Pow2(m) <= v - 1 <= Value(w);
      Pow2Unique(v, k, m + 1);
    }
  }

  /** Round up by smearing `v - 1` and adding one, in 64-bit arithmetic. */
  method UpperPowerOfTwo(v: nat) returns (r: nat)
    requires v < WORD_RANGE
    ensures r == RoundUp(v)
  {
    if v == 0 { return v; }
    var w := Smear(v);
    r := (Value(w) + 1) % WORD_RANGE;
  }

  /** The computation gives the least power of two at or above `v` exactly for `1 <= v <= 2^63`;
      above that it wraps to 0. */
  lemma RoundUpExact(v: nat)
    requires 1 <= v < WORD_RANGE
    ensures RoundUp(v) == LeastPow2(v) <==> v <= HALF_RANGE
    ensures v > HALF_RANGE ==> RoundUp(v) == 0
  {
    Ranges();
    LeastPow2Bounded(v, WORD_BITS);
    Wraps(LeastPow2(v), WORD_RANGE);
  }
}
