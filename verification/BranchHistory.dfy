/** Branch outcomes seen through a sliding window: how often each history occurs, and what longer
    histories are worth to a predictor that always bets on the more frequent outcome. */
module BranchHistory {
  import opened Basics
  import opened PowersOfTwo

  function BitOf(b: bool): nat {
    if b then 1 else 0
  }

  /** A window as a binary number, the oldest outcome first. */
  function KeyOf(w: seq<bool>): nat {
    if w == [] then 0 else 2 * KeyOf(w[..|w| - 1]) + BitOf(w[|w| - 1])
  }

  lemma {:induction false} KeyBound(w: seq<bool>)
    ensures KeyOf(w) < Pow2(|w|)
    decreases |w|
  {
    if w != [] {
      KeyBound(w[..|w| - 1]);
    }
  }

  /** Different histories of one length have different keys. */
  lemma {:induction false} KeyInjective(a: seq<bool>, b: seq<bool>)
    requires |a| == |b| && KeyOf(a) == KeyOf(b)
    ensures a == b
    decreases |a|
  {
    if a != [] {
      KeyInjective(a[..|a| - 1], b[..|b| - 1]);
    }
  }

  lemma {:induction false} KeyCons(b: bool, w: seq<bool>)
    ensures KeyOf([b] + w) == BitOf(b) * Pow2(|w|) + KeyOf(w)
    decreases |w|
  {
    if w != [] {
      var front := w[..|w| - 1];
      KeyCons(b, front);
      assert ([b] + w)[..|w|] == [b] + front;
    } else {
      assert [b] + w == [b];
    }
  }

  function KeyAt(r: seq<bool>, s: nat, w: nat): nat
    requires s + w <= |r|
  {
    KeyOf(r[s..s + w])
  }

  /** One more outcome behind the window, or in front of it. */
  lemma KeySteps(r: seq<bool>, s: nat, w: nat)
    requires s + w < |r|
    ensures KeyAt(r, s, w + 1) == 2 * KeyAt(r, s, w) + BitOf(r[s + w])
    ensures KeyAt(r, s, w + 1) == BitOf(r[s]) * Pow2(w) + KeyAt(r, s + 1, w)
    ensures KeyAt(r, s + 1, w) < Pow2(w)
  {
    assert r[s..s + w + 1][..w] == r[s..s + w];
    assert r[s..s + w + 1] == [r[s]] + r[s + 1..s + 1 + w];
    KeyCons(r[s], r[s + 1..s + 1 + w]);
    KeyBound(r[s + 1..s + 1 + w]);
  }

  function Windows(r: seq<bool>, w: nat): nat {
    if w <= |r| then |r| - w + 1 else 0
  }

  /** The keys of all windows, in order. */
  function Keys(r: seq<bool>, w: nat): seq<nat> {
    seq(Windows(r, w), s requires 0 <= s < Windows(r, w) => KeyAt(r, s, w))
  }

  // ----- Counting keys ---------------------------------------------------------------------

  /** How often `key` is among the first `m` keys. */
  function Count(keys: seq<nat>, key: nat, m: nat): nat
    requires m <= |keys|
  {
    if m == 0 then 0 else Count(keys, key, m - 1) + (if keys[m - 1] == key then 1 else 0)
  }

  function Times(keys: seq<nat>, key: nat): nat {
    Count(keys, key, |keys|)
  }

  /** The windows one longer, as extensions to the right. */
  ghost predicate Extends(keys: seq<nat>, longer: seq<nat>) {
    |keys| == |longer| + 1 && forall s :: 0 <= s < |longer| ==> longer[s] == 2 * keys[s] || longer[s] == 2 * keys[s] + 1
  }

  /** The windows one longer, as extensions to the left by a bit of value `p`. */
  ghost predicate Prepends(keys: seq<nat>, longer: seq<nat>, p: nat) {
    |keys| == |longer| + 1 && forall s :: 0 <= s < |longer| ==> PrependsAt(keys, longer, p, s)
  }

  predicate PrependsAt(keys: seq<nat>, longer: seq<nat>, p: nat, s: nat) {
    && s + 1 < |keys| && s < |longer| && keys[s + 1] < p
    && (longer[s] == keys[s + 1] || longer[s] == p + keys[s + 1])
  }

  lemma LongerWindows(r: seq<bool>, w: nat)
    requires w <= |r|
    ensures Extends(Keys(r, w), Keys(r, w + 1)) && Prepends(Keys(r, w), Keys(r, w + 1), Pow2(w))
    ensures forall s :: 0 <= s < |Keys(r, w)| ==> Keys(r, w)[s] < Pow2(w)
  {
    var keys, longer := Keys(r, w), Keys(r, w + 1);
    forall s | 0 <= s < |longer|
      ensures (longer[s] == 2 * keys[s] || longer[s] == 2 * keys[s] + 1) && PrependsAt(keys, longer, Pow2(w), s)
    {
      KeySteps(r, s, w);
    }
    forall s | 0 <= s < |keys| ensures keys[s] < Pow2(w) {
      KeyBound(r[s..s + w]);
    }
  }

  lemma {:induction false} CountSplits(keys: seq<nat>, longer: seq<nat>, key: nat, m: nat)
    requires Extends(keys, longer) && m <= |longer|
    ensures Count(keys, key, m) == Count(longer, 2 * key, m) + Count(longer, 2 * key + 1, m)
    decreases m
  {
    if m > 0 {
      CountSplits(keys, longer, key, m - 1);
    }
  }

  /** Every occurrence of a history but one at the very end is followed by one of the two outcomes. */
  lemma OccurrencesSplit(keys: seq<nat>, longer: seq<nat>, key: nat)
    requires Extends(keys, longer)
    ensures Times(keys, key)
            == Times(longer, 2 * key) + Times(longer, 2 * key + 1) + (if keys[|longer|] == key then 1 else 0)
  {
    CountSplits(keys, longer, key, |longer|);
  }

  lemma {:induction false} CountGrowsLeft(keys: seq<nat>, longer: seq<nat>, p: nat, key: nat, m: nat)
    requires Prepends(keys, longer, p) && m <= |longer| && key < p
    ensures Count(keys, key, m + 1) == (if keys[0] == key then 1 else 0) + Count(longer, key, m) + Count(longer, key + p, m)
    decreases m
  {
    if m > 0 {
      CountGrowsLeft(keys, longer, p, key, m - 1);
      assert PrependsAt(keys, longer, p, m - 1);
    } else {
      assert Count(keys, key, 1) == Count(keys, key, 0) + (if keys[0] == key then 1 else 0);
    }
  }

  /** Every occurrence of a history but one at the very beginning is preceded by one of the two outcomes. */
  lemma OccurrencesGrowLeft(keys: seq<nat>, longer: seq<nat>, p: nat, key: nat)
    requires Prepends(keys, longer, p) && key < p
    ensures Times(keys, key) == (if keys[0] == key then 1 else 0) + Times(longer, key) + Times(longer, key + p)
  {
    CountGrowsLeft(keys, longer, p, key, |longer|);
  }

  /** The occurrences of the keys below `n` among the first `m`. */
  function CountBelow(keys: seq<nat>, n: nat, m: nat): nat
    requires m <= |keys|
  {
    if n == 0 then 0 else CountBelow(keys, n - 1, m) + Count(keys, n - 1, m)
  }

  lemma {:induction false} CountBelowStep(keys: seq<nat>, n: nat, m: nat)
    requires 0 < m <= |keys|
    ensures CountBelow(keys, n, m) == CountBelow(keys, n, m - 1) + (if keys[m - 1] < n then 1 else 0)
    decreases n
  {
    if n > 0 {
      CountBelowStep(keys, n - 1, m);
    }
  }

  lemma {:induction false} CountBelowNone(keys: seq<nat>, n: nat)
    ensures CountBelow(keys, n, 0) == 0
    decreases n
  {
    if n > 0 {
      CountBelowNone(keys, n - 1);
    }
  }

  lemma {:induction false} CountBelowAll(keys: seq<nat>, n: nat, m: nat)
    requires m <= |keys| && forall s :: 0 <= s < |keys| ==> keys[s] < n
    ensures CountBelow(keys, n, m) == m
    decreases m
  {
    if m > 0 {
      CountBelowStep(keys, n, m);
      CountBelowAll(keys, n, m - 1);
    } else {
      CountBelowNone(keys, n);
    }
  }

  /** Every window is counted once. */
  lemma OccurrencesAddUp(r: seq<bool>, w: nat)
    requires w <= |r|
    ensures CountBelow(Keys(r, w), Pow2(w), Windows(r, w)) == Windows(r, w)
  {
    LongerWindows(r, w);
    CountBelowAll(Keys(r, w), Pow2(w), Windows(r, w));
  }

  /** What is counted are the occurrences of the history itself. */
  lemma {:induction false} CountIsOccurrences(r: seq<bool>, pattern: seq<bool>, m: nat)
    requires m <= Windows(r, |pattern|)
    ensures Count(Keys(r, |pattern|), KeyOf(pattern), m) == Starts(r, pattern, m)
    decreases m
  {
    if m > 0 {
      CountIsOccurrences(r, pattern, m - 1);
      if KeyAt(r, m - 1, |pattern|) == KeyOf(pattern) {
        KeyInjective(r[m - 1..m - 1 + |pattern|], pattern);
      }
    }
  }

  /** The positions below `m` at which `pattern` stands in `r`. */
  function Starts(r: seq<bool>, pattern: seq<bool>, m: nat): nat
    requires m <= Windows(r, |pattern|)
  {
    if m == 0 then 0
    else Starts(r, pattern, m - 1) + (if r[m - 1..m - 1 + |pattern|] == pattern then 1 else 0)
  }

  // ----- Correct bets ----------------------------------------------------------------------

  /** The correct bets behind one history, where `longer` are the windows one longer. */
  function Correct(longer: seq<nat>, key: nat): nat {
    Max(Times(longer, 2 * key), Times(longer, 2 * key + 1))
  }

  /** The correct bets behind the histories with keys from `lo` to `hi`. */
  function CorrectFrom(longer: seq<nat>, lo: nat, hi: nat): nat
    requires lo <= hi
    decreases hi
  {
    if lo == hi then 0 else CorrectFrom(longer, lo, hi - 1) + Correct(longer, hi - 1)
  }

  lemma {:induction false} CorrectConcat(longer: seq<nat>, lo: nat, mid: nat, hi: nat)
    requires lo <= mid <= hi
    ensures CorrectFrom(longer, lo, hi) == CorrectFrom(longer, lo, mid) + CorrectFrom(longer, mid, hi)
    decreases hi
  {
    if mid < hi {
      CorrectConcat(longer, lo, mid, hi - 1);
    }
  }

  /** All correct bets with histories of length `w`. */
  function AllCorrect(r: seq<bool>, w: nat): nat {
    CorrectFrom(Keys(r, w + 1), 0, Pow2(w))
  }

  /** One history and its two longer forms; only the one at the very beginning may lose a bet. */
  lemma LongerIsBetter(keys: seq<nat>, longer: seq<nat>, half: nat, key: nat)
    requires Prepends(keys, longer, 2 * half) && key < half
    ensures Correct(keys, key)
            <= Correct(longer, key) + Correct(longer, key + half) + (if keys[0] / 2 == key then 1 else 0)
  {
    OccurrencesGrowLeft(keys, longer, 2 * half, 2 * key);
    OccurrencesGrowLeft(keys, longer, 2 * half, 2 * key + 1);
    assert 2 * key + 2 * half == 2 * (key + half);
  }

  lemma {:induction false} LongerIsBetterFrom(keys: seq<nat>, longer: seq<nat>, half: nat, n: nat)
    requires Prepends(keys, longer, 2 * half) && n <= half
    ensures CorrectFrom(keys, 0, n)
            <= CorrectFrom(longer, 0, n) + CorrectFrom(longer, half, half + n) + (if keys[0] / 2 < n then 1 else 0)
    decreases n
  {
    if n > 0 {
      LongerIsBetterFrom(keys, longer, half, n - 1);
      LongerIsBetter(keys, longer, half, n - 1);
    }
  }

  /** Growing the history by one loses at most one correct bet, whatever the outcomes. */
  lemma GrowingLosesAtMostOne(r: seq<bool>, w: nat)
    requires w + 1 <= |r|
    ensures AllCorrect(r, w) <= AllCorrect(r, w + 1) + 1
  {
    var p := Pow2(w);
    LongerWindows(r, w + 1);
    LongerIsBetterFrom(Keys(r, w + 1), Keys(r, w + 2), p, p);
    CorrectConcat(Keys(r, w + 2), 0, p, p + p);
  }

  // ----- The patterns of one window size ---------------------------------------------------

  /** A table holds exactly the keys that occur, with how often they do. */
  ghost predicate IsTable(keys: seq<nat>, m: nat, patterns: map<nat, nat>)
    requires m <= |keys|
  {
    forall key :: (key in patterns <==> Count(keys, key, m) > 0) && (key in patterns ==> patterns[key] == Count(keys, key, m))
  }

  /** `key & ~(1 << j)` on 64-bit words. */
  function ClearBit(key: nat, j: nat): nat
    requires j < WORD_BITS
  {
    Value(Bits(key, WORD_BITS)[j := false])
  }

  /** Clearing the highest bit leaves the rest. */
  lemma {:induction false} ClearBitDrops(key: nat, n: nat, j: nat, b: bool, rest: nat)
    requires j < n && rest < Pow2(j) && key == (if b then Pow2(j) else 0) + rest
    ensures Value(Bits(key, n)[j := false]) == rest
    decreases j
  {
    var bits := Bits(key, n);
    if j == 0 {
      ValueOfBits(0, n - 1);
      assert bits[0 := false][1..] == Bits(0, n - 1);
    } else {
      ClearBitDrops(key / 2, n - 1, j - 1, b, rest / 2);
      assert bits[j := false][1..] == Bits(key / 2, n - 1)[j - 1 := false];
    }
  }

  /** The first key is put together bit by bit, each later one is rolled on from the one before, in
      64-bit arithmetic. */
  method FirstKey(r: seq<bool>, w: nat) returns (key: nat)
    requires 1 <= w <= WORD_BITS && w <= |r|
    ensures key == KeyAt(r, 0, w)
  {
    key := 0;
    var i: nat := 0;
    while i < w
      invariant i <= w && key == KeyAt(r, 0, i) * Pow2(w - i)
    {
      KeySteps(r, 0, i);
      FirstKeyStep(KeyAt(r, 0, i), BitOf(r[i]), w - i - 1);
      key := key + BitOf(r[i]) * Pow2(w - i - 1);
      i := i + 1;
    }
  }

  lemma FirstKeyStep(k: nat, b: nat, j: nat)
    ensures k * Pow2(j + 1) + b * Pow2(j) == (2 * k + b) * Pow2(j)
  {
  }

  lemma FitsInWord(j: nat, rest: nat, b: nat)
    requires j < WORD_BITS && rest < Pow2(j) && b < 2
    ensures (2 * rest + b) % WORD_RANGE == 2 * rest + b
  {
    Pow2Monotone(j, WORD_BITS - 1);
    Ranges();
  }

  /** Masking the oldest outcome out of a key. */
  lemma DropOldest(r: seq<bool>, s: nat, w: nat)
    requires 1 <= w <= WORD_BITS && s + w < |r|
    ensures ClearBit(KeyAt(r, s, w), w - 1) == KeyAt(r, s + 1, w - 1) < Pow2(w - 1)
  {
    KeySteps(r, s, w - 1);
    ClearBitDrops(KeyAt(r, s, w), WORD_BITS, w - 1, r[s], KeyAt(r, s + 1, w - 1));
  }

  lemma RollKey(r: seq<bool>, s: nat, w: nat)
    requires 1 <= w <= WORD_BITS && s + w < |r|
    ensures (2 * ClearBit(KeyAt(r, s, w), w - 1) + BitOf(r[s + w])) % WORD_RANGE == KeyAt(r, s + 1, w)
  {
    var rest := KeyAt(r, s + 1, w - 1);
    DropOldest(r, s, w);
    assert KeyAt(r, s + 1, w) == 2 * rest + BitOf(r[s + w]) by { KeySteps(r, s + 1, w - 1); }
    FitsInWord(w - 1, rest, BitOf(r[s + w]));
  }

  /** Slide the window over the outcomes. */
  method CountPatterns(r: seq<bool>, w: nat) returns (patterns: map<nat, nat>, count: nat)
    requires 1 <= w <= WORD_BITS && w <= |r|
    ensures count == Windows(r, w) && IsTable(Keys(r, w), count, patterns)
  {
    patterns, count := map[], 0;
    var key := 0;
    var start: nat := 0;
    while start < |r| - w + 1
      invariant start <= |r| - w + 1 && count == start
      invariant start > 0 ==> key == KeyAt(r, start - 1, w)
      invariant IsTable(Keys(r, w), start, patterns)
    {
      if start == 0 {
        key := FirstKey(r, w);
      } else {
        RollKey(r, start - 1, w);
        key := (2 * ClearBit(key, w - 1) + BitOf(r[start + w - 1])) % WORD_RANGE;
      }
      patterns := patterns[key := (if key in patterns then patterns[key] else 0) + 1];
      count := count + 1;
      start := start + 1;
    }
  }
}
