/** Fully associative LRU caches, and what the reuse histogram says about their hits. */
module LruCache {
  import opened Basics
  import opened PowersOfTwo
  import opened ReuseSpec

  function WithoutFirst(s: seq<nat>, x: nat): seq<nat> {
    if s == [] then [] else if s[0] == x then s[1..] else [s[0]] + WithoutFirst(s[1..], x)
  }

  function Take(s: seq<nat>, n: nat): seq<nat> {
    if s == [] || n == 0 then [] else [s[0]] + Take(s[1..], n - 1)
  }

  /** One access to a cache of `c` lines, the most recent one first: a hit moves the line to the
      front; a miss brings it in and, if the cache overflows, evicts the least recent line. */
  function LruStep(cache: seq<nat>, line: nat, c: nat): seq<nat> {
    if line in cache then [line] + WithoutFirst(cache, line) else Take([line] + cache, c)
  }

  function LruCacheAfter(h: Trace, c: nat): (cache: seq<nat>) {
    if h == [] then [] else LruStep(LruCacheAfter(h[..|h| - 1], c), h[|h| - 1].line, c)
  }

  function LruHits(h: Trace, c: nat): nat {
    if h == [] then 0
    else LruHits(h[..|h| - 1], c) + (if h[|h| - 1].line in LruCacheAfter(h[..|h| - 1], c) then 1 else 0)
  }

  /** All lines of the trace by recency. */
  ghost function Recency(h: Trace): seq<nat> {
    if h == [] then [] else [h[|h| - 1].line] + WithoutFirst(Recency(h[..|h| - 1]), h[|h| - 1].line)
  }

  ghost predicate NoDuplicates(s: seq<nat>) {
    s == [] || (s[0] !in s[1..] && NoDuplicates(s[1..]))
  }

  /** The elements in front of `x`; all of them if `x` is missing. */
  ghost function Before(s: seq<nat>, x: nat): set<nat> {
    if s == [] || s[0] == x then {} else {s[0]} + Before(s[1..], x)
  }

  lemma {:induction false} WithoutKeeps(s: seq<nat>, y: nat, x: nat)
    requires NoDuplicates(s)
    ensures NoDuplicates(WithoutFirst(s, y))
    ensures x in WithoutFirst(s, y) <==> x in s && x != y
    ensures x != y ==> Before(WithoutFirst(s, y), x) == Before(s, x) - {y}
    decreases |s|
  {
    if s != [] {
      WithoutKeeps(s[1..], y, x);
      BeforeMembers(s[1..], x);
      if s[0] != y {
        WithoutKeeps(s[1..], y, s[0]);
        assert WithoutFirst(s, y)[1..] == WithoutFirst(s[1..], y);
      }
    }
  }

  lemma {:induction false} BeforeMembers(s: seq<nat>, x: nat)
    ensures forall y :: y in Before(s, x) ==> y in s
    decreases |s|
  {
    if s != [] { BeforeMembers(s[1..], x); }
  }

  lemma {:induction false} InTake(s: seq<nat>, x: nat, c: nat)
    requires NoDuplicates(s)
    ensures x in Take(s, c) <==> x in s && |Before(s, x)| < c
    decreases |s|
  {
    if s != [] && c > 0 {
      InTake(s[1..], x, c - 1);
      BeforeMembers(s[1..], x);
      assert Take(s, c)[1..] == Take(s[1..], c - 1);
    }
  }

  lemma {:induction false} TakeWithout(s: seq<nat>, x: nat, c: nat)
    requires NoDuplicates(s) && c > 0
    ensures if x in Take(s, c) then WithoutFirst(Take(s, c), x) == Take(WithoutFirst(s, x), c - 1)
            else Take(Take(s, c), c - 1) == Take(WithoutFirst(s, x), c - 1)
    decreases |s|
  {
    if s != [] {
      assert Take(s, c)[1..] == Take(s[1..], c - 1);
      if s[0] != x {
        assert WithoutFirst(s, x)[1..] == WithoutFirst(s[1..], x);
        if c > 1 { TakeWithout(s[1..], x, c - 1); }
      }
    }
  }

  /** A cache of `c` lines holds the `c` most recent lines. */
  lemma {:induction false} CacheIsRecent(h: Trace, c: nat)
    ensures NoDuplicates(Recency(h))
    ensures LruCacheAfter(h, c) == Take(Recency(h), c)
    decreases |h|
  {
    if h != [] {
      var g, x := h[..|h| - 1], h[|h| - 1].line;
      var s := Recency(g);
      CacheIsRecent(g, c);
      WithoutKeeps(s, x, x);
      assert ([x] + WithoutFirst(s, x))[1..] == WithoutFirst(s, x);
      if c > 0 {
        TakeWithout(s, x, c);
        assert ([x] + Take(s, c))[1..] == Take(s, c);
      }
    }
  }

  lemma BeforeFront(s: seq<nat>, y: nat, x: nat)
    requires NoDuplicates(s)
    ensures Before([y] + WithoutFirst(s, y), x) == if x == y then {} else Before(s, x) + {y}
    ensures x in [y] + WithoutFirst(s, y) <==> x == y || x in s
  {
    WithoutKeeps(s, y, x);
    assert ([y] + WithoutFirst(s, y))[1..] == WithoutFirst(s, y);
  }

  lemma LinesSince(g: Trace, a: Access, line: nat)
    ensures var h := g + [a];
      && Latest(h, line) == (if a.line == line then |g| else Latest(g, line))
      && (a.line == line ==> Lines(h[Latest(h, line) + 1..]) == {})
      && (a.line != line ==> Lines(h[Latest(h, line) + 1..]) == Lines(g[Latest(g, line) + 1..]) + {a.line})
  {
    var h := g + [a];
    assert h[..|h| - 1] == g;
    if a.line == line {
      assert h[|g| + 1..] == [] && Lines([]) == {};
    } else {
      var i := Latest(g, line);
      assert h[i + 1..] == g[i + 1..] + [a];
      LinesSnoc(g[i + 1..], a);
    }
  }

  /** The lines in front of a line in the recency order are those accessed since its latest access. */
  ghost predicate Placed(h: Trace, s: seq<nat>, line: nat) {
    && (line in s <==> Latest(h, line) >= 0)
    && (line in s ==> Before(s, line) == Lines(h[Latest(h, line) + 1..]))
  }

  lemma PlacedSnoc(g: Trace, s: seq<nat>, a: Access, line: nat)
    requires Placed(g, s, line) && NoDuplicates(s)
    ensures Placed(g + [a], [a.line] + WithoutFirst(s, a.line), line)
  {
    BeforeFront(s, a.line, line);
    LinesSince(g, a, line);
  }

  lemma {:induction false} RecencyPosition(h: Trace, line: nat)
    ensures Placed(h, Recency(h), line)
    decreases |h|
  {
    if h != [] {
      var g, a := h[..|h| - 1], h[|h| - 1];
      RecencyPosition(g, line);
      CacheIsRecent(g, 0);
      PlacedSnoc(g, Recency(g), a, line);
      assert g + [a] == h;
    }
  }

  /** A line is in a cache of `c` lines exactly if its next access reuses it at a distance below `c`. */
  lemma HitIffNear(h: Trace, line: nat, c: nat)
    ensures line in LruCacheAfter(h, c) <==> Distance(h, line).Some? && Distance(h, line).value < c
  {
    CacheIsRecent(h, c);
    RecencyPosition(h, line);
    InTake(Recency(h), line, c);
  }

  /** The hits of an LRU cache are the reuses at a distance below its size. */
  lemma {:induction false} HitsAreNearReuses(h: Trace, c: nat)
    ensures LruHits(h, c) == ReusesBelow(h, c)
    decreases |h|
  {
    if h != [] {
      HitsAreNearReuses(h[..|h| - 1], c);
      HitIffNear(h[..|h| - 1], h[|h| - 1].line, c);
    }
  }

  // ----- The histogram as a cache model ----------------------------------------------------

  /** No stamp exceeds 2^63: then no distance is beyond what the rounding can handle. */
  ghost predicate Fits(h: Trace) {
    Stamped(h) && forall i :: 0 <= i < |h| ==> h[i].time <= HALF_RANGE
  }

  lemma DistancesFit(h: Trace)
    requires Fits(h)
    ensures forall i :: 0 <= i < |h| && Distance(h[..i], h[i].line).Some? ==> Distance(h[..i], h[i].line).value <= HALF_RANGE
  {
    forall i | 0 <= i < |h| && Distance(h[..i], h[i].line).Some?
      ensures Distance(h[..i], h[i].line).value <= HALF_RANGE
    {
      DistanceBounded(h[..i], h[i].line);
    }
  }

  /** A bin boundary that separates the distances below `c` makes the prefix sum a hit count. */
  lemma SeparatingBinIsLruHits(h: Trace, resolution: nat, finalBin: nat, b: nat, c: nat)
    requires Fits(h)
    requires forall d: nat :: d <= HALF_RANGE ==> (BinOf(d, resolution, finalBin) <= b <==> d < c)
    ensures PrefixSum(Histogram(h, resolution, finalBin), b) == LruHits(h, c)
  {
    DistancesFit(h);
    PrefixSumCounts(h, resolution, finalBin, b, c, HALF_RANGE);
    HitsAreNearReuses(h, c);
  }

  /** With no resolution, the prefix sum up to bin 2^k is the number of hits of a cache of
      2^k + 1 lines. */
  lemma PowerBinsAreLruHits(h: Trace, finalBin: nat, k: nat)
    requires Fits(h)
    ensures PrefixSum(Histogram(h, 0, finalBin), Pow2(k)) == LruHits(h, Pow2(k) + 1)
  {
    forall d: nat | d <= HALF_RANGE ensures BinOf(d, 0, finalBin) <= Pow2(k) <==> d < Pow2(k) + 1 {
      if d > 0 {
        RoundUpExact(d);
        LeastPow2IsLeast(d, k);
      }
    }
    SeparatingBinIsLruHits(h, 0, finalBin, Pow2(k), Pow2(k) + 1);
  }

  /** With no resolution, bin 0 holds the hits of a one-line cache. */
  lemma ZeroBinIsOneLine(h: Trace, finalBin: nat)
    requires Fits(h)
    ensures PrefixSum(Histogram(h, 0, finalBin), 0) == LruHits(h, 1)
  {
    forall d: nat | d <= HALF_RANGE ensures BinOf(d, 0, finalBin) <= 0 <==> d < 1 {
      if d > 0 { RoundUpExact(d); }
    }
    SeparatingBinIsLruHits(h, 0, finalBin, 0, 1);
  }

  /** With a resolution, the prefix sum up to a multiple `b` of it within the final bin is the number
      of hits of a cache of `b` lines. */
  lemma LinearBinsAreLruHits(h: Trace, resolution: nat, finalBin: nat, m: nat)
    requires Fits(h) && resolution > 0 && m * resolution <= finalBin <= HALF_RANGE
    ensures PrefixSum(Histogram(h, resolution, finalBin), m * resolution) == LruHits(h, m * resolution)
  {
    var b := m * resolution;
    forall d: nat | d <= HALF_RANGE ensures BinOf(d, resolution, finalBin) <= b <==> d < b {
      if d > finalBin { RoundUpExact(d); } else { NextMultiple(d, resolution, m); }
    }
    SeparatingBinIsLruHits(h, resolution, finalBin, b, b);
  }

  /** `d + (r - d % r)` is the least multiple of `r` above `d`. */
  lemma NextMultiple(d: nat, r: nat, m: nat)
    requires r > 0
    ensures d + (r - d % r) <= m * r <==> d < m * r
  {
    var q := d / r;
    assert d == q * r + d % r;
    assert d + (r - d % r) == (q + 1) * r;
    if m <= q { assert m * r <= q * r; } else { assert (q + 1) * r <= m * r; }
  }

  /** Up to the final bin, a distance goes to the least multiple of the resolution above it. */
  lemma LinearBin(d: nat, resolution: nat, finalBin: nat)
    requires 0 < resolution && d <= finalBin
    ensures var bin := BinOf(d, resolution, finalBin);
      && bin > d && (exists m: nat :: bin == m * resolution)
      && (forall m: nat :: m * resolution > d ==> bin <= m * resolution)
  {
    var bin, m := BinOf(d, resolution, finalBin), d / resolution + 1;
    assert bin == m * resolution;
    forall m: nat | m * resolution > d ensures bin <= m * resolution {
      NextMultiple(d, resolution, m);
    }
  }

  /** The last linear bin. */
  function LastLinear(resolution: nat, finalBin: nat): nat
    requires resolution > 0
  {
    finalBin + (resolution - finalBin % resolution)
  }

  /** Beyond the linear bins the power-of-two bins are hit counts again. */
  lemma PowerBinsBeyondLinear(h: Trace, resolution: nat, finalBin: nat, k: nat)
    requires Fits(h) && resolution > 0 && LastLinear(resolution, finalBin) <= Pow2(k)
    ensures PrefixSum(Histogram(h, resolution, finalBin), Pow2(k)) == LruHits(h, Pow2(k) + 1)
  {
    forall d: nat | d <= HALF_RANGE ensures BinOf(d, resolution, finalBin) <= Pow2(k) <==> d < Pow2(k) + 1 {
      if d > finalBin {
        RoundUpExact(d);
        LeastPow2IsLeast(d, k);
      } else {
        LinearOrdered(d, finalBin, resolution);
      }
    }
    SeparatingBinIsLruHits(h, resolution, finalBin, Pow2(k), Pow2(k) + 1);
  }

  /** With a resolution the bins keep the order of the distances exactly if the last linear bin
      does not exceed the first power-of-two bin. */
  lemma BinsOrderedIff(resolution: nat, finalBin: nat)
    requires resolution > 0 && finalBin < HALF_RANGE
    ensures (forall d: nat, e: nat :: d <= e <= HALF_RANGE ==> BinOf(d, resolution, finalBin) <= BinOf(e, resolution, finalBin))
       <==> LastLinear(resolution, finalBin) <= LeastPow2(finalBin + 1)
  {
    var f := finalBin;
    RoundUpExact(f + 1);
    if forall d: nat, e: nat :: d <= e <= HALF_RANGE ==> BinOf(d, resolution, f) <= BinOf(e, resolution, f) {
      assert BinOf(f, resolution, f) <= BinOf(f + 1, resolution, f);
    }
    if LastLinear(resolution, f) <= LeastPow2(f + 1) {
      forall d: nat, e: nat | d <= e <= HALF_RANGE ensures BinOf(d, resolution, f) <= BinOf(e, resolution, f) {
        if e <= f {
          LinearOrdered(d, e, resolution);
        } else {
          RoundUpExact(e);
          PowersOrdered(if d <= f then f + 1 else d, e);
          if d <= f { LinearOrdered(d, f, resolution); } else { RoundUpExact(d); }
        }
      }
    }
  }

  lemma LinearOrdered(d: nat, e: nat, r: nat)
    requires r > 0 && d <= e
    ensures d + (r - d % r) <= e + (r - e % r)
  {
    var m := e / r + 1;
    assert e + (r - e % r) == m * r;
    NextMultiple(d, r, m);
  }

  lemma PowersOrdered(d: nat, e: nat)
    requires 1 <= d <= e
    ensures LeastPow2(d) <= LeastPow2(e)
  {
    LeastPow2IsPow2(e);
    var k: nat :| LeastPow2(e) == Pow2(k);
    LeastPow2IsLeast(d, k);
  }

  /** They do not keep it in general: with resolution 100 and final bin 25, distance 20 lands in
      bin 100 but distance 26 in bin 32. */
  lemma BinsOutOfOrder()
    ensures BinOf(20, 100, 25) == 100 && BinOf(26, 100, 25) == 32
  {
    RoundUpExact(26);
  }
}
