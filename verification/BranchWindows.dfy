/** The whole analysis of a branch: one pass over the outcomes for every window size, with the tables
    of two consecutive sizes in two maps that take turns. */
module BranchWindows {
  import opened PowersOfTwo
  import opened BranchHistory
  import opened PatternTable
  import opened BranchPrediction

  datatype Rates = Rates(basic: real, seenOnceHalf: real, seenFirstHalf: real, seenOnceDiscarded: real, seenFirstDiscarded: real)

  datatype WindowInfo = WindowInfo(windowSize: nat, rates: Rates, limited: seq<LimitedPredictionRate>,
                                   nHistoryPatterns: nat, counters: Counters)

  ghost predicate Ascending(s: seq<nat>) {
    forall i, j :: 0 <= i < j < |s| ==> s[i] <= s[j]
  }

  function Sorted(s: seq<nat>): (r: seq<nat>)
    ensures |r| == |s|
  {
    if s == [] then [] else Inserted(Sorted(s[1..]), s[0])
  }

  function Inserted(s: seq<nat>, x: nat): (r: seq<nat>)
    ensures |r| == |s| + 1
  {
    if s == [] || x <= s[0] then [x] + s else [s[0]] + Inserted(s[1..], x)
  }

  lemma {:induction false} InsertedHas(s: seq<nat>, x: nat)
    ensures multiset(Inserted(s, x)) == multiset(s) + multiset{x}
    decreases |s|
  {
    if s != [] && x > s[0] {
      InsertedHas(s[1..], x);
      assert s == [s[0]] + s[1..];
    }
  }

  lemma {:induction false} InsertedAtLeast(s: seq<nat>, x: nat, low: nat)
    requires x >= low && forall i :: 0 <= i < |s| ==> s[i] >= low
    ensures forall i :: 0 <= i < |Inserted(s, x)| ==> Inserted(s, x)[i] >= low
    decreases |s|
  {
    if s != [] && x > s[0] { InsertedAtLeast(s[1..], x, low); }
  }

  lemma {:induction false} InsertedAscends(s: seq<nat>, x: nat)
    requires Ascending(s)
    ensures Ascending(Inserted(s, x))
    decreases |s|
  {
    if s != [] && x > s[0] {
      InsertedAscends(s[1..], x);
      InsertedAtLeast(s[1..], x, s[0]);
    }
  }

  lemma {:induction false} SortedAscends(s: seq<nat>)
    ensures Ascending(Sorted(s)) && multiset(Sorted(s)) == multiset(s)
    decreases |s|
  {
    if s != [] {
      SortedAscends(s[1..]);
      InsertedAscends(Sorted(s[1..]), s[0]);
      InsertedHas(Sorted(s[1..]), s[0]);
      assert s == [s[0]] + s[1..];
    }
  }

  // ----- The keys of a map in order --------------------------------------------------------

  lemma {:induction false} LeastExists(s: set<nat>) returns (k: nat)
    requires s != {}
    ensures k in s && forall j :: j in s ==> k <= j
    decreases |s|
  {
    var first :| first in s;
    var rest := s - {first};
    k := first;
    if rest != {} {
      var l := LeastExists(rest);
      if l < k { k := l; }
    }
    assert forall j :: j in s ==> j in rest || j == first;
  }

  method InKeyOrder(patterns: map<nat, nat>) returns (order: seq<nat>)
    ensures IsOrder(order, patterns) && |order| == |patterns|
  {
    order := [];
    var left := patterns.Keys;
    while left != {}
      invariant left <= patterns.Keys && |order| + |left| == |patterns.Keys|
      invariant forall i, j :: 0 <= i < j < |order| ==> order[i] < order[j]
      invariant forall key :: key in patterns <==> key in order || key in left
      invariant forall i, key :: 0 <= i < |order| && key in left ==> order[i] < key
      decreases |left|
    {
      ghost var least := LeastExists(left);
      var k :| k in left && forall j :: j in left ==> k <= j;
      order, left := order + [k], left - {k};
    }
  }

  // ----- What is reported ------------------------------------------------------------------

  ghost predicate AreRatesOf(rates: Rates, seen: seq<HistoryPattern>) {
    && rates.basic == RateOf(Basic, seen) && rates.seenOnceHalf == RateOf(SeenOnceHalf, seen)
    && rates.seenFirstHalf == RateOf(SeenFirstHalf, seen) && rates.seenOnceDiscarded == RateOf(SeenOnceDiscarded, seen)
    && rates.seenFirstDiscarded == RateOf(SeenFirstDiscarded, seen)
  }

  /** The rates of the tables of all sizes, the largest first. */
  ghost predicate AreLimitedOf(limited: seq<LimitedPredictionRate>, seen: seq<HistoryPattern>, sizes: seq<nat>, countPred: nat) {
    exists tables :: |limited| == |sizes| && AreLimited(limited, tables, multiset(seen), Sorted(sizes), countPred)
  }

  /** Everything reported for histories of length `w` follows from the outcomes `r` alone. */
  ghost predicate IsInfo(info: WindowInfo, r: seq<bool>, sizes: seq<nat>, w: nat)
    requires w + 1 <= |r|
  {
    var seen := Histories(r, w);
    && info.windowSize == w && info.nHistoryPatterns == |seen| && AreCounters(info.counters, seen)
    && AreRatesOf(info.rates, seen) && AreLimitedOf(info.limited, seen, sizes, Windows(r, w + 1))
  }

  method AllRates(prc: PredictionRateComputer) returns (rates: Rates)
    requires prc.Valid()
    ensures AreRatesOf(rates, prc.seen)
  {
    var basic := prc.PredictionRate(Basic);
    var seenOnceHalf := prc.PredictionRate(SeenOnceHalf);
    var seenFirstHalf := prc.PredictionRate(SeenFirstHalf);
    var seenOnceDiscarded := prc.PredictionRate(SeenOnceDiscarded);
    var seenFirstDiscarded := prc.PredictionRate(SeenFirstDiscarded);
    rates := Rates(basic, seenOnceHalf, seenFirstHalf, seenOnceDiscarded, seenFirstDiscarded);
  }

  /** The walk over the histories of length `w` and what it reports; `sizes` is `Sorted(given)`. */
  method Report(ghost r: seq<bool>, w: nat, prev: map<nat, nat>, cur: map<nat, nat>, sizes: seq<nat>, ghost given: seq<nat>)
    returns (info: WindowInfo)
    requires w + 1 <= |r| && w < WORD_BITS && given != [] && sizes == Sorted(given)
    requires IsTableOf(prev, r, w) && IsTableOf(cur, r, w + 1)
    ensures IsInfo(info, r, given, w)
  {
    SortedAscends(given);
    var order := InKeyOrder(prev);
    WholeWalk(r, w, prev, cur, order);
    InWord(w);
    HistoriesAddUp(r, w);
    var prc := new PredictionRateComputer();
    var queue := new PatternQueue();
    var c := WalkHistories(cur, order, sizes[|sizes| - 1], prc, queue);
    var rates := AllRates(prc);
    ghost var tables;
    var limited;
    limited, tables := queue.LimitedRates(sizes, c.countPred);
    assert AreLimited(limited, tables, multiset(Histories(r, w)), Sorted(given), Windows(r, w + 1));
    info := WindowInfo(w, rates, limited, |prev|, c);
  }

  lemma InWord(w: nat)
    requires w < WORD_BITS
    ensures Pow2(w) <= HALF_RANGE
  {
    Pow2Monotone(w, WORD_BITS - 1);
    Ranges();
  }

  ghost predicate AreInfos(result: seq<WindowInfo>, r: seq<bool>, sizes: seq<nat>) {
    |result| < |r| && forall i :: 0 <= i < |result| ==> IsInfo(result[i], r, sizes, i + 1)
  }

  lemma OneMoreInfo(result: seq<WindowInfo>, info: WindowInfo, r: seq<bool>, sizes: seq<nat>)
    requires AreInfos(result, r, sizes) && |result| + 1 < |r| && IsInfo(info, r, sizes, |result| + 1)
    ensures AreInfos(result + [info], r, sizes)
  {
  }

  ghost predicate IsTableOf(patterns: map<nat, nat>, r: seq<bool>, w: nat) {
    IsTable(Keys(r, w), Windows(r, w), patterns)
  }

  /** One of the two maps has the table of the last size done, and all smaller sizes are reported. */
  ghost predicate Reached(r: seq<bool>, sizes: seq<nat>, windowSize: nat, last: map<nat, nat>, result: seq<WindowInfo>) {
    && AreInfos(result, r, sizes)
    && if windowSize == 0 then result == [] else |result| == windowSize - 1 && IsTableOf(last, r, windowSize)
  }

  /** The table of one more window size; from the second size on the histories of the size before are
      reported. */
  method NextWindow(r: seq<bool>, windowSize: nat, sizes: seq<nat>, ghost given: seq<nat>, last: map<nat, nat>,
                    result: seq<WindowInfo>)
    returns (patterns: map<nat, nat>, result': seq<WindowInfo>)
    requires 1 <= windowSize <= |r| && windowSize <= WORD_BITS && given != [] && sizes == Sorted(given)
    requires Reached(r, given, windowSize - 1, last, result)
    ensures Reached(r, given, windowSize, patterns, result')
  {
    var count;
    patterns, count := CountPatterns(r, windowSize);
    result' := result;
    if windowSize > 1 {
      var info := Report(r, windowSize - 1, last, patterns, sizes, given);
      OneMoreInfo(result, info, r, given);
      result' := result + [info];
    }
  }

  method ComputePredictionRate(r: seq<bool>, historyBufferSizeMax: nat, nTableEntries: seq<nat>) returns (result: seq<WindowInfo>)
    requires historyBufferSizeMax < |r| && historyBufferSizeMax < WORD_BITS && nTableEntries != []
    ensures |result| == historyBufferSizeMax && AreInfos(result, r, nTableEntries)
  {
    var sizes := Sorted(nTableEntries);
    var two: seq<map<nat, nat>> := [map[], map[]];
    result := [];
    var windowSize := 1;
    while windowSize <= historyBufferSizeMax + 1
      invariant 1 <= windowSize <= historyBufferSizeMax + 2 && |two| == 2
      invariant Reached(r, nTableEntries, windowSize - 1, two[1 - windowSize % 2], result)
    {
      var patterns;
      patterns, result := NextWindow(r, windowSize, sizes, nTableEntries, two[1 - windowSize % 2], result);
      two := two[windowSize % 2 := patterns];
      windowSize := windowSize + 1;
    }
  }

  function Below(n: nat): set<nat> {
    if n == 0 then {} else Below(n - 1) + {n - 1}
  }

  lemma {:induction false} BelowSize(n: nat)
    ensures |Below(n)| == n && forall k: nat :: k in Below(n) <==> k < n
    decreases n
  {
    if n > 0 { BelowSize(n - 1); }
  }

  lemma SubsetSize(a: set<nat>, b: set<nat>)
    requires a <= b
    ensures |a| <= |b|
  {
    assert b == a + (b - a);
  }

  /** So the error of too many patterns is never reported. */
  lemma NeverTooMany(patterns: map<nat, nat>, r: seq<bool>, w: nat)
    requires w <= |r| && IsTableOf(patterns, r, w)
    ensures |patterns| <= Pow2(w)
  {
    LongerWindows(r, w);
    BelowSize(Pow2(w));
    forall key | key in patterns ensures key in Below(Pow2(w)) {
      if key >= Pow2(w) { NoneAbove(Keys(r, w), Pow2(w), key, Windows(r, w)); }
    }
    SubsetSize(patterns.Keys, Below(Pow2(w)));
  }

  // ----- What the report means -------------------------------------------------------------

  /** The basic rate is the share of correct bets; at most one history has no successor. */
  lemma InfoMeans(info: WindowInfo, r: seq<bool>, sizes: seq<nat>, w: nat)
    requires w + 1 <= |r| && IsInfo(info, r, sizes, w)
    ensures info.counters.countPred == |r| - w && info.counters.nBranches0 <= 1
    ensures info.rates.basic == AllCorrect(r, w) as real / (|r| - w) as real
  {
    HistoriesAddUp(r, w);
    BasicCountsAll(Histories(r, w));
  }

  lemma LimitedAt(limited: seq<LimitedPredictionRate>, tables: seq<Table>, all: multiset<HistoryPattern>, sorted: seq<nat>,
                  countPred: nat, i: nat, choice: multiset<HistoryPattern>)
    requires AreStored(limited, tables, all, sorted, countPred) && |limited| == |sorted| && Ascending(sorted)
    requires Sum(all, TotalOf) == countPred as real && i < |sorted|
    requires choice <= all && |choice| <= sorted[|sorted| - 1 - i]
    ensures limited[i].nEntries == sorted[|sorted| - 1 - i]
    ensures AtMost(Ratio(Sum(choice, TotalOf), countPred), limited[i].fractionStored)
    ensures i > 0 ==> AtMost(limited[i].fractionStored, limited[i - 1].fractionStored)
  {
    var n := sorted[|sorted| - 1 - i];
    assert IsStored(limited[i], tables[i], all, n, countPred);
    FractionIsBest(limited[i], tables[i], all, n, countPred, choice);
    if i > 0 {
      var larger := sorted[|sorted| - 1 - (i - 1)];
      assert IsStored(limited[i - 1], tables[i - 1], all, larger, countPred);
      FractionNeverGrows(limited[i], tables[i], n, limited[i - 1], tables[i - 1], larger, all, countPred);
    }
  }

  lemma LimitedParts(limited: seq<LimitedPredictionRate>, r: seq<bool>, sizes: seq<nat>, w: nat, i: nat,
                     choice: multiset<HistoryPattern>)
    requires w + 1 <= |r| && AreLimitedOf(limited, Histories(r, w), sizes, |r| - w) && i < |sizes|
    requires choice <= multiset(Histories(r, w)) && |choice| <= Sorted(sizes)[|sizes| - 1 - i]
    ensures i < |limited| && limited[i].nEntries == Sorted(sizes)[|sizes| - 1 - i]
    ensures AtMost(Ratio(Sum(choice, TotalOf), |r| - w), limited[i].fractionStored)
    ensures i > 0 ==> AtMost(limited[i].fractionStored, limited[i - 1].fractionStored)
  {
    var seen := Histories(r, w);
    HistoriesAddUp(r, w);
    SumsAgree(seen);
    SortedAscends(sizes);
    var tables :| |limited| == |sizes| && AreLimited(limited, tables, multiset(seen), Sorted(sizes), |r| - w);
    LimitedAt(limited, tables, multiset(seen), Sorted(sizes), |r| - w, i, choice);
  }

  ghost predicate IsAtMost(p: Ratio, q: Ratio) {
    p.whole > 0 && q.whole > 0 && p.Value() <= q.Value()
  }

  /** Every limited rate reported is of a table whose size is one of those given, largest first, no
      choice of that many histories covers more, and a smaller table never covers more. */
  lemma LimitedIsBest(limited: seq<LimitedPredictionRate>, r: seq<bool>, sizes: seq<nat>, w: nat, i: nat,
                      choice: multiset<HistoryPattern>)
    requires w + 1 <= |r| && AreLimitedOf(limited, Histories(r, w), sizes, |r| - w) && i < |sizes|
    requires choice <= multiset(Histories(r, w)) && |choice| <= Sorted(sizes)[|sizes| - 1 - i]
    ensures i < |limited| && limited[i].nEntries == Sorted(sizes)[|sizes| - 1 - i]
    ensures IsAtMost(Ratio(Sum(choice, TotalOf), |r| - w), limited[i].fractionStored)
    ensures i > 0 ==> IsAtMost(limited[i].fractionStored, limited[i - 1].fractionStored)
  {
    LimitedParts(limited, r, sizes, w, i, choice);
    AtMostValues(Ratio(Sum(choice, TotalOf), |r| - w), limited[i].fractionStored);
    if i > 0 { AtMostValues(limited[i].fractionStored, limited[i - 1].fractionStored); }
  }

  lemma AtMostValues(p: Ratio, q: Ratio)
    requires AtMost(p, q) && p.whole > 0
    ensures IsAtMost(p, q)
  {
    RatiosOrdered(p, q);
  }

  /** The fraction stored is one minus the share of what the table has given up. */
  lemma StoredIsRest(rate: LimitedPredictionRate, t: Table, all: multiset<HistoryPattern>, n: nat, countPred: nat)
    requires IsStored(rate, t, all, n, countPred) && countPred > 0
    ensures rate.fractionStored.whole == countPred
    ensures rate.fractionStored.Value() == 1.0 - Ratio(t.rest.Total() as real, countPred).Value()
  {
    RestIsLeft(Ratio(t.rest.Total() as real, countPred));
  }
}
