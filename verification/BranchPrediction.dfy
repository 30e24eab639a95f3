/** The walk over the histories of one length with the table of the histories one longer. */
module BranchPrediction {
  import opened Basics
  import opened PowersOfTwo
  import opened BranchHistory
  import opened PatternTable

  function Lookup(patterns: map<nat, nat>, key: nat): nat {
    if key in patterns then patterns[key] else 0
  }

  function Successors(cur: map<nat, nat>, key: nat): HistoryPattern {
    HistoryPattern(Lookup(cur, 2 * key), Lookup(cur, 2 * key + 1))
  }

  function AllSuccessors(cur: map<nat, nat>, order: seq<nat>): seq<HistoryPattern> {
    seq(|order|, i requires 0 <= i < |order| => Successors(cur, order[i]))
  }

  /** The keys of a map in increasing order. */
  ghost predicate IsOrder(order: seq<nat>, patterns: map<nat, nat>) {
    && (forall i, j :: 0 <= i < j < |order| ==> order[i] < order[j])
    && forall key :: key in patterns <==> key in order
  }

  /** `prev` and `cur` are the tables of the windows of two consecutive sizes. */
  ghost predicate AreTables(keys: seq<nat>, longer: seq<nat>, prev: map<nat, nat>, cur: map<nat, nat>) {
    Extends(keys, longer) && IsTable(keys, |keys|, prev) && IsTable(longer, |longer|, cur)
  }

  // ----- The histories of one length -------------------------------------------------------

  /** How often a history is followed by each outcome. */
  function PatternOf(longer: seq<nat>, key: nat): HistoryPattern {
    HistoryPattern(Times(longer, 2 * key), Times(longer, 2 * key + 1))
  }

  /** The patterns of the histories that occur and have a key below `n`. */
  function HistoriesBelow(keys: seq<nat>, longer: seq<nat>, n: nat): seq<HistoryPattern> {
    if n == 0 then []
    else HistoriesBelow(keys, longer, n - 1) + (if Times(keys, n - 1) > 0 then [PatternOf(longer, n - 1)] else [])
  }

  /** The patterns of all histories of length `w` in `r`. */
  function Histories(r: seq<bool>, w: nat): seq<HistoryPattern> {
    HistoriesBelow(Keys(r, w), Keys(r, w + 1), Pow2(w))
  }

  function TotalSum(seen: seq<HistoryPattern>): nat {
    if seen == [] then 0 else TotalSum(seen[..|seen| - 1]) + seen[|seen| - 1].Total()
  }

  function LargerSum(seen: seq<HistoryPattern>): nat {
    if seen == [] then 0 else LargerSum(seen[..|seen| - 1]) + seen[|seen| - 1].Larger()
  }

  /** The number of histories that occurred `n` times with a successor. */
  function Seen(seen: seq<HistoryPattern>, n: nat): nat {
    if seen == [] then 0 else Seen(seen[..|seen| - 1], n) + (if seen[|seen| - 1].Total() == n then 1 else 0)
  }

  lemma SumsSnoc(seen: seq<HistoryPattern>, p: HistoryPattern, n: nat)
    ensures TotalSum(seen + [p]) == TotalSum(seen) + p.Total()
    ensures LargerSum(seen + [p]) == LargerSum(seen) + p.Larger()
    ensures Seen(seen + [p], n) == Seen(seen, n) + (if p.Total() == n then 1 else 0)
  {
    assert (seen + [p])[..|seen|] == seen;
  }

  lemma {:induction false} CountGrows(keys: seq<nat>, key: nat, m: nat, n: nat)
    requires m <= n <= |keys|
    ensures Count(keys, key, m) <= Count(keys, key, n)
    decreases n
  {
    if m < n {
      CountGrows(keys, key, m, n - 1);
    }
  }

  /** A history is followed by an outcome as often as it occurs before the last window, so one that
      does not occur is worth nothing. */
  lemma PatternCounts(keys: seq<nat>, longer: seq<nat>, key: nat)
    requires Extends(keys, longer)
    ensures PatternOf(longer, key).Total() == Count(keys, key, |longer|)
    ensures PatternOf(longer, key).Larger() == Correct(longer, key)
    ensures Times(keys, key) == 0 ==> Correct(longer, key) == 0 && Count(keys, key, |longer|) == 0
  {
    CountSplits(keys, longer, key, |longer|);
    CountGrows(keys, key, |longer|, |keys|);
  }

  lemma HistoriesStep(keys: seq<nat>, longer: seq<nat>, key: nat, p: HistoryPattern)
    requires p == PatternOf(longer, key)
    ensures var front := HistoriesBelow(keys, longer, key);
      HistoriesBelow(keys, longer, key + 1) == if Times(keys, key) > 0 then front + [p] else front
  {
  }

  lemma BetsStep(keys: seq<nat>, longer: seq<nat>, key: nat, p: HistoryPattern)
    requires p == PatternOf(longer, key) && Extends(keys, longer)
    ensures LargerSum(HistoriesBelow(keys, longer, key + 1)) == LargerSum(HistoriesBelow(keys, longer, key)) + Correct(longer, key)
    ensures TotalSum(HistoriesBelow(keys, longer, key + 1))
            == TotalSum(HistoriesBelow(keys, longer, key)) + Count(keys, key, |longer|)
  {
    PatternCounts(keys, longer, key);
    SumsSnoc(HistoriesBelow(keys, longer, key), p, 0);
    HistoriesStep(keys, longer, key, p);
  }

  lemma {:induction false} BetsBelow(keys: seq<nat>, longer: seq<nat>, n: nat)
    requires Extends(keys, longer)
    ensures LargerSum(HistoriesBelow(keys, longer, n)) == CorrectFrom(longer, 0, n)
    ensures TotalSum(HistoriesBelow(keys, longer, n)) == CountBelow(keys, n, |longer|)
    decreases n
  {
    if n > 0 {
      BetsBelow(keys, longer, n - 1);
      BetsStep(keys, longer, n - 1, PatternOf(longer, n - 1));
    }
  }

  lemma NoneStep(keys: seq<nat>, longer: seq<nat>, key: nat, p: HistoryPattern)
    requires p == PatternOf(longer, key) && Extends(keys, longer)
    ensures Seen(HistoriesBelow(keys, longer, key + 1), 0)
            == Seen(HistoriesBelow(keys, longer, key), 0) + (if keys[|longer|] == key && Times(keys, key) == 1 then 1 else 0)
  {
    PatternCounts(keys, longer, key);
    SumsSnoc(HistoriesBelow(keys, longer, key), p, 0);
    HistoriesStep(keys, longer, key, p);
    assert Times(keys, key) == Count(keys, key, |longer|) + (if keys[|longer|] == key then 1 else 0);
  }

  /** Only the history of the last window may be followed by nothing. */
  lemma {:induction false} NoneBelow(keys: seq<nat>, longer: seq<nat>, n: nat)
    requires Extends(keys, longer)
    ensures var last := keys[|longer|];
      Seen(HistoriesBelow(keys, longer, n), 0) == if last < n && Times(keys, last) == 1 then 1 else 0
    decreases n
  {
    if n > 0 {
      NoneBelow(keys, longer, n - 1);
      NoneStep(keys, longer, n - 1, PatternOf(longer, n - 1));
    }
  }

  /** The hits of all histories of length `w` are all correct bets, they are followed by an outcome as
      often as there are longer windows, and at most one of them, that of the last window, is followed
      by none. */
  lemma HistoriesAddUp(r: seq<bool>, w: nat)
    requires w + 1 <= |r|
    ensures LargerSum(Histories(r, w)) == AllCorrect(r, w)
    ensures TotalSum(Histories(r, w)) == Windows(r, w + 1)
    ensures Seen(Histories(r, w), 0) == if Times(Keys(r, w), KeyAt(r, |r| - w, w)) == 1 then 1 else 0
  {
    var keys, longer := Keys(r, w), Keys(r, w + 1);
    LongerWindows(r, w);
    BetsBelow(keys, longer, Pow2(w));
    CountBelowAll(keys, Pow2(w), |longer|);
    NoneBelow(keys, longer, Pow2(w));
  }

  // ----- The walk --------------------------------------------------------------------------

  lemma LookupCounts(keys: seq<nat>, patterns: map<nat, nat>, key: nat)
    requires IsTable(keys, |keys|, patterns)
    ensures Lookup(patterns, key) == Times(keys, key)
  {
  }

  lemma SuccessorsAreCounts(longer: seq<nat>, cur: map<nat, nat>, key: nat)
    requires IsTable(longer, |longer|, cur)
    ensures Successors(cur, key) == PatternOf(longer, key)
  {
    LookupCounts(longer, cur, 2 * key);
    LookupCounts(longer, cur, 2 * key + 1);
  }

  /** Where the walk stands before the `k`-th history. */
  function Before(order: seq<nat>, k: nat): nat
    requires k <= |order|
  {
    if k == 0 then 0 else order[k - 1] + 1
  }

  /** The keys skipped by the walk do not occur. */
  lemma OrderStep(keys: seq<nat>, prev: map<nat, nat>, order: seq<nat>, k: nat)
    requires IsTable(keys, |keys|, prev) && IsOrder(order, prev) && k < |order|
    ensures Before(order, k) <= order[k] && Times(keys, order[k]) > 0
    ensures forall key :: Before(order, k) <= key < order[k] ==> Times(keys, key) == 0
  {
    assert order[k] in prev;
    forall key | Before(order, k) <= key < order[k] ensures Times(keys, key) == 0 {
      assert key !in order;
    }
  }

  lemma {:induction false} NoneSkipped(keys: seq<nat>, longer: seq<nat>, lo: nat, hi: nat)
    requires lo <= hi && forall key :: lo <= key < hi ==> Times(keys, key) == 0
    ensures HistoriesBelow(keys, longer, hi) == HistoriesBelow(keys, longer, lo)
    decreases hi - lo
  {
    if lo < hi {
      NoneSkipped(keys, longer, lo, hi - 1);
      assert Times(keys, hi - 1) == 0;
    }
  }

  lemma WalkStep(keys: seq<nat>, longer: seq<nat>, prev: map<nat, nat>, cur: map<nat, nat>, order: seq<nat>, k: nat)
    requires AreTables(keys, longer, prev, cur) && IsOrder(order, prev) && k < |order|
    ensures HistoriesBelow(keys, longer, Before(order, k + 1))
            == HistoriesBelow(keys, longer, Before(order, k)) + [Successors(cur, order[k])]
  {
    OrderStep(keys, prev, order, k);
    NoneSkipped(keys, longer, Before(order, k), order[k]);
    SuccessorsAreCounts(longer, cur, order[k]);
    HistoriesStep(keys, longer, order[k], Successors(cur, order[k]));
  }

  lemma {:induction false} WalkSoFar(keys: seq<nat>, longer: seq<nat>, prev: map<nat, nat>, cur: map<nat, nat>,
                                     order: seq<nat>, k: nat)
    requires AreTables(keys, longer, prev, cur) && IsOrder(order, prev) && k <= |order|
    ensures AllSuccessors(cur, order)[..k] == HistoriesBelow(keys, longer, Before(order, k))
    decreases k
  {
    if k > 0 {
      WalkSoFar(keys, longer, prev, cur, order, k - 1);
      WalkStep(keys, longer, prev, cur, order, k - 1);
      var ps := AllSuccessors(cur, order);
      assert ps[..k] == ps[..k - 1] + [ps[k - 1]];
    }
  }

  lemma WalkEnds(keys: seq<nat>, prev: map<nat, nat>, order: seq<nat>, all: nat)
    requires IsTable(keys, |keys|, prev) && IsOrder(order, prev) && forall s :: 0 <= s < |keys| ==> keys[s] < all
    ensures Before(order, |order|) <= all
    ensures forall key :: Before(order, |order|) <= key < all ==> Times(keys, key) == 0
  {
    if order != [] {
      var top := order[|order| - 1];
      assert top in prev;
      if top >= all { NoneAbove(keys, all, top, |keys|); }
    }
    forall key | Before(order, |order|) <= key < all ensures Times(keys, key) == 0 {
      assert key !in order;
    }
  }

  lemma {:induction false} NoneAbove(keys: seq<nat>, n: nat, key: nat, m: nat)
    requires m <= |keys| && key >= n && forall s :: 0 <= s < |keys| ==> keys[s] < n
    ensures Count(keys, key, m) == 0
    decreases m
  {
    if m > 0 {
      NoneAbove(keys, n, key, m - 1);
    }
  }

  /** With the tables of two consecutive window sizes the walk visits all histories, whose keys leave
      room for one more outcome in a word. */
  lemma WholeWalk(r: seq<bool>, w: nat, prev: map<nat, nat>, cur: map<nat, nat>, order: seq<nat>)
    requires w + 1 <= |r| && IsOrder(order, prev)
    requires IsTable(Keys(r, w), Windows(r, w), prev) && IsTable(Keys(r, w + 1), Windows(r, w + 1), cur)
    ensures AllSuccessors(cur, order) == Histories(r, w)
    ensures forall i :: 0 <= i < |order| ==> order[i] < Pow2(w)
  {
    var keys, longer, k := Keys(r, w), Keys(r, w + 1), |order|;
    LongerWindows(r, w);
    WalkSoFar(keys, longer, prev, cur, order, k);
    WalkEnds(keys, prev, order, Pow2(w));
    NoneSkipped(keys, longer, Before(order, k), Pow2(w));
    assert AllSuccessors(cur, order)[..k] == AllSuccessors(cur, order);
  }

  method SuccessorsOf(cur: map<nat, nat>, key: nat) returns (hp: HistoryPattern)
    requires key < HALF_RANGE
    ensures hp == Successors(cur, key)
  {
    var key0 := 2 * key % WORD_RANGE;
    var key1 := key0 + 1;
    var count0 := if key0 in cur then cur[key0] else 0;
    var count1 := if key1 in cur then cur[key1] else 0;
    hp := HistoryPattern(count0, count1);
  }

  /** What the walk counts. */
  datatype Counters = Counters(countPred: nat, nBranches0: nat, nBranches1: nat, nBranchesMore: nat)

  ghost predicate AreCounters(c: Counters, seen: seq<HistoryPattern>) {
    && c.countPred == TotalSum(seen) && c.nBranches0 == Seen(seen, 0) && c.nBranches1 == Seen(seen, 1)
    && c.nBranches0 + c.nBranches1 + c.nBranchesMore == |seen|
  }

  method CountBranch(c: Counters, hp: HistoryPattern, ghost seen: seq<HistoryPattern>) returns (c': Counters)
    requires AreCounters(c, seen)
    ensures AreCounters(c', seen + [hp])
  {
    SumsSnoc(seen, hp, 0);
    SumsSnoc(seen, hp, 1);
    c' := c.(countPred := c.countPred + hp.Total());
    if hp.Total() == 0 {
      c' := c'.(nBranches0 := c'.nBranches0 + 1);
    } else if hp.Total() == 1 {
      c' := c'.(nBranches1 := c'.nBranches1 + 1);
    } else {
      c' := c'.(nBranchesMore := c'.nBranchesMore + 1);
    }
  }

  /** Walk over the histories of one length in the order of their keys, feeding the rates, the counters
      and the queue. */
  method WalkHistories(cur: map<nat, nat>, order: seq<nat>, maxSize: nat, prc: PredictionRateComputer, queue: PatternQueue)
    returns (c: Counters)
    requires prc.Valid() && prc.seen == [] && queue.Holds(maxSize) && queue.q + queue.others == multiset{}
    requires forall i :: 0 <= i < |order| ==> order[i] < HALF_RANGE
    modifies prc, queue
    ensures prc.Valid() && prc.seen == AllSuccessors(cur, order) && AreCounters(c, prc.seen)
    ensures queue.Holds(maxSize) && queue.q + queue.others == multiset(prc.seen)
  {
    c := Counters(0, 0, 0, 0);
    var i := 0;
    while i < |order|
      invariant 0 <= i <= |order| && prc.seen == AllSuccessors(cur, order)[..i]
      invariant prc.Valid() && AreCounters(c, prc.seen)
      invariant queue.Holds(maxSize) && queue.q + queue.others == multiset(prc.seen)
    {
      var hp := SuccessorsOf(cur, order[i]);
      c := CountBranch(c, hp, prc.seen);
      prc.RegisterPattern(hp.count0, hp.count1);
      queue.Push(hp, maxSize);
      i := i + 1;
    }
  }

  lemma {:induction false} SumsAgree(seen: seq<HistoryPattern>)
    ensures Sum(multiset(seen), TotalOf) == TotalSum(seen) as real
    decreases |seen|
  {
    if seen != [] {
      var front, p := seen[..|seen| - 1], seen[|seen| - 1];
      SumsAgree(front);
      assert seen == front + [p];
      SumAdds(multiset(front), TotalOf, p);
    }
  }

  /** The basic rate is about all bets. */
  lemma {:induction false} BasicCountsAll(seen: seq<HistoryPattern>)
    ensures AllHits(Basic, seen) == LargerSum(seen) as real && AllBets(Basic, seen) == TotalSum(seen) as real
    decreases |seen|
  {
    if seen != [] { BasicCountsAll(seen[..|seen| - 1]); }
  }
}
