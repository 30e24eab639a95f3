/** The five rates of all histories, in terms of the bets behind each history. */
module BranchRates {
  import opened BranchHistory
  import opened PatternTable
  import opened BranchPrediction
  import opened BranchWindows

  // ----- One history -----------------------------------------------------------------------

  /** How often an outcome occurs. */
  function Rights(outcomes: seq<bool>, b: bool): nat {
    if outcomes == [] then 0 else Rights(outcomes[..|outcomes| - 1], b) + (if outcomes[|outcomes| - 1] == b then 1 else 0)
  }

  function Except(outcomes: seq<bool>, i: nat): seq<bool>
    requires i < |outcomes|
  {
    outcomes[..i] + outcomes[i + 1..]
  }

  /** The right bets on `b` if one of the first `n` outcomes is left out, added up over all of these. */
  function RightsWithoutEach(outcomes: seq<bool>, b: bool, n: nat): nat
    requires n <= |outcomes|
  {
    if n == 0 then 0 else RightsWithoutEach(outcomes, b, n - 1) + Rights(Except(outcomes, n - 1), b)
  }

  lemma {:induction false} RightsConcat(s: seq<bool>, t: seq<bool>, b: bool)
    ensures Rights(s + t, b) == Rights(s, b) + Rights(t, b)
    decreases |t|
  {
    if t == [] {
      assert s + t == s;
    } else {
      RightsConcat(s, t[..|t| - 1], b);
      assert (s + t)[..|s + t| - 1] == s + t[..|t| - 1];
    }
  }

  lemma RightsExcept(outcomes: seq<bool>, b: bool, i: nat)
    requires i < |outcomes|
    ensures Rights(Except(outcomes, i), b) + (if outcomes[i] == b then 1 else 0) == Rights(outcomes, b)
  {
    var s, t := outcomes[..i], outcomes[i + 1..];
    assert outcomes == s + [outcomes[i]] + t;
    RightsConcat(s + [outcomes[i]], t, b);
    RightsConcat(s, [outcomes[i]], b);
    RightsConcat(s, t, b);
    assert [outcomes[i]][..0] == [];
  }

  function Product(n: nat, x: nat): nat {
    if n == 0 then 0 else Product(n - 1, x) + x
  }

  lemma WithoutNext(outcomes: seq<bool>, b: bool, i: nat)
    requires i < |outcomes|
    ensures RightsWithoutEach(outcomes, b, i + 1) + Rights(outcomes[..i + 1], b)
            == RightsWithoutEach(outcomes, b, i) + Rights(outcomes[..i], b) + Rights(outcomes, b)
  {
    RightsExcept(outcomes, b, i);
    assert outcomes[..i + 1][..i] == outcomes[..i];
  }

  lemma {:induction false} WithoutEach(outcomes: seq<bool>, b: bool, n: nat)
    requires n <= |outcomes|
    ensures RightsWithoutEach(outcomes, b, n) + Rights(outcomes[..n], b) == Product(n, Rights(outcomes, b))
    decreases n
  {
    if n > 0 {
      WithoutEach(outcomes, b, n - 1);
      WithoutNext(outcomes, b, n - 1);
    }
  }

  lemma WithoutAny(outcomes: seq<bool>, b: bool)
    requires outcomes != []
    ensures RightsWithoutEach(outcomes, b, |outcomes|) == Product(|outcomes| - 1, Rights(outcomes, b))
  {
    WithoutEach(outcomes, b, |outcomes|);
    assert outcomes[..|outcomes|] == outcomes;
  }

  function PatternIn(outcomes: seq<bool>): HistoryPattern {
    HistoryPattern(Rights(outcomes, false), Rights(outcomes, true))
  }

  lemma PatternIs(outcomes: seq<bool>, b: bool)
    requires Rights(outcomes, b) >= Rights(outcomes, !b)
    ensures PatternIn(outcomes).Total() == |outcomes| && PatternIn(outcomes).Larger() == Rights(outcomes, b)
  {
    RightsAddUp(outcomes);
  }

  /** With the first occurrence of a history discarded, the hits are the mean over which of the
      occurrences came first. */
  lemma FirstDiscardedIsMean(outcomes: seq<bool>, b: bool)
    requires outcomes != [] && Rights(outcomes, b) >= Rights(outcomes, !b)
    ensures PatternIn(outcomes).Total() == |outcomes|
    ensures Hits(SeenFirstDiscarded, PatternIn(outcomes)) == RightsWithoutEach(outcomes, b, |outcomes|) as real / |outcomes| as real
  {
    PatternIs(outcomes, b);
    WithoutAny(outcomes, b);
    MeanIs(PatternIn(outcomes), RightsWithoutEach(outcomes, b, |outcomes|));
  }

  lemma {:induction false} ProductInReals(n: nat, x: nat)
    ensures Product(n, x) as real == x as real * n as real
    decreases n
  {
    if n > 0 { ProductInReals(n - 1, x); }
  }

  lemma MeanIs(p: HistoryPattern, without: nat)
    requires p.Total() > 0 && without == Product(p.Total() - 1, p.Larger())
    ensures Hits(SeenFirstDiscarded, p) == without as real / p.Total() as real
  {
    ProductInReals(p.Total() - 1, p.Larger());
    assert p.Total() as real - 1.0 == (p.Total() - 1) as real;
  }

  lemma {:induction false} RightsAddUp(outcomes: seq<bool>)
    ensures Rights(outcomes, false) + Rights(outcomes, true) == |outcomes|
    decreases |outcomes|
  {
    if outcomes != [] { RightsAddUp(outcomes[..|outcomes| - 1]); }
  }

  // ----- All histories ---------------------------------------------------------------------

  /** No outcome has followed more than once, but one has. */
  predicate IsOnce(p: HistoryPattern) {
    p.count0 <= 1 && p.count1 <= 1 && p.count0 + p.count1 >= 1
  }

  /** The number of such histories, and how often they were followed. */
  function Onces(seen: seq<HistoryPattern>): nat {
    if seen == [] then 0 else Onces(seen[..|seen| - 1]) + (if IsOnce(seen[|seen| - 1]) then 1 else 0)
  }

  function OnceTotal(seen: seq<HistoryPattern>): nat {
    if seen == [] then 0
    else
      var p := seen[|seen| - 1];
      OnceTotal(seen[..|seen| - 1]) + (if IsOnce(p) then p.count0 + p.count1 else 0)
  }

  /** The chances that the first bet behind a history was right, added up. */
  function Chances(seen: seq<HistoryPattern>): real {
    if seen == [] then 0.0 else Chances(seen[..|seen| - 1]) + Chance(seen[|seen| - 1])
  }

  /** The share of the more frequent outcome. */
  function Chance(p: HistoryPattern): real {
    if p.count0 + p.count1 == 0 then 0.0
    else (if p.count0 > p.count1 then p.count0 else p.count1) as real / (p.count0 + p.count1) as real
  }

  lemma OnceStep(p: HistoryPattern)
    requires p.Total() > 0
    ensures Hits(SeenOnceHalf, p) == p.Larger() as real - (if IsOnce(p) then 0.5 else 0.0)
    ensures Hits(SeenOnceDiscarded, p) == p.Larger() as real - (if IsOnce(p) then 1.0 else 0.0)
    ensures Bets(SeenOnceHalf, p) == p.Total() as real
    ensures Bets(SeenOnceDiscarded, p) == p.Total() as real - (if IsOnce(p) then p.Total() as real else 0.0)
  {
  }

  lemma FirstStep(p: HistoryPattern)
    requires p.Total() > 0
    ensures Hits(SeenFirstHalf, p) == p.Larger() as real + 0.5 - Chance(p)
    ensures Hits(SeenFirstDiscarded, p) == p.Larger() as real - Chance(p)
    ensures Bets(SeenFirstHalf, p) == p.Total() as real && Bets(SeenFirstDiscarded, p) == p.Total() as real - 1.0
  {
    DivBounds(p.Larger() as real, p.Total() as real);
  }

  lemma {:induction false} OnceSums(seen: seq<HistoryPattern>)
    ensures AllHits(SeenOnceHalf, seen) == LargerSum(seen) as real - 0.5 * Onces(seen) as real
    ensures AllHits(SeenOnceDiscarded, seen) == LargerSum(seen) as real - Onces(seen) as real
    ensures AllBets(SeenOnceHalf, seen) == TotalSum(seen) as real
    ensures AllBets(SeenOnceDiscarded, seen) == TotalSum(seen) as real - OnceTotal(seen) as real
    decreases |seen|
  {
    if seen != [] {
      OnceSums(seen[..|seen| - 1]);
      if seen[|seen| - 1].Total() > 0 { OnceStep(seen[|seen| - 1]); }
    }
  }

  lemma {:induction false} FirstSums(seen: seq<HistoryPattern>)
    ensures AllHits(SeenFirstHalf, seen) == LargerSum(seen) as real + 0.5 * Occurring(seen) as real - Chances(seen)
    ensures AllHits(SeenFirstDiscarded, seen) == LargerSum(seen) as real - Chances(seen)
    ensures AllBets(SeenFirstHalf, seen) == TotalSum(seen) as real
    ensures AllBets(SeenFirstDiscarded, seen) == TotalSum(seen) as real - Occurring(seen) as real
    ensures Occurring(seen) + Seen(seen, 0) == |seen|
    decreases |seen|
  {
    if seen != [] {
      FirstSums(seen[..|seen| - 1]);
      if seen[|seen| - 1].Total() > 0 { FirstStep(seen[|seen| - 1]); }
    }
  }

  function RateFrom(hits: real, bets: real): real {
    if bets == 0.0 then -1.0 else hits / bets
  }

  /** The right bets of all bets; one half or nothing for histories behind which nothing came twice; one
      half or nothing for the first bet behind each history, instead of its chance. */
  ghost predicate AreShares(rates: Rates, seen: seq<HistoryPattern>, bets: nat, right: nat, followed: nat) {
    var all, hits, once, first, luck := bets as real, right as real, Onces(seen) as real, followed as real, Chances(seen);
    && rates.basic == RateFrom(hits, all)
    && rates.seenOnceHalf == RateFrom(hits - 0.5 * once, all)
    && rates.seenFirstHalf == RateFrom(hits + 0.5 * first - luck, all)
    && rates.seenOnceDiscarded == RateFrom(hits - once, all - OnceTotal(seen) as real)
    && rates.seenFirstDiscarded == RateFrom(hits - luck, all - first)
  }

  lemma RatesFrom(rates: Rates, seen: seq<HistoryPattern>)
    requires AreRatesOf(rates, seen)
    ensures AreShares(rates, seen, TotalSum(seen), LargerSum(seen), Occurring(seen))
  {
    BasicCountsAll(seen);
    OnceSums(seen);
    FirstSums(seen);
  }

  /** All five rates reported for histories of length `w`, in terms of the bets behind them. */
  lemma RatesMean(info: WindowInfo, r: seq<bool>, sizes: seq<nat>, w: nat)
    requires w + 1 <= |r| && IsInfo(info, r, sizes, w)
    ensures info.counters.nBranches0 <= |Histories(r, w)|
    ensures AreShares(info.rates, Histories(r, w), |r| - w, AllCorrect(r, w), |Histories(r, w)| - info.counters.nBranches0)
  {
    HistoriesAddUp(r, w);
    RatesFrom(info.rates, Histories(r, w));
    FirstSums(Histories(r, w));
  }
}
