/** Scores of history patterns, and tables of limited size that keep the patterns seen most. */
module PatternTable {

  /** How often a history was followed by each outcome. */
  datatype HistoryPattern = HistoryPattern(count0: nat, count1: nat) {
    function Total(): nat {
      count0 + count1
    }

    function Larger(): nat {
      if count0 > count1 then count0 else count1
    }

    /** Correct bets on the more frequent outcome, the first of which counts half. */
    function Score(): real {
      if Total() == 0 then 0.0 else Larger() as real - 0.5
    }
  }

  // ----- Rates -----------------------------------------------------------------------------

  datatype RateType = Basic | SeenOnceHalf | SeenFirstHalf | SeenOnceDiscarded | SeenFirstDiscarded

  /** What one pattern adds to the correct bets, and to all bets, of a rate. */
  function Hits(t: RateType, p: HistoryPattern): real
    requires p.Total() > 0
  {
    var mx, tt := p.Larger() as real, p.Total() as real;
    match t
    case Basic => mx
    case SeenOnceHalf => if mx == 1.0 then 0.5 else mx
    case SeenFirstHalf => mx + 0.5 - mx / tt
    case SeenOnceDiscarded => if mx == 1.0 then 0.0 else mx
    case SeenFirstDiscarded => mx * (tt - 1.0) / tt
  }

  function Bets(t: RateType, p: HistoryPattern): real {
    var mx, tt := p.Larger() as real, p.Total() as real;
    match t
    case SeenOnceDiscarded => if mx == 1.0 then 0.0 else tt
    case SeenFirstDiscarded => tt - 1.0
    case _ => tt
  }

  function AllHits(t: RateType, seen: seq<HistoryPattern>): real {
    if seen == [] then 0.0
    else
      var p := seen[|seen| - 1];
      AllHits(t, seen[..|seen| - 1]) + (if p.Total() == 0 then 0.0 else Hits(t, p))
  }

  function AllBets(t: RateType, seen: seq<HistoryPattern>): real {
    if seen == [] then 0.0
    else
      var p := seen[|seen| - 1];
      AllBets(t, seen[..|seen| - 1]) + (if p.Total() == 0 then 0.0 else Bets(t, p))
  }

  /** A rate of the patterns seen, or -1 without any bets. */
  function RateOf(t: RateType, seen: seq<HistoryPattern>): real {
    if AllBets(t, seen) == 0.0 then -1.0 else AllHits(t, seen) / AllBets(t, seen)
  }

  /** The patterns that occurred. */
  function Occurring(seen: seq<HistoryPattern>): nat {
    if seen == [] then 0 else Occurring(seen[..|seen| - 1]) + (if seen[|seen| - 1].Total() > 0 then 1 else 0)
  }

  lemma DivIs(a: real, b: real, c: real)
    requires c > 0.0 && a == b * c
    ensures a / c == b
  {
  }

  lemma TimesAtMost(q: real, c: real)
    requires c > 0.0 && 0.0 <= q * c <= c
    ensures 0.0 <= q <= 1.0
  {
  }

  lemma TimesNotNegative(a: real, b: real)
    requires a >= 0.0 && b >= 0.0
    ensures a * b >= 0.0
  {
  }

  lemma DivBounds(mx: real, tt: real)
    requires 0.0 <= mx <= tt && tt >= 1.0
    ensures 0.0 <= mx / tt <= 1.0 && mx * (tt - 1.0) / tt == mx - mx / tt && 0.0 <= mx - mx / tt <= tt - 1.0
  {
    var q := mx / tt;
    assert q * tt == mx;
    TimesAtMost(q, tt);
    assert mx * (tt - 1.0) == (mx - q) * tt;
    DivIs(mx * (tt - 1.0), mx - q, tt);
    TimesNotNegative(1.0 - q, tt - 1.0);
    TimesNotNegative(q, tt - 1.0);
  }

  lemma HitsBounded(t: RateType, p: HistoryPattern)
    requires p.Total() > 0
    ensures 0.0 <= Hits(t, p) <= Bets(t, p)
    ensures t == Basic ==> 2.0 * Hits(t, p) >= Bets(t, p)
    ensures Hits(SeenFirstHalf, p) == Hits(SeenFirstDiscarded, p) + 0.5
    ensures Bets(SeenFirstHalf, p) == Bets(SeenFirstDiscarded, p) + 1.0
  {
    var mx, tt := p.Larger() as real, p.Total() as real;
    assert 0.0 <= mx <= tt && tt >= 1.0 && 2.0 * mx >= tt;
    DivBounds(mx, tt);
    assert Hits(SeenFirstDiscarded, p) == mx - mx / tt;
  }

  /** Every rate lies between zero and one, the basic one not below one half; betting half on first
      occurrences is worth half a hit per pattern over not betting on them. */
  lemma {:induction false} RatesBounded(t: RateType, seen: seq<HistoryPattern>)
    ensures 0.0 <= AllHits(t, seen) <= AllBets(t, seen)
    ensures 2.0 * AllHits(Basic, seen) >= AllBets(Basic, seen)
    ensures AllHits(SeenFirstHalf, seen) == AllHits(SeenFirstDiscarded, seen) + 0.5 * Occurring(seen) as real
    ensures AllBets(SeenFirstHalf, seen) == AllBets(SeenFirstDiscarded, seen) + Occurring(seen) as real
    decreases |seen|
  {
    if seen != [] {
      RatesBounded(t, seen[..|seen| - 1]);
      if seen[|seen| - 1].Total() > 0 {
        HitsBounded(t, seen[|seen| - 1]);
        HitsBounded(Basic, seen[|seen| - 1]);
      }
    }
  }

  datatype Tally = Tally(count: real, total: real) {
    function Plus(hits: real, bets: real): Tally {
      Tally(count + hits, total + bets)
    }
  }

  class PredictionRateComputer {
    var basic: Tally
    var seenOnceHalf: Tally
    var seenFirstHalf: Tally
    var seenOnceDiscarded: Tally
    var seenFirstDiscarded: Tally
    ghost var seen: seq<HistoryPattern>

    function TallyOf(t: RateType): Tally
      reads this
    {
      match t
      case Basic => basic
      case SeenOnceHalf => seenOnceHalf
      case SeenFirstHalf => seenFirstHalf
      case SeenOnceDiscarded => seenOnceDiscarded
      case SeenFirstDiscarded => seenFirstDiscarded
    }

    ghost predicate Valid()
      reads this
    {
      forall t :: TallyOf(t) == Tally(AllHits(t, seen), AllBets(t, seen))
    }

    constructor ()
      ensures Valid() && seen == []
    {
      basic, seenOnceHalf, seenFirstHalf := Tally(0.0, 0.0), Tally(0.0, 0.0), Tally(0.0, 0.0);
      seenOnceDiscarded, seenFirstDiscarded := Tally(0.0, 0.0), Tally(0.0, 0.0);
      seen := [];
    }

    method RegisterPattern(count0: nat, count1: nat)
      requires Valid()
      modifies this
      ensures Valid() && seen == old(seen) + [HistoryPattern(count0, count1)]
    {
      var p := HistoryPattern(count0, count1);
      assert forall t :: TallyOf(t) == old(TallyOf(t));
      assert (seen + [p])[..|seen|] == seen;
      seen := seen + [p];
      if p.Total() == 0 { return; }
      basic := basic.Plus(Hits(Basic, p), Bets(Basic, p));
      seenOnceHalf := seenOnceHalf.Plus(Hits(SeenOnceHalf, p), Bets(SeenOnceHalf, p));
      seenFirstHalf := seenFirstHalf.Plus(Hits(SeenFirstHalf, p), Bets(SeenFirstHalf, p));
      seenOnceDiscarded := seenOnceDiscarded.Plus(Hits(SeenOnceDiscarded, p), Bets(SeenOnceDiscarded, p));
      seenFirstDiscarded := seenFirstDiscarded.Plus(Hits(SeenFirstDiscarded, p), Bets(SeenFirstDiscarded, p));
      assert forall t :: TallyOf(t) == old(TallyOf(t)).Plus(Hits(t, p), Bets(t, p));
    }

    method PredictionRate(t: RateType) returns (rate: real)
      requires Valid()
      ensures rate == RateOf(t, seen)
    {
      var tally := TallyOf(t);
      if tally.total == 0.0 { return -1.0; }
      rate := tally.count / tally.total;
    }
  }

  // ----- Sums over multisets ---------------------------------------------------------------

  ghost function Sum(m: multiset<HistoryPattern>, f: HistoryPattern -> real): real
    decreases |m|
  {
    if |m| == 0 then 0.0
    else
      var x := Some(m);
      f(x) + Sum(m - multiset{x}, f)
  }

  ghost function Some(m: multiset<HistoryPattern>): (x: HistoryPattern)
    requires |m| > 0
    ensures x in m
  {
    var x :| x in m;
    x
  }

  lemma {:induction false} SumTakes(m: multiset<HistoryPattern>, f: HistoryPattern -> real, x: HistoryPattern)
    requires x in m
    ensures Sum(m, f) == f(x) + Sum(m - multiset{x}, f)
    decreases |m|
  {
    var y := Some(m);
    if y != x {
      TakeBoth(m, x, y);
      SumTakes(m - multiset{y}, f, x);
      SumTakes(m - multiset{x}, f, y);
    }
  }

  lemma TakeBoth(m: multiset<HistoryPattern>, x: HistoryPattern, y: HistoryPattern)
    requires x in m && y in m && x != y
    ensures x in m - multiset{y} && y in m - multiset{x} && |m - multiset{y}| == |m - multiset{x}| == |m| - 1
    ensures m - multiset{y} - multiset{x} == m - multiset{x} - multiset{y}
  {
  }

  lemma SumAdds(m: multiset<HistoryPattern>, f: HistoryPattern -> real, x: HistoryPattern)
    ensures Sum(m + multiset{x}, f) == Sum(m, f) + f(x)
  {
    SumTakes(m + multiset{x}, f, x);
    assert m + multiset{x} - multiset{x} == m;
  }

  lemma {:induction false} SumUnion(a: multiset<HistoryPattern>, b: multiset<HistoryPattern>, f: HistoryPattern -> real)
    ensures Sum(a + b, f) == Sum(a, f) + Sum(b, f)
    decreases |b|
  {
    if |b| == 0 {
      assert a + b == a;
    } else {
      var x := Some(b);
      var rest := b - multiset{x};
      SumUnion(a, rest, f);
      SumAdds(a + rest, f, x);
      assert a + b == a + rest + multiset{x};
    }
  }

  // ----- Tables of limited size ------------------------------------------------------------

  function Count0(p: HistoryPattern): real {
    p.count0 as real
  }

  function Count1(p: HistoryPattern): real {
    p.count1 as real
  }

  function TotalOf(p: HistoryPattern): real {
    p.Total() as real
  }

  function ScoreOf(p: HistoryPattern): real {
    p.Score()
  }

  /** `kept` are `k` patterns, or all there are, and none of the others has been seen more often. */
  ghost predicate IsTop(kept: multiset<HistoryPattern>, others: multiset<HistoryPattern>, k: nat) {
    && |kept| <= k && (|others| > 0 ==> |kept| == k)
    && forall x, y :: x in kept && y in others ==> y.Total() <= x.Total()
  }

  ghost predicate IsLeast(m: multiset<HistoryPattern>, x: HistoryPattern) {
    x in m && forall y :: y in m ==> x.Total() <= y.Total()
  }

  lemma {:induction false} LeastExists(m: multiset<HistoryPattern>) returns (x: HistoryPattern)
    requires |m| > 0
    ensures IsLeast(m, x)
    decreases |m|
  {
    x := Some(m);
    var rest := m - multiset{x};
    if |rest| > 0 {
      var y := LeastExists(rest);
      if y.Total() < x.Total() { x := y; }
    }
  }

  lemma {:induction false} DominatedSum(a: multiset<HistoryPattern>, b: multiset<HistoryPattern>)
    requires |a| <= |b| && forall x, y :: x in b && y in a ==> y.Total() <= x.Total()
    ensures Sum(a, TotalOf) <= Sum(b, TotalOf)
    decreases |b|
  {
    if |b| > 0 {
      var x := Some(b);
      SumTakes(b, TotalOf, x);
      if |a| > 0 {
        var y := Some(a);
        SumTakes(a, TotalOf, y);
        DominatedSum(a - multiset{y}, b - multiset{x});
      } else {
        DominatedSum(a, b - multiset{x});
      }
    }
  }

  /** No choice of at most as many patterns covers more occurrences. */
  lemma TopIsBest(kept: multiset<HistoryPattern>, others: multiset<HistoryPattern>, k: nat, choice: multiset<HistoryPattern>)
    requires IsTop(kept, others, k) && choice <= kept + others && |choice| <= k
    ensures Sum(choice, TotalOf) <= Sum(kept, TotalOf)
  {
    var common := choice * kept;
    var a, b := choice - common, kept - common;
    assert choice == common + a && kept == common + b;
    forall y | y in a ensures y in others {
      assert choice[y] > kept[y];
    }
    if |others| == 0 {
      assert others == multiset{};
      assert a == multiset{};
    }
    DominatedSum(a, b);
    SumUnion(common, a, TotalOf);
    SumUnion(common, b, TotalOf);
  }

  /** Taking the least out of the top `k + 1` leaves the top `k`. */
  lemma TopWithoutLeast(kept: multiset<HistoryPattern>, others: multiset<HistoryPattern>, k: nat, x: HistoryPattern)
    requires IsTop(kept, others, k + 1) && |kept| == k + 1 && IsLeast(kept, x)
    ensures IsTop(kept - multiset{x}, others + multiset{x}, k)
  {
  }

  /** One more pattern, with the least of all moved out of a full table. */
  lemma TopAfterAdd(kept: multiset<HistoryPattern>, others: multiset<HistoryPattern>, k: nat, p: HistoryPattern, x: HistoryPattern)
    requires IsTop(kept, others, k) && IsLeast(kept + multiset{p}, x)
    ensures |kept| < k ==> IsTop(kept + multiset{p}, others, k)
    ensures |kept| == k ==> IsTop(kept + multiset{p} - multiset{x}, others + multiset{x}, k)
  {
    if |kept| == k {
      var less := kept + multiset{p} - multiset{x};
      forall u, v | u in less && v in others + multiset{x} ensures v.Total() <= u.Total() {
        assert u in kept + multiset{p};
        if v != x && u !in kept {
          assert x != p && x in kept;
        }
      }
    }
  }

  lemma MovedOut(kept: multiset<HistoryPattern>, others: multiset<HistoryPattern>, p: HistoryPattern)
    requires p in kept
    ensures |kept - multiset{p}| == |kept| - 1
    ensures (kept - multiset{p}) + (others + multiset{p}) == kept + others
    ensures Sum(kept - multiset{p}, ScoreOf) == Sum(kept, ScoreOf) - p.Score()
  {
    SumTakes(kept, ScoreOf, p);
  }

  /** An exact quotient. */
  datatype Ratio = Ratio(part: real, whole: nat) {
    function Value(): real
      requires whole > 0
    {
      part / whole as real
    }
  }

  /** `1 - part / whole` */
  function Rest(q: Ratio): Ratio {
    Ratio(q.whole as real - q.part, q.whole)
  }

  lemma RestIsLeft(q: Ratio)
    requires q.whole > 0
    ensures Rest(q).Value() == 1.0 - q.Value()
  {
    var whole, share := q.whole as real, q.part / q.whole as real;
    assert share * whole == q.part && (1.0 - share) * whole == whole - q.part;
    DivIs(whole - q.part, 1.0 - share, whole);
  }

  /** Quotients of one divisor compare as what is divided. */
  ghost predicate AtMost(p: Ratio, q: Ratio) {
    p.whole == q.whole && p.part <= q.part
  }

  lemma RatiosOrdered(p: Ratio, q: Ratio)
    requires p.whole > 0 && AtMost(p, q)
    ensures p.Value() <= q.Value()
  {
    var whole, a, b := p.whole as real, p.Value(), q.Value();
    assert a * whole == p.part && b * whole == q.part;
    if a > b { MorePositive(whole, b, a); }
  }

  lemma MorePositive(whole: real, q: real, p: real)
    requires whole > 0.0 && q < p
    ensures q * whole < p * whole
  {
  }

  datatype LimitedPredictionRate = LimitedPredictionRate(nEntries: nat, predictionRate: Ratio, fractionStored: Ratio)

  /** The rate of a table of size `n` that gets `predicted` bets right and has given up `lost`
      occurrences of `countPred`. */
  function LimitedRate(n: nat, predicted: real, lost: nat, countPred: nat): LimitedPredictionRate {
    LimitedPredictionRate(n, Ratio(predicted, countPred), Rest(Ratio(lost as real, countPred)))
  }

  /** What a table has given up, added up. */
  ghost predicate IsAggregate(count0: nat, count1: nat, others: multiset<HistoryPattern>) {
    count0 as real == Sum(others, Count0) && count1 as real == Sum(others, Count1)
  }

  lemma AggregateAdds(count0: nat, count1: nat, others: multiset<HistoryPattern>, p: HistoryPattern)
    requires IsAggregate(count0, count1, others)
    ensures IsAggregate(count0 + p.count0, count1 + p.count1, others + multiset{p})
  {
    SumAdds(others, Count0, p);
    SumAdds(others, Count1, p);
  }

  /** The queue of the patterns seen most; what falls out of it is added up. */
  class PatternQueue {
    var q: multiset<HistoryPattern>
    var aggCount0: nat
    var aggCount1: nat
    /** The patterns no longer in the queue. */
    ghost var others: multiset<HistoryPattern>

    /** The table is that of size `k`. */
    ghost predicate Holds(k: nat)
      reads this
    {
      IsTop(q, others, k) && IsAggregate(aggCount0, aggCount1, others)
    }

    constructor ()
      ensures forall k :: Holds(k)
      ensures q == others == multiset{}
    {
      q, aggCount0, aggCount1, others := multiset{}, 0, 0, multiset{};
    }

    /** The top of the priority queue is a pattern with the least total. */
    method PopLeast() returns (p: HistoryPattern)
      requires |q| > 0
      modifies this`q
      ensures IsLeast(old(q), p) && q == old(q) - multiset{p}
    {
      ghost var least := LeastExists(q);
      assert least in q && forall y :: y in q ==> least.Total() <= y.Total();
      p :| p in q && forall y :: y in q ==> p.Total() <= y.Total();
      q := q - multiset{p};
    }

    method GiveUp(p: HistoryPattern)
      requires IsAggregate(aggCount0, aggCount1, others)
      modifies this`aggCount0, this`aggCount1, this`others
      ensures IsAggregate(aggCount0, aggCount1, others) && others == old(others) + multiset{p}
    {
      AggregateAdds(aggCount0, aggCount1, others, p);
      aggCount0, aggCount1 := aggCount0 + p.count0, aggCount1 + p.count1;
      others := others + multiset{p};
    }

    method Evict() returns (p: HistoryPattern)
      requires |q| > 0 && IsAggregate(aggCount0, aggCount1, others)
      modifies this
      ensures IsLeast(old(q), p) && q == old(q) - multiset{p} && others == old(others) + multiset{p}
      ensures IsAggregate(aggCount0, aggCount1, others)
    {
      p := PopLeast();
      GiveUp(p);
    }

    method Push(p: HistoryPattern, maxSize: nat)
      requires Holds(maxSize)
      modifies this
      ensures Holds(maxSize) && q + others == old(q + others) + multiset{p}
    {
      q := q + multiset{p};
      if |q| > maxSize {
        EvictFor(old(q), p, maxSize);
      } else {
        ghost var least := LeastExists(q);
        TopAfterAdd(old(q), others, maxSize, p, least);
      }
    }

    /** Make room for `p`, which has just come to the full table `kept`. */
    method EvictFor(ghost kept: multiset<HistoryPattern>, ghost p: HistoryPattern, ghost k: nat)
      requires q == kept + multiset{p} && |kept| == k && IsTop(kept, others, k) && IsAggregate(aggCount0, aggCount1, others)
      modifies this
      ensures Holds(k) && q + others == kept + old(others) + multiset{p}
    {
      var out := Evict();
      TopAfterAdd(kept, old(others), k, p, out);
    }

    method ShrinkByOne(rate: real) returns (rate': real)
      requires |q| > 0 && Holds(|q|) && rate == Sum(q, ScoreOf)
      modifies this
      ensures |q| == old(|q|) - 1 && Holds(|q|) && rate' == Sum(q, ScoreOf) && q + others == old(q + others)
    {
      ghost var before, others0 := q, others;
      var p := Evict();
      MovedOut(before, others0, p);
      TopWithoutLeast(before, others0, |before| - 1, p);
      rate' := rate - p.Score();
    }

    /** Make the table smaller, keeping `rate` the score of what it holds. */
    method Shrink(n: nat, k: nat, rate: real) returns (rate': real)
      requires n <= k && Scored(k, rate, q + others)
      modifies this
      ensures Scored(n, rate', old(q + others))
    {
      rate' := rate;
      while |q| > n
        invariant Holds(if |q| > n then |q| else n) && rate' == Sum(q, ScoreOf) && q + others == old(q + others)
        decreases |q|
      {
        rate' := ShrinkByOne(rate');
      }
    }

    /** The score of all that is in the queue, which is moved to a second queue. */
    method TotalScore() returns (rate: real)
      modifies this`q
      ensures q == old(q) && rate == Sum(q, ScoreOf)
    {
      var q2: multiset<HistoryPattern> := multiset{};
      rate := 0.0;
      ghost var all := q;
      while |q| > 0
        invariant q + q2 == all && rate == Sum(q2, ScoreOf)
        decreases |q|
      {
        var p := PopLeast();
        SumAdds(q2, ScoreOf, p);
        q2 := q2 + multiset{p};
        rate := rate + p.Score();
      }
      q := q2;
    }

    /** For every table size, from the largest down: what betting with a table of that size, and one
        common entry for all other patterns, gets right, and how much of the history it covers. */
    method LimitedRates(sizes: seq<nat>, countPred: nat) returns (rates: seq<LimitedPredictionRate>, ghost tables: seq<Table>)
      requires sizes != [] && forall i, j :: 0 <= i < j < |sizes| ==> sizes[i] <= sizes[j]
      requires Holds(sizes[|sizes| - 1])
      modifies this
      ensures |tables| == |sizes| && AreLimited(rates, tables, old(q + others), sizes, countPred)
    {
      rates, tables := [], [];
      ghost var all := q + others;
      var limited := TotalScore();
      var i, k := |sizes|, sizes[|sizes| - 1];
      while i > 0
        invariant 0 <= i <= |sizes| && |tables| == |sizes| - i && AreLimited(rates, tables, all, sizes, countPred)
        invariant Scored(k, limited, all) && forall j :: 0 <= j < i ==> sizes[j] <= k
      {
        i := i - 1;
        limited := Shrink(sizes[i], k, limited);
        k := sizes[i];
        rates, tables := AddRate(rates, tables, all, sizes, i, limited, countPred);
      }
    }

    /** A table of size `k` of all these patterns, whose score is `limited`. */
    ghost predicate Scored(k: nat, limited: real, all: multiset<HistoryPattern>)
      reads this
    {
      Holds(k) && limited == Sum(q, ScoreOf) && q + others == all
    }

    /** The rate of the present table, of size `sizes[i]`. */
    method AddRate(rates: seq<LimitedPredictionRate>, ghost tables: seq<Table>, ghost all: multiset<HistoryPattern>,
                   sizes: seq<nat>, i: nat, limited: real, countPred: nat)
      returns (rates': seq<LimitedPredictionRate>, ghost tables': seq<Table>)
      requires i < |sizes| && |rates| == |sizes| - 1 - i && AreLimited(rates, tables, all, sizes, countPred)
      requires Scored(sizes[i], limited, all)
      ensures |rates'| == |rates| + 1 && AreLimited(rates', tables', all, sizes, countPred)
    {
      var rest := HistoryPattern(aggCount0, aggCount1);
      var rate := LimitedRate(sizes[i], limited + rest.Score(), rest.Total(), countPred);
      ghost var t := Table(sizes[i], q, others, rest);
      OneMoreStored(rates, tables, all, sizes, countPred, rate, t);
      OneMorePredicted(rates, tables, countPred, rate, t);
      rates', tables' := rates + [rate], tables + [t];
    }
  }

  /** What a table of some size keeps, what it does not, and the common entry for the latter. */
  datatype Table = Table(size: nat, kept: multiset<HistoryPattern>, others: multiset<HistoryPattern>, rest: HistoryPattern)

  /** The table keeps `n` of all patterns, none of the others was seen more often, and the common entry
      has the counts of the others. */
  ghost predicate IsTopTable(t: Table, all: multiset<HistoryPattern>, n: nat) {
    && t.size == n && t.kept + t.others == all && IsTop(t.kept, t.others, n)
    && IsAggregate(t.rest.count0, t.rest.count1, t.others)
  }

  /** The share of what the table keeps. */
  ghost predicate IsStored(rate: LimitedPredictionRate, t: Table, all: multiset<HistoryPattern>, n: nat, countPred: nat) {
    && IsTopTable(t, all, n) && rate.nEntries == n
    && rate.fractionStored == Rest(Ratio(t.rest.Total() as real, countPred))
  }

  /** Bets on what the table keeps and on its common entry. */
  ghost predicate IsPredicted(rate: LimitedPredictionRate, t: Table, countPred: nat) {
    rate.predictionRate.part == Sum(t.kept, ScoreOf) + t.rest.Score() && rate.predictionRate.whole == countPred
  }

  /** The tables of the largest sizes, the largest first, and what they store. */
  ghost predicate AreStored(rates: seq<LimitedPredictionRate>, tables: seq<Table>, all: multiset<HistoryPattern>,
                            sizes: seq<nat>, countPred: nat) {
    && |rates| == |tables| <= |sizes|
    && forall i :: 0 <= i < |rates| ==> IsStored(rates[i], tables[i], all, sizes[|sizes| - 1 - i], countPred)
  }

  ghost predicate ArePredicted(rates: seq<LimitedPredictionRate>, tables: seq<Table>, countPred: nat) {
    |rates| == |tables| && forall i :: 0 <= i < |rates| ==> IsPredicted(rates[i], tables[i], countPred)
  }

  ghost predicate AreLimited(rates: seq<LimitedPredictionRate>, tables: seq<Table>, all: multiset<HistoryPattern>,
                             sizes: seq<nat>, countPred: nat) {
    AreStored(rates, tables, all, sizes, countPred) && ArePredicted(rates, tables, countPred)
  }

  lemma OneMoreStored(rates: seq<LimitedPredictionRate>, tables: seq<Table>, all: multiset<HistoryPattern>,
                      sizes: seq<nat>, countPred: nat, rate: LimitedPredictionRate, t: Table)
    requires AreStored(rates, tables, all, sizes, countPred) && |rates| < |sizes|
    requires IsStored(rate, t, all, sizes[|sizes| - 1 - |rates|], countPred)
    ensures AreStored(rates + [rate], tables + [t], all, sizes, countPred)
  {
  }

  lemma OneMorePredicted(rates: seq<LimitedPredictionRate>, tables: seq<Table>, countPred: nat, rate: LimitedPredictionRate, t: Table)
    requires ArePredicted(rates, tables, countPred) && IsPredicted(rate, t, countPred)
    ensures ArePredicted(rates + [rate], tables + [t], countPred)
  {
  }

  lemma {:induction false} SumOfTotals(m: multiset<HistoryPattern>)
    ensures Sum(m, TotalOf) == Sum(m, Count0) + Sum(m, Count1)
    decreases |m|
  {
    if |m| > 0 {
      SumOfTotals(m - multiset{Some(m)});
    }
  }

  /** If all patterns together occur `countPred` times, the fraction stored is the share of the
      occurrences that the table covers. */
  lemma FractionIsCovered(rate: LimitedPredictionRate, t: Table, all: multiset<HistoryPattern>, n: nat, countPred: nat)
    requires IsStored(rate, t, all, n, countPred) && Sum(all, TotalOf) == countPred as real
    ensures rate.fractionStored.part == Sum(t.kept, TotalOf) && rate.fractionStored.whole == countPred
  {
    SumOfTotals(t.others);
    SumUnion(t.kept, t.others, TotalOf);
  }

  /** No other choice of `n` patterns covers more. */
  lemma FractionIsBest(rate: LimitedPredictionRate, t: Table, all: multiset<HistoryPattern>, n: nat, countPred: nat,
                       choice: multiset<HistoryPattern>)
    requires IsStored(rate, t, all, n, countPred) && Sum(all, TotalOf) == countPred as real
    requires choice <= all && |choice| <= n
    ensures AtMost(Ratio(Sum(choice, TotalOf), countPred), rate.fractionStored)
  {
    FractionIsCovered(rate, t, all, n, countPred);
    TopIsBest(t.kept, t.others, n, choice);
  }

  /** A smaller table never stores a larger fraction. */
  lemma FractionNeverGrows(small: LimitedPredictionRate, s: Table, m: nat, large: LimitedPredictionRate, l: Table, n: nat,
                           all: multiset<HistoryPattern>, countPred: nat)
    requires m <= n && Sum(all, TotalOf) == countPred as real
    requires IsStored(small, s, all, m, countPred) && IsStored(large, l, all, n, countPred)
    ensures AtMost(small.fractionStored, large.fractionStored)
  {
    FractionIsCovered(small, s, all, m, countPred);
    FractionIsBest(large, l, all, n, countPred, s.kept);
  }
}
