/** What the scores of the limited tables amount to: bets on the outcomes, one after the other, by a
    table that remembers some histories and has one common entry for all others. */
module BranchBets {
  import opened Basics
  import opened PowersOfTwo
  import opened BranchHistory
  import opened PatternTable
  import opened BranchPrediction
  import opened BranchWindows

  /** An outcome and the history in front of it. */
  datatype Turn = Turn(history: nat, outcome: bool)

  function Turns(r: seq<bool>, w: nat): seq<Turn>
    requires w <= |r|
  {
    seq(|r| - w, s requires 0 <= s < |r| - w => Turn(KeyAt(r, s, w), r[s + w]))
  }

  /** The entry that is asked about a history: its own, or the common one. */
  function EntryOf(kept: set<nat>, history: nat): Option<nat> {
    if history in kept then Some(history) else None
  }

  /** How often an entry has been followed by an outcome. */
  function Followed(turns: seq<Turn>, kept: set<nat>, e: Option<nat>, outcome: bool): nat {
    if turns == [] then 0
    else
      var last := turns[|turns| - 1];
      Followed(turns[..|turns| - 1], kept, e, outcome)
      + (if EntryOf(kept, last.history) == e && last.outcome == outcome then 1 else 0)
  }

  /** The half points won if every entry always makes its bet: two for a bet won, but `first` for the
      first one an entry wins. */
  function Points(turns: seq<Turn>, kept: set<nat>, bets: Option<nat> -> bool, first: nat): nat {
    if turns == [] then 0
    else
      var front, last := turns[..|turns| - 1], turns[|turns| - 1];
      var e := EntryOf(kept, last.history);
      Points(front, kept, bets, first)
      + (if last.outcome != bets(e) then 0 else if Followed(front, kept, e, bets(e)) == 0 then first else 2)
  }

  // ----- Points by entries -----------------------------------------------------------------

  /** The half points of an entry that wins `n` bets. */
  function Worth(first: nat, n: nat): nat {
    if n == 0 then 0 else 2 * (n - 1) + first
  }

  function EntryPoints(turns: seq<Turn>, kept: set<nat>, bets: Option<nat> -> bool, first: nat, e: Option<nat>): nat {
    Worth(first, Followed(turns, kept, e, bets(e)))
  }

  /** The points of the entries of the kept histories below `n`. */
  function PointsBelow(turns: seq<Turn>, kept: set<nat>, bets: Option<nat> -> bool, first: nat, n: nat): nat {
    if n == 0 then 0
    else PointsBelow(turns, kept, bets, first, n - 1) + (if n - 1 in kept then EntryPoints(turns, kept, bets, first, Some(n - 1)) else 0)
  }

  /** What the last turn wins for the entry `e`. */
  function Gain(turns: seq<Turn>, kept: set<nat>, bets: Option<nat> -> bool, first: nat, e: Option<nat>): nat
    requires turns != []
  {
    var front, last := turns[..|turns| - 1], turns[|turns| - 1];
    if EntryOf(kept, last.history) != e || last.outcome != bets(e) then 0
    else if Followed(front, kept, e, bets(e)) == 0 then first else 2
  }

  lemma EntryGains(turns: seq<Turn>, kept: set<nat>, bets: Option<nat> -> bool, first: nat, e: Option<nat>)
    requires turns != []
    ensures EntryPoints(turns, kept, bets, first, e)
            == EntryPoints(turns[..|turns| - 1], kept, bets, first, e) + Gain(turns, kept, bets, first, e)
  {
  }

  lemma {:induction false} KeptGain(turns: seq<Turn>, kept: set<nat>, bets: Option<nat> -> bool, first: nat, n: nat)
    requires turns != []
    ensures var e := EntryOf(kept, turns[|turns| - 1].history);
      PointsBelow(turns, kept, bets, first, n)
      == PointsBelow(turns[..|turns| - 1], kept, bets, first, n)
         + (if e.Some? && e.value < n then Gain(turns, kept, bets, first, e) else 0)
    decreases n
  {
    if n > 0 {
      KeptGain(turns, kept, bets, first, n - 1);
      EntryGains(turns, kept, bets, first, Some(n - 1));
    }
  }

  lemma {:induction false} NoPoints(kept: set<nat>, bets: Option<nat> -> bool, first: nat, n: nat)
    ensures PointsBelow([], kept, bets, first, n) == 0
    decreases n
  {
    if n > 0 { NoPoints(kept, bets, first, n - 1); }
  }

  /** The order of the turns does not matter: every entry wins by how often its bet is right. */
  lemma {:induction false} PointsByEntry(turns: seq<Turn>, kept: set<nat>, bets: Option<nat> -> bool, first: nat, n: nat)
    requires forall k :: k in kept ==> k < n
    ensures Points(turns, kept, bets, first)
            == PointsBelow(turns, kept, bets, first, n) + EntryPoints(turns, kept, bets, first, None)
    decreases |turns|
  {
    if turns == [] {
      NoPoints(kept, bets, first, n);
    } else {
      PointsByEntry(turns[..|turns| - 1], kept, bets, first, n);
      KeptGain(turns, kept, bets, first, n);
      EntryGains(turns, kept, bets, first, None);
    }
  }

  // ----- Entries and patterns --------------------------------------------------------------

  /** The windows one longer than the histories are the turns. */
  ghost predicate AreTurns(turns: seq<Turn>, longer: seq<nat>) {
    |turns| == |longer| && forall s :: 0 <= s < |turns| ==> longer[s] == 2 * turns[s].history + BitOf(turns[s].outcome)
  }

  lemma TurnsAre(r: seq<bool>, w: nat)
    requires w + 1 <= |r|
    ensures AreTurns(Turns(r, w), Keys(r, w + 1))
  {
    forall s | 0 <= s < |r| - w ensures Keys(r, w + 1)[s] == 2 * KeyAt(r, s, w) + BitOf(r[s + w]) {
      KeySteps(r, s, w);
    }
  }

  lemma {:induction false} OwnFollowed(turns: seq<Turn>, longer: seq<nat>, kept: set<nat>, key: nat, b: bool, m: nat)
    requires AreTurns(turns, longer) && key in kept && m <= |turns|
    ensures Followed(turns[..m], kept, Some(key), b) == Count(longer, 2 * key + BitOf(b), m)
    decreases m
  {
    if m > 0 {
      OwnFollowed(turns, longer, kept, key, b, m - 1);
      assert turns[..m][..m - 1] == turns[..m - 1];
    }
  }

  /** The windows of length one more than the histories that are not kept and below `n`, with the
      outcome `b`. */
  function LeftBelow(longer: seq<nat>, kept: set<nat>, b: bool, n: nat, m: nat): nat
    requires m <= |longer|
  {
    if n == 0 then 0
    else LeftBelow(longer, kept, b, n - 1, m) + (if n - 1 in kept then 0 else Count(longer, 2 * (n - 1) + BitOf(b), m))
  }

  lemma {:induction false} LeftStep(longer: seq<nat>, kept: set<nat>, b: bool, n: nat, m: nat, t: Turn)
    requires 0 < m <= |longer| && longer[m - 1] == 2 * t.history + BitOf(t.outcome)
    ensures LeftBelow(longer, kept, b, n, m)
            == LeftBelow(longer, kept, b, n, m - 1) + (if t.history < n && t.history !in kept && t.outcome == b then 1 else 0)
    decreases n
  {
    if n > 0 {
      LeftStep(longer, kept, b, n - 1, m, t);
    }
  }

  lemma {:induction false} LeftNone(longer: seq<nat>, kept: set<nat>, b: bool, n: nat)
    ensures LeftBelow(longer, kept, b, n, 0) == 0
    decreases n
  {
    if n > 0 { LeftNone(longer, kept, b, n - 1); }
  }

  lemma {:induction false} CommonFollowed(turns: seq<Turn>, longer: seq<nat>, kept: set<nat>, b: bool, n: nat, m: nat)
    requires AreTurns(turns, longer) && m <= |turns| && forall s :: 0 <= s < |turns| ==> turns[s].history < n
    ensures Followed(turns[..m], kept, None, b) == LeftBelow(longer, kept, b, n, m)
    decreases m
  {
    if m > 0 {
      CommonFollowed(turns, longer, kept, b, n, m - 1);
      LeftStep(longer, kept, b, n, m, turns[m - 1]);
      assert turns[..m][..m - 1] == turns[..m - 1];
    } else {
      LeftNone(longer, kept, b, n);
    }
  }

  function CountOf(p: HistoryPattern, b: bool): nat {
    if b then p.count1 else p.count0
  }

  /** A pattern is worth the half points of the better bet. */
  lemma ScoreIsWorth(p: HistoryPattern, b: bool)
    ensures Worth(1, CountOf(p, b)) as real <= 2.0 * p.Score()
    ensures CountOf(p, b) >= CountOf(p, !b) ==> Worth(1, CountOf(p, b)) as real == 2.0 * p.Score()
  {
  }

  lemma LargerIsWorth(p: HistoryPattern, b: bool)
    ensures Worth(2, CountOf(p, b)) <= 2 * p.Larger()
    ensures CountOf(p, b) >= CountOf(p, !b) ==> Worth(2, CountOf(p, b)) == 2 * p.Larger()
  {
  }

  // ----- Which histories a table keeps -----------------------------------------------------

  /** The patterns of the occurring histories below `n` that are kept, or of those that are not. */
  ghost function PatternsOf(keys: seq<nat>, longer: seq<nat>, kept: set<nat>, inside: bool, n: nat): multiset<HistoryPattern> {
    if n == 0 then multiset{}
    else
      PatternsOf(keys, longer, kept, inside, n - 1)
      + (if Times(keys, n - 1) > 0 && (n - 1 in kept) == inside then multiset{PatternOf(longer, n - 1)} else multiset{})
  }

  lemma {:induction false} PatternsAgree(keys: seq<nat>, longer: seq<nat>, a: set<nat>, b: set<nat>, inside: bool, n: nat)
    requires forall k :: k < n ==> (k in a <==> k in b)
    ensures PatternsOf(keys, longer, a, inside, n) == PatternsOf(keys, longer, b, inside, n)
    decreases n
  {
    if n > 0 { PatternsAgree(keys, longer, a, b, inside, n - 1); }
  }

  ghost predicate AreKept(keys: seq<nat>, kept: set<nat>, n: nat) {
    forall k :: k in kept ==> k < n && Times(keys, k) > 0
  }

  /** The table keeps the histories `kept`. */
  ghost predicate Keeps(keys: seq<nat>, longer: seq<nat>, kept: set<nat>, table: multiset<HistoryPattern>,
                        others: multiset<HistoryPattern>, n: nat) {
    && AreKept(keys, kept, n) && |kept| == |table|
    && PatternsOf(keys, longer, kept, true, n) == table && PatternsOf(keys, longer, kept, false, n) == others
  }

  lemma KeepsOne(keys: seq<nat>, longer: seq<nat>, kept: set<nat>, table: multiset<HistoryPattern>,
                 others: multiset<HistoryPattern>, key: nat, p: HistoryPattern)
    requires p == PatternOf(longer, key) && p in table && Times(keys, key) > 0
    requires Keeps(keys, longer, kept, table - multiset{p}, others, key)
    ensures Keeps(keys, longer, kept + {key}, table, others, key + 1)
  {
    PatternsAgree(keys, longer, kept + {key}, kept, true, key);
    PatternsAgree(keys, longer, kept + {key}, kept, false, key);
    assert table - multiset{p} + multiset{p} == table;
  }

  lemma LeavesOne(keys: seq<nat>, longer: seq<nat>, kept: set<nat>, table: multiset<HistoryPattern>,
                  others: multiset<HistoryPattern>, key: nat, p: HistoryPattern)
    requires p == PatternOf(longer, key) && p in others && Times(keys, key) > 0
    requires Keeps(keys, longer, kept, table, others - multiset{p}, key)
    ensures Keeps(keys, longer, kept, table, others, key + 1)
  {
    assert others - multiset{p} + multiset{p} == others;
  }

  lemma SkipsOne(keys: seq<nat>, longer: seq<nat>, kept: set<nat>, table: multiset<HistoryPattern>,
                 others: multiset<HistoryPattern>, key: nat)
    requires Times(keys, key) == 0 && Keeps(keys, longer, kept, table, others, key)
    ensures Keeps(keys, longer, kept, table, others, key + 1)
  {
    assert table + multiset{} == table && others + multiset{} == others;
  }

  lemma NothingKept(keys: seq<nat>, longer: seq<nat>, table: multiset<HistoryPattern>, others: multiset<HistoryPattern>)
    requires table + others == multiset{}
    ensures Keeps(keys, longer, {}, table, others, 0)
  {
    assert |table + others| == |table| + |others| == 0;
    assert table == multiset{} && others == multiset{};
  }

  /** The last of all patterns is in one of the parts. */
  lemma TakenFrom(table: multiset<HistoryPattern>, others: multiset<HistoryPattern>, front: seq<HistoryPattern>, p: HistoryPattern)
    requires table + others == multiset(front + [p])
    ensures p in table ==> (table - multiset{p}) + others == multiset(front)
    ensures p !in table ==> p in others && table + (others - multiset{p}) == multiset(front)
  {
    var all := multiset(front);
    assert multiset(front + [p]) == all + multiset{p};
    assert (table + others)[p] == all[p] + 1;
    assert table + others - multiset{p} == all;
    if p in table {
      assert (table - multiset{p}) + others == table + others - multiset{p};
    } else {
      assert table + (others - multiset{p}) == table + others - multiset{p};
    }
  }

  /** The patterns a table keeps are those of some histories. */
  lemma {:induction false} PickHistories(keys: seq<nat>, longer: seq<nat>, table: multiset<HistoryPattern>,
                                         others: multiset<HistoryPattern>, n: nat) returns (kept: set<nat>)
    requires table + others == multiset(HistoriesBelow(keys, longer, n))
    ensures Keeps(keys, longer, kept, table, others, n)
    decreases n
  {
    if n == 0 {
      NothingKept(keys, longer, table, others);
      kept := {};
    } else {
      var key := n - 1;
      var p, front := PatternOf(longer, key), HistoriesBelow(keys, longer, key);
      HistoriesStep(keys, longer, key, p);
      if Times(keys, key) == 0 {
        kept := PickHistories(keys, longer, table, others, key);
        SkipsOne(keys, longer, kept, table, others, key);
      } else {
        TakenFrom(table, others, front, p);
        if p in table {
          kept := PickHistories(keys, longer, table - multiset{p}, others, key);
          KeepsOne(keys, longer, kept, table, others, key, p);
          kept := kept + {key};
        } else {
          kept := PickHistories(keys, longer, table, others - multiset{p}, key);
          LeavesOne(keys, longer, kept, table, others, key, p);
        }
      }
    }
  }

  // ----- What a table is worth -------------------------------------------------------------

  /** Every entry bets on the outcome that has followed it more often. */
  ghost predicate BetsWell(turns: seq<Turn>, kept: set<nat>, bets: Option<nat> -> bool) {
    forall e :: BetsWellOn(turns, kept, bets, e)
  }

  ghost predicate BetsWellOn(turns: seq<Turn>, kept: set<nat>, bets: Option<nat> -> bool, e: Option<nat>) {
    Followed(turns, kept, e, bets(e)) >= Followed(turns, kept, e, !bets(e))
  }

  function Majority(turns: seq<Turn>, kept: set<nat>): Option<nat> -> bool {
    e => Followed(turns, kept, e, true) > Followed(turns, kept, e, false)
  }

  lemma MajorityBetsWell(turns: seq<Turn>, kept: set<nat>)
    ensures BetsWell(turns, kept, Majority(turns, kept))
  {
    forall e ensures BetsWellOn(turns, kept, Majority(turns, kept), e) {
      var n0, n1 := Followed(turns, kept, e, false), Followed(turns, kept, e, true);
      assert Majority(turns, kept)(e) == (n1 > n0);
    }
  }

  /** An entry has been followed by the outcomes as often as the pattern says. */
  ghost predicate HasCounts(turns: seq<Turn>, kept: set<nat>, e: Option<nat>, p: HistoryPattern) {
    Followed(turns, kept, e, false) == p.count0 && Followed(turns, kept, e, true) == p.count1
  }

  lemma BetCounts(turns: seq<Turn>, kept: set<nat>, bets: Option<nat> -> bool, e: Option<nat>, p: HistoryPattern, b: bool)
    requires HasCounts(turns, kept, e, p) && b == bets(e)
    ensures EntryPoints(turns, kept, bets, 1, e) == Worth(1, CountOf(p, b)) && EntryPoints(turns, kept, bets, 2, e) == Worth(2, CountOf(p, b))
    ensures BetsWellOn(turns, kept, bets, e) ==> CountOf(p, b) >= CountOf(p, !b)
  {
  }

  lemma EntryWorth(turns: seq<Turn>, kept: set<nat>, bets: Option<nat> -> bool, e: Option<nat>, p: HistoryPattern)
    requires HasCounts(turns, kept, e, p)
    ensures EntryPoints(turns, kept, bets, 1, e) as real <= 2.0 * p.Score()
    ensures BetsWellOn(turns, kept, bets, e) ==> EntryPoints(turns, kept, bets, 1, e) as real == 2.0 * p.Score()
  {
    BetCounts(turns, kept, bets, e, p, bets(e));
    ScoreIsWorth(p, bets(e));
  }

  lemma OwnPattern(turns: seq<Turn>, longer: seq<nat>, kept: set<nat>, key: nat)
    requires AreTurns(turns, longer) && key in kept
    ensures HasCounts(turns, kept, Some(key), PatternOf(longer, key))
  {
    assert turns[..|turns|] == turns;
    OwnFollowed(turns, longer, kept, key, false, |turns|);
    OwnFollowed(turns, longer, kept, key, true, |turns|);
  }

  lemma PatternsSumStep(keys: seq<nat>, longer: seq<nat>, kept: set<nat>, inside: bool, f: HistoryPattern -> real, key: nat)
    ensures Sum(PatternsOf(keys, longer, kept, inside, key + 1), f)
            == Sum(PatternsOf(keys, longer, kept, inside, key), f)
               + (if Times(keys, key) > 0 && (key in kept) == inside then f(PatternOf(longer, key)) else 0.0)
  {
    var before := PatternsOf(keys, longer, kept, inside, key);
    if Times(keys, key) > 0 && (key in kept) == inside {
      SumAdds(before, f, PatternOf(longer, key));
    } else {
      assert before + multiset{} == before;
    }
  }

  /** The score of the kept patterns in half points. */
  ghost function KeptScore(keys: seq<nat>, longer: seq<nat>, kept: set<nat>, n: nat): real {
    Sum(PatternsOf(keys, longer, kept, true, n), ScoreOf)
  }

  lemma KeptScoreStep(keys: seq<nat>, longer: seq<nat>, kept: set<nat>, key: nat)
    ensures KeptScore(keys, longer, kept, key + 1)
            == KeptScore(keys, longer, kept, key)
               + (if Times(keys, key) > 0 && key in kept then PatternOf(longer, key).Score() else 0.0)
  {
    PatternsSumStep(keys, longer, kept, true, ScoreOf, key);
  }

  ghost predicate KeptWorth(keys: seq<nat>, longer: seq<nat>, turns: seq<Turn>, kept: set<nat>, bets: Option<nat> -> bool, n: nat) {
    var points, worth := PointsBelow(turns, kept, bets, 1, n) as real, 2.0 * KeptScore(keys, longer, kept, n);
    points <= worth && (BetsWell(turns, kept, bets) ==> points == worth)
  }

  lemma {:induction false} KeptIsWorth(keys: seq<nat>, longer: seq<nat>, turns: seq<Turn>, kept: set<nat>,
                                       bets: Option<nat> -> bool, n: nat)
    requires AreTurns(turns, longer) && forall k :: k in kept ==> Times(keys, k) > 0
    ensures KeptWorth(keys, longer, turns, kept, bets, n)
    decreases n
  {
    if n > 0 {
      var key := n - 1;
      KeptIsWorth(keys, longer, turns, kept, bets, key);
      KeptScoreStep(keys, longer, kept, key);
      if key in kept {
        OwnPattern(turns, longer, kept, key);
        EntryWorth(turns, kept, bets, Some(key), PatternOf(longer, key));
      }
    }
  }

  function CountFor(b: bool): HistoryPattern -> real {
    if b then Count1 else Count0
  }

  ghost function LeftSum(keys: seq<nat>, longer: seq<nat>, kept: set<nat>, b: bool, n: nat): real {
    Sum(PatternsOf(keys, longer, kept, false, n), CountFor(b))
  }

  lemma LeftSumStep(keys: seq<nat>, longer: seq<nat>, kept: set<nat>, b: bool, key: nat)
    requires Extends(keys, longer)
    ensures LeftSum(keys, longer, kept, b, key + 1)
            == LeftSum(keys, longer, kept, b, key) + (if key in kept then 0.0 else CountOf(PatternOf(longer, key), b) as real)
  {
    PatternsSumStep(keys, longer, kept, false, CountFor(b), key);
    PatternCounts(keys, longer, key);
    assert CountFor(b)(PatternOf(longer, key)) == CountOf(PatternOf(longer, key), b) as real;
  }

  lemma LeftBelowStep(longer: seq<nat>, kept: set<nat>, b: bool, key: nat)
    ensures LeftBelow(longer, kept, b, key + 1, |longer|)
            == LeftBelow(longer, kept, b, key, |longer|) + (if key in kept then 0 else CountOf(PatternOf(longer, key), b))
  {
  }

  /** What the patterns not kept add up to is what the common entry is followed by. */
  lemma {:induction false} LeftIsCounted(keys: seq<nat>, longer: seq<nat>, kept: set<nat>, b: bool, n: nat)
    requires Extends(keys, longer)
    ensures LeftSum(keys, longer, kept, b, n) == LeftBelow(longer, kept, b, n, |longer|) as real
    decreases n
  {
    if n > 0 {
      LeftIsCounted(keys, longer, kept, b, n - 1);
      LeftSumStep(keys, longer, kept, b, n - 1);
      LeftBelowStep(longer, kept, b, n - 1);
    }
  }

  lemma CommonPattern(keys: seq<nat>, longer: seq<nat>, turns: seq<Turn>, kept: set<nat>, rest: HistoryPattern, n: nat)
    requires Extends(keys, longer) && AreTurns(turns, longer) && forall s :: 0 <= s < |turns| ==> turns[s].history < n
    requires IsAggregate(rest.count0, rest.count1, PatternsOf(keys, longer, kept, false, n))
    ensures HasCounts(turns, kept, None, rest)
  {
    assert turns[..|turns|] == turns;
    CommonFollowed(turns, longer, kept, false, n, |turns|);
    CommonFollowed(turns, longer, kept, true, n, |turns|);
    assert CountFor(false) == Count0 && CountFor(true) == Count1;
    LeftIsCounted(keys, longer, kept, false, n);
    LeftIsCounted(keys, longer, kept, true, n);
  }

  /** `most` are the most half points a table that keeps `kept` can win. */
  ghost predicate IsMost(turns: seq<Turn>, kept: set<nat>, first: nat, most: nat) {
    && (exists bets :: Points(turns, kept, bets, first) == most)
    && (forall bets :: Points(turns, kept, bets, first) <= most)
  }

  /** The bets together win at most `halves` half points, and as many if all bet well. */
  ghost predicate WinsAtMost(turns: seq<Turn>, kept: set<nat>, bets: Option<nat> -> bool, first: nat, halves: real) {
    var points := Points(turns, kept, bets, first) as real;
    points <= halves && (BetsWell(turns, kept, bets) ==> points == halves)
  }

  lemma TableWorth(keys: seq<nat>, longer: seq<nat>, turns: seq<Turn>, kept: set<nat>, rest: HistoryPattern,
                   bets: Option<nat> -> bool, n: nat, halves: real)
    requires AreTurns(turns, longer) && AreKept(keys, kept, n) && HasCounts(turns, kept, None, rest)
    requires halves == 2.0 * KeptScore(keys, longer, kept, n) + 2.0 * rest.Score()
    ensures WinsAtMost(turns, kept, bets, 1, halves)
  {
    PointsByEntry(turns, kept, bets, 1, n);
    KeptIsWorth(keys, longer, turns, kept, bets, n);
    EntryWorth(turns, kept, bets, None, rest);
    assert BetsWell(turns, kept, bets) ==> BetsWellOn(turns, kept, bets, None);
  }

  /** The table wins most if all entries bet well, and then what its patterns score. */
  lemma TableIsMost(keys: seq<nat>, longer: seq<nat>, turns: seq<Turn>, kept: set<nat>, rest: HistoryPattern, n: nat, halves: real)
    returns (most: nat)
    requires AreTurns(turns, longer) && AreKept(keys, kept, n) && HasCounts(turns, kept, None, rest)
    requires halves == 2.0 * KeptScore(keys, longer, kept, n) + 2.0 * rest.Score()
    ensures IsMost(turns, kept, 1, most) && most as real == halves
  {
    var best := Majority(turns, kept);
    most := Points(turns, kept, best, 1);
    MajorityBetsWell(turns, kept);
    TableWorth(keys, longer, turns, kept, rest, best, n, halves);
    forall bets ensures Points(turns, kept, bets, 1) <= most {
      TableWorth(keys, longer, turns, kept, rest, bets, n, halves);
    }
  }

  // ----- The limited rates -----------------------------------------------------------------

  /** `kept` are `n` of the histories of length `w`, or all, and no other history was followed by an
      outcome more often. */
  ghost predicate AreTopHistories(keys: seq<nat>, longer: seq<nat>, kept: set<nat>, n: nat)
    requires |longer| <= |keys|
  {
    && |kept| <= n && (forall k :: k in kept ==> Times(keys, k) > 0)
    && (|kept| < n ==> forall j: nat :: Times(keys, j) > 0 ==> j in kept)
    && forall k, j: nat :: k in kept && j !in kept && Times(keys, j) > 0
         ==> Count(keys, j, |longer|) <= Count(keys, k, |longer|)
  }

  lemma {:induction false} HasPattern(keys: seq<nat>, longer: seq<nat>, kept: set<nat>, inside: bool, key: nat, n: nat)
    requires key < n && Times(keys, key) > 0 && (key in kept) == inside
    ensures PatternOf(longer, key) in PatternsOf(keys, longer, kept, inside, n)
    decreases n
  {
    if key < n - 1 { HasPattern(keys, longer, kept, inside, key, n - 1); }
  }

  lemma OccursBelow(keys: seq<nat>, n: nat, j: nat)
    requires (forall s :: 0 <= s < |keys| ==> keys[s] < n) && Times(keys, j) > 0
    ensures j < n
  {
    if j >= n { NoneAbove(keys, n, j, |keys|); }
  }

  lemma TopHistories(keys: seq<nat>, longer: seq<nat>, kept: set<nat>, table: multiset<HistoryPattern>,
                     others: multiset<HistoryPattern>, n: nat, size: nat)
    requires Extends(keys, longer) && (forall s :: 0 <= s < |keys| ==> keys[s] < n)
    requires Keeps(keys, longer, kept, table, others, n) && IsTop(table, others, size)
    ensures AreTopHistories(keys, longer, kept, size)
  {
    forall j: nat | j !in kept && Times(keys, j) > 0
      ensures |kept| == size && PatternOf(longer, j) in others && PatternOf(longer, j).Total() == Count(keys, j, |longer|)
    {
      OccursBelow(keys, n, j);
      HasPattern(keys, longer, kept, false, j, n);
      PatternCounts(keys, longer, j);
    }
    forall k | k in kept ensures PatternOf(longer, k) in table && PatternOf(longer, k).Total() == Count(keys, k, |longer|) {
      HasPattern(keys, longer, kept, true, k, n);
      PatternCounts(keys, longer, k);
    }
  }

  lemma KeptHalves(keys: seq<nat>, longer: seq<nat>, kept: set<nat>, table: multiset<HistoryPattern>,
                   others: multiset<HistoryPattern>, rest: HistoryPattern, n: nat, worth: real)
    requires Keeps(keys, longer, kept, table, others, n) && IsAggregate(rest.count0, rest.count1, others)
    requires Scores(table, rest, worth)
    ensures 2.0 * worth == 2.0 * KeptScore(keys, longer, kept, n) + 2.0 * rest.Score()
    ensures IsAggregate(rest.count0, rest.count1, PatternsOf(keys, longer, kept, false, n)) && AreKept(keys, kept, n)
  {
  }

  /** Histories with keys below `n`, the windows one longer, and the turns. */
  ghost predicate AreWindows(keys: seq<nat>, longer: seq<nat>, turns: seq<Turn>, n: nat) {
    && Extends(keys, longer) && AreTurns(turns, longer)
    && (forall s :: 0 <= s < |keys| ==> keys[s] < n) && (forall s :: 0 <= s < |turns| ==> turns[s].history < n)
  }

  lemma WindowsOf(r: seq<bool>, w: nat)
    requires w + 1 <= |r|
    ensures AreWindows(Keys(r, w), Keys(r, w + 1), Turns(r, w), Pow2(w))
  {
    var keys, turns := Keys(r, w), Turns(r, w);
    LongerWindows(r, w);
    TurnsAre(r, w);
    assert forall s :: 0 <= s < |turns| ==> turns[s].history == keys[s];
  }

  predicate InHalves(most: nat, worth: real) {
    most as real == 2.0 * worth
  }

  /** What a table is worth for its score. */
  ghost predicate Scores(table: multiset<HistoryPattern>, rest: HistoryPattern, worth: real) {
    worth == Sum(table, ScoreOf) + rest.Score()
  }

  lemma TableOf(keys: seq<nat>, longer: seq<nat>, turns: seq<Turn>, table: multiset<HistoryPattern>,
                others: multiset<HistoryPattern>, rest: HistoryPattern, n: nat, size: nat, worth: real)
    returns (kept: set<nat>, most: nat)
    requires AreWindows(keys, longer, turns, n) && table + others == multiset(HistoriesBelow(keys, longer, n))
    requires IsTop(table, others, size) && IsAggregate(rest.count0, rest.count1, others)
    requires Scores(table, rest, worth)
    ensures AreTopHistories(keys, longer, kept, size) && IsMost(turns, kept, 1, most) && InHalves(most, worth)
  {
    kept := PickHistories(keys, longer, table, others, n);
    TopHistories(keys, longer, kept, table, others, n, size);
    KeptHalves(keys, longer, kept, table, others, rest, n, worth);
    CommonPattern(keys, longer, turns, kept, rest, n);
    most := TableIsMost(keys, longer, turns, kept, rest, n, 2.0 * worth);
  }

  lemma {:induction false} PointsAtMost(turns: seq<Turn>, kept: set<nat>, bets: Option<nat> -> bool)
    ensures Points(turns, kept, bets, 1) <= 2 * |turns|
    decreases |turns|
  {
    if turns != [] { PointsAtMost(turns[..|turns| - 1], kept, bets); }
  }

  lemma MostIsBounded(turns: seq<Turn>, kept: set<nat>, most: nat)
    requires IsMost(turns, kept, 1, most)
    ensures most <= 2 * |turns|
  {
    var bets :| Points(turns, kept, bets, 1) == most;
    PointsAtMost(turns, kept, bets);
  }

  /** The table keeps the histories `kept` and wins `most` half points. */
  ghost predicate IsBetting(keys: seq<nat>, longer: seq<nat>, turns: seq<Turn>, size: nat, kept: set<nat>, most: nat)
    requires |longer| <= |keys|
  {
    AreTopHistories(keys, longer, kept, size) && IsMost(turns, kept, 1, most) && most <= 2 * |turns|
  }

  lemma RateIsBetting(rate: LimitedPredictionRate, keys: seq<nat>, longer: seq<nat>, turns: seq<Turn>, n: nat, t: Table, size: nat)
    returns (kept: set<nat>, most: nat)
    requires AreWindows(keys, longer, turns, n) && IsTopTable(t, multiset(HistoriesBelow(keys, longer, n)), size)
    requires IsPredicted(rate, t, |turns|)
    ensures IsBetting(keys, longer, turns, size, kept, most) && InHalves(most, rate.predictionRate.part)
  {
    kept, most := TableOf(keys, longer, turns, t.kept, t.others, t.rest, n, size, rate.predictionRate.part);
    MostIsBounded(turns, kept, most);
  }

  lemma LimitedTable(limited: seq<LimitedPredictionRate>, tables: seq<Table>, all: multiset<HistoryPattern>, sorted: seq<nat>,
                     countPred: nat, i: nat)
    requires AreLimited(limited, tables, all, sorted, countPred) && i < |limited|
    ensures IsTopTable(tables[i], all, sorted[|sorted| - 1 - i]) && IsPredicted(limited[i], tables[i], countPred)
  {
    assert IsStored(limited[i], tables[i], all, sorted[|sorted| - 1 - i], countPred);
  }

  lemma SortedSize(sizes: seq<nat>)
    ensures |Sorted(sizes)| == |sizes|
  {
    SortedAscends(sizes);
    assert |multiset(Sorted(sizes))| == |multiset(sizes)|;
  }

  lemma TablesBet(limited: seq<LimitedPredictionRate>, tables: seq<Table>, keys: seq<nat>, longer: seq<nat>, turns: seq<Turn>,
                  n: nat, sorted: seq<nat>, i: nat) returns (kept: set<nat>, most: nat)
    requires AreWindows(keys, longer, turns, n) && i < |limited| == |sorted|
    requires AreLimited(limited, tables, multiset(HistoriesBelow(keys, longer, n)), sorted, |turns|)
    ensures IsBetting(keys, longer, turns, sorted[|sorted| - 1 - i], kept, most)
    ensures InHalves(most, limited[i].predictionRate.part) && limited[i].predictionRate.whole == |turns|
  {
    LimitedTable(limited, tables, multiset(HistoriesBelow(keys, longer, n)), sorted, |turns|, i);
    kept, most := RateIsBetting(limited[i], keys, longer, turns, n, tables[i], sorted[|sorted| - 1 - i]);
  }

  /** A limited rate is the best share of bets that a table of that many of the most frequent histories
      can win, with one common entry for the others: every entry bets on one outcome only, and the first
      bet it wins counts half. */
  lemma LimitedIsBetting(limited: seq<LimitedPredictionRate>, r: seq<bool>, sizes: seq<nat>, w: nat, i: nat)
    returns (kept: set<nat>, most: nat)
    requires w + 1 <= |r| && AreLimitedOf(limited, Histories(r, w), sizes, |r| - w) && i < |sizes|
    ensures i < |limited| && |Sorted(sizes)| == |sizes|
    ensures IsBetting(Keys(r, w), Keys(r, w + 1), Turns(r, w), Sorted(sizes)[|sizes| - 1 - i], kept, most)
    ensures InHalves(most, limited[i].predictionRate.part) && limited[i].predictionRate.whole == |r| - w
  {
    WindowsOf(r, w);
    SortedSize(sizes);
    var tables :| |limited| == |sizes| && AreLimited(limited, tables, multiset(Histories(r, w)), Sorted(sizes), |r| - w);
    kept, most := TablesBet(limited, tables, Keys(r, w), Keys(r, w + 1), Turns(r, w), Pow2(w), Sorted(sizes), i);
  }

  // ----- Tables that keep everything -------------------------------------------------------

  lemma {:induction false} NothingInCommon(turns: seq<Turn>, kept: set<nat>, b: bool)
    requires forall s :: 0 <= s < |turns| ==> turns[s].history in kept
    ensures Followed(turns, kept, None, b) == 0
    decreases |turns|
  {
    if turns != [] { NothingInCommon(turns[..|turns| - 1], kept, b); }
  }

  ghost predicate RightBelow(longer: seq<nat>, turns: seq<Turn>, kept: set<nat>, bets: Option<nat> -> bool, n: nat) {
    var points, right := PointsBelow(turns, kept, bets, 2, n), CorrectFrom(longer, 0, n);
    points <= 2 * right && (BetsWell(turns, kept, bets) ==> points == 2 * right)
  }

  lemma RightAt(longer: seq<nat>, turns: seq<Turn>, kept: set<nat>, bets: Option<nat> -> bool, key: nat)
    requires AreTurns(turns, longer) && key in kept
    ensures var points := EntryPoints(turns, kept, bets, 2, Some(key));
      points <= 2 * Correct(longer, key) && (BetsWell(turns, kept, bets) ==> points == 2 * Correct(longer, key))
  {
    var p := PatternOf(longer, key);
    OwnPattern(turns, longer, kept, key);
    BetCounts(turns, kept, bets, Some(key), p, bets(Some(key)));
    LargerIsWorth(p, bets(Some(key)));
    assert BetsWell(turns, kept, bets) ==> BetsWellOn(turns, kept, bets, Some(key));
  }

  lemma {:induction false} AllRightBelow(longer: seq<nat>, turns: seq<Turn>, kept: set<nat>, bets: Option<nat> -> bool, n: nat)
    requires AreTurns(turns, longer) && forall k: nat :: k < n ==> k in kept
    ensures RightBelow(longer, turns, kept, bets, n)
    decreases n
  {
    if n > 0 {
      AllRightBelow(longer, turns, kept, bets, n - 1);
      RightAt(longer, turns, kept, bets, n - 1);
    }
  }

  lemma AllRight(longer: seq<nat>, turns: seq<Turn>, kept: set<nat>, bets: Option<nat> -> bool, n: nat)
    requires AreTurns(turns, longer) && forall k: nat :: k < n <==> k in kept
    requires forall s :: 0 <= s < |turns| ==> turns[s].history < n
    ensures var points, right := Points(turns, kept, bets, 2), CorrectFrom(longer, 0, n);
      points <= 2 * right && (BetsWell(turns, kept, bets) ==> points == 2 * right)
  {
    PointsByEntry(turns, kept, bets, 2, n);
    AllRightBelow(longer, turns, kept, bets, n);
    NothingInCommon(turns, kept, bets(None));
  }

  lemma AllRightIsMost(longer: seq<nat>, turns: seq<Turn>, kept: set<nat>, n: nat)
    requires AreTurns(turns, longer) && forall k: nat :: k < n <==> k in kept
    requires forall s :: 0 <= s < |turns| ==> turns[s].history < n
    ensures IsMost(turns, kept, 2, 2 * CorrectFrom(longer, 0, n))
  {
    var best := Majority(turns, kept);
    MajorityBetsWell(turns, kept);
    AllRight(longer, turns, kept, best, n);
    forall bets ensures Points(turns, kept, bets, 2) <= 2 * CorrectFrom(longer, 0, n) {
      AllRight(longer, turns, kept, bets, n);
    }
  }

  /** The hits of the basic rate are the most bets that can be won with an entry for every history. */
  lemma BasicIsBetting(r: seq<bool>, w: nat)
    requires w + 1 <= |r|
    ensures IsMost(Turns(r, w), Below(Pow2(w)), 2, 2 * AllCorrect(r, w))
  {
    WindowsOf(r, w);
    BelowSize(Pow2(w));
    AllRightIsMost(Keys(r, w + 1), Turns(r, w), Below(Pow2(w)), Pow2(w));
  }

  lemma {:induction false} ScoresAgree(seen: seq<HistoryPattern>)
    ensures Sum(multiset(seen), ScoreOf) == LargerSum(seen) as real - 0.5 * (|seen| - Seen(seen, 0)) as real
    ensures Seen(seen, 0) <= |seen|
    decreases |seen|
  {
    if seen != [] {
      var front, p := seen[..|seen| - 1], seen[|seen| - 1];
      ScoresAgree(front);
      assert seen == front + [p];
      SumAdds(multiset(front), ScoreOf, p);
    }
  }

  lemma NothingLeft(table: multiset<HistoryPattern>, others: multiset<HistoryPattern>, all: multiset<HistoryPattern>, size: nat)
    requires table + others == all && |all| <= size && IsTop(table, others, size)
    ensures others == multiset{} && table == all
  {
    assert |table| + |others| == |all|;
    assert |others| == 0;
    assert others == multiset{};
    assert table + multiset{} == table;
  }

  lemma EmptyRest(rest: HistoryPattern)
    requires IsAggregate(rest.count0, rest.count1, multiset{})
    ensures rest.Score() == 0.0
  {
  }

  lemma FullTable(table: multiset<HistoryPattern>, others: multiset<HistoryPattern>, rest: HistoryPattern,
                  seen: seq<HistoryPattern>, size: nat, worth: real)
    requires table + others == multiset(seen) && |seen| <= size && IsTop(table, others, size)
    requires IsAggregate(rest.count0, rest.count1, others) && Scores(table, rest, worth)
    ensures worth == LargerSum(seen) as real - 0.5 * (|seen| - Seen(seen, 0)) as real
  {
    assert |multiset(seen)| == |seen|;
    NothingLeft(table, others, multiset(seen), size);
    EmptyRest(rest);
    ScoresAgree(seen);
  }

  /** A table with room for all histories wins what always betting on the more frequent outcome wins,
      less one half for every history that has a successor. */
  lemma FullTableRate(limited: seq<LimitedPredictionRate>, r: seq<bool>, sizes: seq<nat>, w: nat, i: nat)
    requires w + 1 <= |r| && AreLimitedOf(limited, Histories(r, w), sizes, |r| - w) && i < |sizes|
    requires |Sorted(sizes)| == |sizes| && |Histories(r, w)| <= Sorted(sizes)[|sizes| - 1 - i]
    ensures i < |limited| && limited[i].predictionRate.whole == |r| - w
    ensures limited[i].predictionRate.part
            == AllCorrect(r, w) as real - 0.5 * (|Histories(r, w)| - Seen(Histories(r, w), 0)) as real
  {
    var seen, sorted := Histories(r, w), Sorted(sizes);
    HistoriesAddUp(r, w);
    var tables: seq<Table> :| |limited| == |sizes| && AreLimited(limited, tables, multiset(seen), sorted, |r| - w);
    LimitedTable(limited, tables, multiset(seen), sorted, |r| - w, i);
    FullTable(tables[i].kept, tables[i].others, tables[i].rest, seen, sorted[|sizes| - 1 - i], limited[i].predictionRate.part);
  }
}
