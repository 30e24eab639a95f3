/** The sliding window of the schedulers in closed form. */
module IssueWindow {
  import opened Basics

  function MaxOf(s: seq<nat>): nat {
    if s == [] then 0 else Max(MaxOf(s[..|s| - 1]), s[|s| - 1])
  }

  lemma {:induction false} MaxOfBounds(s: seq<nat>)
    ensures forall k :: 0 <= k < |s| ==> s[k] <= MaxOf(s)
    ensures s != [] ==> MaxOf(s) in s
    decreases |s|
  {
    if s != [] {
      var front := s[..|s| - 1];
      MaxOfBounds(front);
      assert forall k :: 0 <= k < |front| ==> s[k] == front[k];
      assert front == [] ==> MaxOf(front) == 0;
    }
  }

  lemma MaxOfSnoc(s: seq<nat>, x: nat)
    ensures MaxOf(s + [x]) == Max(MaxOf(s), x)
  {
    assert (s + [x])[..|s|] == s;
  }

  /** The entries that are not below `c`, in order. */
  function AtLeast(s: seq<nat>, c: nat): (r: seq<nat>)
    ensures |r| <= |s|
  {
    if s == [] then []
    else AtLeast(s[..|s| - 1], c) + (if s[|s| - 1] >= c then [s[|s| - 1]] else [])
  }

  lemma {:induction false} NoneAbove(s: seq<nat>, c: nat)
    requires c > MaxOf(s)
    ensures AtLeast(s, c) == []
    decreases |s|
  {
    if s != [] {
      NoneAbove(s[..|s| - 1], c);
    }
  }

  lemma AtLeastSnoc(s: seq<nat>, x: nat, c: nat)
    ensures AtLeast(s + [x], c) == AtLeast(s, c) + (if x >= c then [x] else [])
  {
    assert (s + [x])[..|s|] == s;
  }

  /** Delete every occurrence of `x`. */
  function WithoutAll(s: seq<nat>, x: nat): (r: seq<nat>)
    ensures |r| <= |s| && x !in r
  {
    if s == [] then []
    else WithoutAll(s[..|s| - 1], x) + (if s[|s| - 1] != x then [s[|s| - 1]] else [])
  }

  lemma WithoutSnoc(s: seq<nat>, x: nat, y: nat)
    ensures WithoutAll(s + [x], y) == WithoutAll(s, y) + (if x != y then [x] else [])
  {
    assert (s + [x])[..|s|] == s;
  }

  lemma {:induction false} WithoutLeast(s: seq<nat>, c: nat)
    ensures WithoutAll(AtLeast(s, c), c) == AtLeast(s, c + 1)
    decreases |s|
  {
    if s != [] {
      var front, x := s[..|s| - 1], s[|s| - 1];
      WithoutLeast(front, c);
      WithoutSnoc(AtLeast(front, c), x, c);
      assert AtLeast(front, c) + [] == AtLeast(front, c);
    }
  }

  lemma {:induction false} AtLeastShrinks(s: seq<nat>, c: nat, d: nat)
    requires c <= d
    ensures |AtLeast(s, d)| <= |AtLeast(s, c)|
    decreases |s|
  {
    if s != [] {
      AtLeastShrinks(s[..|s| - 1], c, d);
    }
  }

  /** The first cycle from `c` on at which fewer than `w` entries are left. */
  function FirstBelow(s: seq<nat>, w: nat, c: nat): (r: nat)
    requires w > 0
    ensures r >= c && |AtLeast(s, r)| < w && (r > c ==> |AtLeast(s, r - 1)| >= w)
    decreases MaxOf(s) + 1 - c
  {
    if |AtLeast(s, c)| < w then c
    else
      assert c <= MaxOf(s) by { if c > MaxOf(s) { NoneAbove(s, c); } }
      FirstBelow(s, w, c + 1)
  }

  /** The least cycle at which fewer than `w` of the issued instructions are still in the window; a
      window of size zero is switched off. */
  function WindowCycle(s: seq<nat>, w: nat): nat {
    if w == 0 then 0 else FirstBelow(s, w, 0)
  }

  lemma WindowCycleIs(s: seq<nat>, w: nat, c: nat)
    requires w > 0 && |AtLeast(s, c)| < w && (c > 0 ==> |AtLeast(s, c - 1)| >= w)
    ensures WindowCycle(s, w) == c
  {
    var r := WindowCycle(s, w);
    if r < c {
      AtLeastShrinks(s, r, c - 1);
    } else if c < r {
      AtLeastShrinks(s, c, r - 1);
    }
  }

  lemma {:induction false} AtLeastBetween(t: seq<nat>, c: nat, k: nat)
    requires k <= |t|
    ensures (forall i :: 0 <= i < k ==> t[i] >= c) ==> |AtLeast(t, c)| >= k
    ensures (forall i :: k <= i < |t| ==> t[i] < c) ==> |AtLeast(t, c)| <= k
    decreases |t|
  {
    if t != [] {
      AtLeastBetween(t[..|t| - 1], c, if k == |t| then k - 1 else k);
    }
  }

  lemma {:induction false} AtLeastCounts(s: seq<nat>, c: nat, x: nat)
    ensures multiset(AtLeast(s, c))[x] == if x >= c then multiset(s)[x] else 0
    decreases |s|
  {
    if s != [] {
      AtLeastCounts(s[..|s| - 1], c, x);
      assert s == s[..|s| - 1] + [s[|s| - 1]];
    }
  }

  lemma AtLeastPermutes(s: seq<nat>, t: seq<nat>, c: nat)
    requires multiset(s) == multiset(t)
    ensures |AtLeast(s, c)| == |AtLeast(t, c)|
  {
    forall x: nat ensures multiset(AtLeast(s, c))[x] == multiset(AtLeast(t, c))[x] {
      AtLeastCounts(s, c, x);
      AtLeastCounts(t, c, x);
    }
    assert multiset(AtLeast(s, c)) == multiset(AtLeast(t, c));
    assert |multiset(AtLeast(s, c))| == |multiset(AtLeast(t, c))|;
  }

  ghost predicate NeverIncreases(s: seq<nat>) {
    forall i, j :: 0 <= i < j < |s| ==> s[i] >= s[j]
  }

  lemma RankBounds(sorted: seq<nat>, w: nat)
    requires 0 < w <= |sorted| && NeverIncreases(sorted)
    ensures |AtLeast(sorted, sorted[w - 1] + 1)| < w <= |AtLeast(sorted, sorted[w - 1])|
  {
    AtLeastBetween(sorted, sorted[w - 1] + 1, w - 1);
    AtLeastBetween(sorted, sorted[w - 1], w);
  }

  /** Zero as long as fewer than `w` instructions have been issued, then one more than the `w`-th
      largest issue cycle so far. */
  lemma WindowCycleIsRank(s: seq<nat>, sorted: seq<nat>, w: nat)
    requires w > 0 && multiset(s) == multiset(sorted) && NeverIncreases(sorted)
    ensures |s| == |sorted|
    ensures WindowCycle(s, w) == if |s| < w then 0 else sorted[w - 1] + 1
  {
    assert |s| == |multiset(s)| == |multiset(sorted)| == |sorted|;
    if |s| < w {
      WindowCycleIs(s, w, 0);
    } else {
      var c := sorted[w - 1] + 1;
      RankBounds(sorted, w);
      AtLeastPermutes(s, sorted, c);
      AtLeastPermutes(s, sorted, c - 1);
      WindowCycleIs(s, w, c);
    }
  }

  function Inserted(sorted: seq<nat>, x: nat): (r: seq<nat>)
    ensures |r| == |sorted| + 1
  {
    if sorted == [] then [x]
    else if x >= sorted[0] then [x] + sorted
    else [sorted[0]] + Inserted(sorted[1..], x)
  }

  lemma {:induction false} InsertedHas(sorted: seq<nat>, x: nat)
    ensures multiset(Inserted(sorted, x)) == multiset(sorted) + multiset{x}
    decreases |sorted|
  {
    if sorted != [] {
      assert sorted == [sorted[0]] + sorted[1..];
      InsertedHas(sorted[1..], x);
    }
  }

  lemma {:induction false} InsertedInOrder(sorted: seq<nat>, x: nat)
    requires NeverIncreases(sorted)
    ensures var r := Inserted(sorted, x);
      NeverIncreases(r) && forall j :: 0 <= j < |r| ==> r[j] <= x || (sorted != [] && r[j] <= sorted[0])
    decreases |sorted|
  {
    if sorted != [] && x < sorted[0] {
      InsertedInOrder(sorted[1..], x);
    }
  }

  /** The entries from the largest to the smallest. */
  function Descending(s: seq<nat>): (r: seq<nat>)
    ensures |r| == |s|
  {
    if s == [] then [] else Inserted(Descending(s[..|s| - 1]), s[|s| - 1])
  }

  lemma {:induction false} DescendingIs(s: seq<nat>)
    ensures NeverIncreases(Descending(s)) && multiset(Descending(s)) == multiset(s)
    decreases |s|
  {
    if s != [] {
      DescendingIs(s[..|s| - 1]);
      InsertedHas(Descending(s[..|s| - 1]), s[|s| - 1]);
      InsertedInOrder(Descending(s[..|s| - 1]), s[|s| - 1]);
      assert s == s[..|s| - 1] + [s[|s| - 1]];
    }
  }

  /** The cycle from which a window of size `w` has room: the next one after the `w`-th largest. */
  function RoomFrom(s: seq<nat>, w: nat): nat {
    if w == 0 || |s| < w then 0 else Descending(s)[w - 1] + 1
  }

  lemma WindowCycleIsRoomFrom(s: seq<nat>, w: nat)
    ensures WindowCycle(s, w) == RoomFrom(s, w)
  {
    if w > 0 {
      DescendingIs(s);
      WindowCycleIsRank(s, Descending(s), w);
    }
  }

  lemma {:induction false} AtLeastMonotone(a: seq<nat>, b: seq<nat>, c: nat)
    requires |a| == |b| && forall k :: 0 <= k < |a| ==> a[k] <= b[k]
    ensures |AtLeast(a, c)| <= |AtLeast(b, c)|
    decreases |a|
  {
    if a != [] {
      AtLeastMonotone(a[..|a| - 1], b[..|b| - 1], c);
    }
  }

  /** Later issue cycles move the window later. */
  lemma WindowCycleMonotone(a: seq<nat>, b: seq<nat>, w: nat)
    requires |a| == |b| && forall k :: 0 <= k < |a| ==> a[k] <= b[k]
    ensures WindowCycle(a, w) <= WindowCycle(b, w)
  {
    var x, y := WindowCycle(a, w), WindowCycle(b, w);
    if y < x {
      AtLeastMonotone(a, b, y);
      AtLeastShrinks(a, y, x - 1);
    }
  }

  /** The release loop: the full window drops the instructions of its earliest cycle and moves on,
      until it has room again. */
  method Release(w: nat, scheduler: seq<nat>, cycle: nat, ghost issued: seq<nat>) returns (scheduler': seq<nat>, cycle': nat)
    requires w > 0 && scheduler == AtLeast(issued, cycle) && |scheduler| <= w
    requires cycle > 0 ==> |AtLeast(issued, cycle - 1)| >= w
    ensures cycle' == WindowCycle(issued, w) && scheduler' == AtLeast(issued, cycle') && |scheduler'| < w
  {
    scheduler', cycle' := scheduler, cycle;
    while |scheduler'| == w
      invariant scheduler' == AtLeast(issued, cycle') && |scheduler'| <= w
      invariant cycle' > 0 ==> |AtLeast(issued, cycle' - 1)| >= w
      decreases MaxOf(issued) + 1 - cycle'
    {
      if cycle' > MaxOf(issued) { NoneAbove(issued, cycle'); }
      WithoutLeast(issued, cycle');
      scheduler' := WithoutAll(scheduler', cycle');
      cycle' := cycle' + 1;
    }
    WindowCycleIs(issued, w, cycle');
  }
}
