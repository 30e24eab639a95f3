/** Reuse distances, histograms and LRU caches as functions of an access trace. */
module ReuseSpec {
  import opened Basics
  import opened PowersOfTwo

  /** One access: which line, and the issue cycle that stamps it. */
  datatype Access = Access(line: nat, time: nat)

  type Trace = seq<Access>

  ghost predicate Stamped(h: Trace) {
    && (forall i :: 0 <= i < |h| ==> h[i].time > 0)
    && (forall i, j :: 0 <= i < j < |h| ==> h[i].time < h[j].time)
  }

  ghost function Lines(h: Trace): set<nat> {
    set i | 0 <= i < |h| :: h[i].line
  }

  /** The position of the latest access to `line`, or -1. */
  ghost function Latest(h: Trace, line: nat): (i: int)
    ensures -1 <= i < |h|
    ensures i >= 0 ==> h[i].line == line
    ensures forall j :: i < j < |h| ==> h[j].line != line
  {
    if h == [] then -1
    else if h[|h| - 1].line == line then |h| - 1
    else Latest(h[..|h| - 1], line)
  }

  /** The reuse distance a scan of the trace finds for a next access to `line`: the number of
      distinct lines accessed since the latest access to it. */
  ghost function Distance(h: Trace, line: nat): Option<nat> {
    if Latest(h, line) < 0 then None else Some(|Lines(h[Latest(h, line) + 1..])|)
  }

  /** The latest stamp of every line. */
  ghost function LastStamps(h: Trace): map<nat, nat> {
    if h == [] then map[]
    else LastStamps(h[..|h| - 1])[h[|h| - 1].line := h[|h| - 1].time]
  }

  lemma {:induction false} LastStampsAt(h: Trace, line: nat)
    ensures line in LastStamps(h) <==> Latest(h, line) >= 0
    ensures line in LastStamps(h) ==> LastStamps(h)[line] == h[Latest(h, line)].time
    decreases |h|
  {
    if h != [] { LastStampsAt(h[..|h| - 1], line); }
  }

  ghost predicate Injective(m: map<nat, nat>) {
    forall a, b :: a in m && b in m && m[a] == m[b] ==> a == b
  }

  lemma LastStampsInjective(h: Trace)
    requires Stamped(h)
    ensures Injective(LastStamps(h))
  {
    forall a, b | a in LastStamps(h) && b in LastStamps(h) && LastStamps(h)[a] == LastStamps(h)[b]
      ensures a == b
    {
      LastStampsAt(h, a);
      LastStampsAt(h, b);
    }
  }

  /** Renaming by an injective map keeps the size of a set. */
  lemma {:induction false} ImageSize(m: map<nat, nat>, lines: set<nat>, image: set<nat>)
    requires Injective(m) && lines <= m.Keys
    requires image == set l | l in lines :: m[l]
    ensures |image| == |lines|
    decreases lines
  {
    if lines != {} {
      var l :| l in lines;
      ImageSize(m, lines - {l}, image - {m[l]});
    } else {
      assert image == {};
    }
  }

  /** A line accessed behind the latest access to `line` has a later stamp. */
  lemma AccessedLater(h: Trace, line: nat, k: nat)
    requires Stamped(h) && line in LastStamps(h) && Latest(h, line) < k < |h|
    ensures h[k].line in LastStamps(h) && LastStamps(h)[h[k].line] > LastStamps(h)[line]
  {
    LastStampsAt(h, line);
    LastStampsAt(h, h[k].line);
    assert Latest(h, h[k].line) >= k;
  }

  lemma StampedLater(h: Trace, line: nat, l: nat)
    requires Stamped(h) && line in LastStamps(h) && l in LastStamps(h) && LastStamps(h)[l] > LastStamps(h)[line]
    ensures 0 <= Latest(h, line) < Latest(h, l)
  {
    LastStampsAt(h, line);
    LastStampsAt(h, l);
  }

  ghost predicate AccessedAfter(h: Trace, i: nat, l: nat) {
    exists k :: i < k < |h| && h[k].line == l
  }

  lemma AccessedIn(h: Trace, i: nat, l: nat)
    requires i < |h|
    ensures l in Lines(h[i + 1..]) <==> AccessedAfter(h, i, l)
  {
    var q := h[i + 1..];
    if l in Lines(q) {
      var k :| 0 <= k < |q| && q[k].line == l;
      assert h[i + 1 + k].line == l;
    }
    if AccessedAfter(h, i, l) {
      var k :| i < k < |h| && h[k].line == l;
      assert q[k - i - 1].line == l;
    }
  }

  lemma LaterIffAccessed(h: Trace, line: nat, l: nat)
    requires Stamped(h) && line in LastStamps(h)
    ensures Latest(h, line) >= 0
    ensures l in LastStamps(h) && LastStamps(h)[l] > LastStamps(h)[line] <==> AccessedAfter(h, Latest(h, line), l)
  {
    LastStampsAt(h, line);
    if l in LastStamps(h) && LastStamps(h)[l] > LastStamps(h)[line] {
      StampedLater(h, line, l);
      assert h[Latest(h, l)].line == l;
    }
    if AccessedAfter(h, Latest(h, line), l) {
      var k :| Latest(h, line) < k < |h| && h[k].line == l;
      AccessedLater(h, line, k);
    }
  }

  ghost function LaterThan(m: map<nat, nat>, line: nat): set<nat>
    requires line in m
  {
    set l | l in m && m[l] > m[line]
  }

  /** The lines stamped after the latest access to `line` are those accessed since. */
  lemma LaterLines(h: Trace, line: nat)
    requires Stamped(h) && line in LastStamps(h)
    ensures Latest(h, line) >= 0 && LaterThan(LastStamps(h), line) == Lines(h[Latest(h, line) + 1..])
  {
    LaterIffAccessed(h, line, line);
    forall l ensures l in LaterThan(LastStamps(h), line) <==> l in Lines(h[Latest(h, line) + 1..]) {
      LaterIffAccessed(h, line, l);
      AccessedIn(h, Latest(h, line), l);
    }
  }

  ghost function StampsAbove(m: map<nat, nat>, stamp: nat): set<nat> {
    set t | t in m.Values && t > stamp
  }

  /** The number of stamps above a line's own stamp is its reuse distance. */
  lemma StampsAboveAreDistance(h: Trace, line: nat)
    requires Stamped(h) && line in LastStamps(h)
    ensures var m := LastStamps(h);
      Distance(h, line) == Some(|StampsAbove(m, m[line])|)
  {
    var m := LastStamps(h);
    var later := LaterThan(m, line);
    var stamps := StampsAbove(m, m[line]);
    LaterLines(h, line);
    LastStampsInjective(h);
    assert stamps == set l | l in later :: m[l];
    ImageSize(m, later, stamps);
  }

  // ----- Histogram -------------------------------------------------------------------------

  /** The bin of a distance: powers of two with no resolution or beyond the final bin, otherwise
      the next multiple of the resolution strictly above. */
  function BinOf(distance: nat, resolution: nat, finalBin: nat): nat {
    if distance > finalBin || resolution < 1 then RoundUp(distance)
    else distance + (resolution - distance % resolution)
  }

  function Counted(m: map<nat, nat>, bin: nat): map<nat, nat> {
    if bin in m then m[bin := m[bin] + 1] else m[bin := 1]
  }

  ghost function Histogram(h: Trace, resolution: nat, finalBin: nat): map<nat, nat> {
    if h == [] then map[]
    else
      var m := Histogram(h[..|h| - 1], resolution, finalBin);
      match Distance(h[..|h| - 1], h[|h| - 1].line)
      case None => m
      case Some(d) => Counted(m, BinOf(d, resolution, finalBin))
  }

  lemma HistogramSnoc(h: Trace, a: Access, resolution: nat, finalBin: nat)
    ensures Histogram(h + [a], resolution, finalBin) ==
      match Distance(h, a.line)
      case None => Histogram(h, resolution, finalBin)
      case Some(d) => Counted(Histogram(h, resolution, finalBin), BinOf(d, resolution, finalBin))
  {
    assert (h + [a])[..|h|] == h;
  }

  /** The running sum a dump of the histogram shows at `bin`. */
  ghost function PrefixSum(m: map<nat, nat>, bin: nat): nat {
    (if bin in m then m[bin] else 0) + (if bin == 0 then 0 else PrefixSum(m, bin - 1))
  }

  lemma {:induction false} PrefixSumCounted(m: map<nat, nat>, bin: nat, b: nat)
    ensures PrefixSum(Counted(m, bin), b) == PrefixSum(m, b) + (if bin <= b then 1 else 0)
    decreases b
  {
    if b > 0 { PrefixSumCounted(m, bin, b - 1); }
  }

  lemma {:induction false} PrefixSumEmpty(b: nat)
    ensures PrefixSum(map[], b) == 0
    decreases b
  {
    if b > 0 { PrefixSumEmpty(b - 1); }
  }

  /** How many accesses of the trace reuse a line at a distance below `c`. */
  ghost function ReusesBelow(h: Trace, c: nat): nat {
    if h == [] then 0
    else
      var n := ReusesBelow(h[..|h| - 1], c);
      match Distance(h[..|h| - 1], h[|h| - 1].line)
      case None => n
      case Some(d) => if d < c then n + 1 else n
  }

  /** If a bin boundary `b` separates the distances below `c` from the others, the prefix sum up
      to `b` counts exactly the former. */
  lemma {:induction false} PrefixSumCounts(h: Trace, resolution: nat, finalBin: nat, b: nat, c: nat, bound: nat)
    requires forall d: nat :: d <= bound ==> (BinOf(d, resolution, finalBin) <= b <==> d < c)
    requires forall i :: 0 <= i < |h| && Distance(h[..i], h[i].line).Some? ==> Distance(h[..i], h[i].line).value <= bound
    ensures PrefixSum(Histogram(h, resolution, finalBin), b) == ReusesBelow(h, c)
    decreases |h|
  {
    if h == [] {
      PrefixSumEmpty(b);
    } else {
      var g, a := h[..|h| - 1], h[|h| - 1];
      assert forall i :: 0 <= i < |g| ==> g[..i] == h[..i] && g[i] == h[i];
      PrefixSumCounts(g, resolution, finalBin, b, c, bound);
      if Distance(g, a.line).Some? {
        PrefixSumCounted(Histogram(g, resolution, finalBin), BinOf(Distance(g, a.line).value, resolution, finalBin), b);
      }
    }
  }

  /** Stamps bound distances: between two stamps there is room for at most that many others. */
  lemma {:induction false} DistanceBounded(h: Trace, line: nat)
    requires Stamped(h) && Distance(h, line).Some?
    ensures h != [] && Distance(h, line).value < h[|h| - 1].time
  {
    var q := h[Latest(h, line) + 1..];
    LinesAtMost(q);
    StampsGrow(h, |h| - 1);
  }

  lemma {:induction false} LinesAtMost(q: Trace)
    ensures |Lines(q)| <= |q|
    decreases |q|
  {
    if q == [] {
      assert Lines(q) == {};
    } else {
      var g := q[..|q| - 1];
      LinesAtMost(g);
      assert Lines(q) == Lines(g) + {q[|q| - 1].line} by { LinesSnoc(g, q[|q| - 1]); assert q == g + [q[|q| - 1]]; }
    }
  }

  lemma LinesSnoc(g: Trace, a: Access)
    ensures Lines(g + [a]) == Lines(g) + {a.line}
  {
    var q := g + [a];
    forall l | l in Lines(g) + {a.line} ensures l in Lines(q) {
      if l in Lines(g) {
        var i :| 0 <= i < |g| && g[i].line == l;
        assert q[i].line == l;
      } else {
        assert q[|g|].line == l;
      }
    }
  }

  lemma {:induction false} StampsGrow(h: Trace, i: nat)
    requires Stamped(h) && i < |h|
    ensures h[i].time >= i + 1
    decreases i
  {
    if i > 0 { StampsGrow(h, i - 1); }
  }

  /** Every access is either the first to its line or counted in the histogram. */
  lemma {:induction false} HistogramTotal(h: Trace, resolution: nat, finalBin: nat, b: nat)
    requires forall bin :: bin in Histogram(h, resolution, finalBin) ==> bin <= b
    ensures PrefixSum(Histogram(h, resolution, finalBin), b) + |Lines(h)| == |h|
    decreases |h|
  {
    if h == [] {
      PrefixSumEmpty(b);
      assert Lines(h) == {};
    } else {
      var g, a := h[..|h| - 1], h[|h| - 1];
      assert h == g + [a];
      LinesSnoc(g, a);
      var m := Histogram(g, resolution, finalBin);
      assert a.line in Lines(g) <==> Latest(g, a.line) >= 0 by {
        if a.line in Lines(g) { var k :| 0 <= k < |g| && g[k].line == a.line; }
      }
      if Distance(g, a.line).Some? {
        var bin := BinOf(Distance(g, a.line).value, resolution, finalBin);
        assert bin in Histogram(h, resolution, finalBin);
        PrefixSumCounted(m, bin, b);
      }
      forall x | x in m ensures x <= b { assert x in Histogram(h, resolution, finalBin); }
      HistogramTotal(g, resolution, finalBin, b);
    }
  }
}
