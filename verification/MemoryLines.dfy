/** Accesses to addresses, and the cache lines they fall into: aligned blocks of one size. */
module MemoryLines {
  import opened Basics
  import opened ReuseSpec

  type Positive = n: nat | n > 0 witness 1

  /** An access to an address. */
  datatype Touch = Touch(address: nat, time: nat)

  /** The `k`-th aligned block of `size`. */
  predicate InBlock(x: nat, size: nat, k: nat) {
    k * size <= x < (k + 1) * size
  }

  lemma InOneBlock(x: nat, size: Positive, j: nat, k: nat)
    requires InBlock(x, size, j) && InBlock(x, size, k)
    ensures j == k
  {
    if j < k {
      NextBlock(size, j, k);
    } else if k < j {
      NextBlock(size, k, j);
    }
  }

  lemma NextBlock(size: Positive, j: nat, k: nat)
    requires j < k
    ensures (j + 1) * size <= k * size
  {
  }

  lemma InOwnBlock(x: nat, size: Positive)
    ensures InBlock(x, size, x / size)
  {
    var q, r := x / size, x % size;
    assert x == q * size + r && r < size;
    assert (q + 1) * size == q * size + size;
  }

  /** Division finds the block. */
  lemma BlockIsQuotient(x: nat, size: Positive, k: nat)
    ensures InBlock(x, size, k) <==> k == x / size
  {
    InOwnBlock(x, size);
    if InBlock(x, size, k) {
      InOneBlock(x, size, k, x / size);
    }
  }

  ghost predicate SameBlock(a: nat, b: nat, size: nat) {
    exists k: nat :: InBlock(a, size, k) && InBlock(b, size, k)
  }

  /** The accesses of `h` are the touches, each in its block. */
  ghost predicate ByLine(touches: seq<Touch>, size: nat, h: Trace) {
    |h| == |touches|
    && forall i :: 0 <= i < |h| ==> h[i].time == touches[i].time && InBlock(touches[i].address, size, h[i].line)
  }

  lemma SameLine(a: nat, k: nat, b: nat, l: nat, size: Positive)
    requires InBlock(a, size, k) && InBlock(b, size, l)
    ensures SameBlock(a, b, size) <==> k == l
  {
    BlockIsQuotient(a, size, k);
    BlockIsQuotient(b, size, l);
    if SameBlock(a, b, size) {
      var j: nat :| InBlock(a, size, j) && InBlock(b, size, j);
      BlockIsQuotient(a, size, j);
      BlockIsQuotient(b, size, j);
    }
  }

  function LineOf(address: nat, size: Positive): nat {
    address / size
  }

  /** Addresses share a line exactly if one aligned block of the line size holds both. */
  lemma LineIsBlock(address: nat, other: nat, size: Positive)
    ensures InBlock(address, size, LineOf(address, size))
    ensures LineOf(address, size) == LineOf(other, size)
      <==> exists k: nat :: k * size <= address < (k + 1) * size && k * size <= other < (k + 1) * size
  {
    InOwnBlock(address, size);
    InOwnBlock(other, size);
    SameLine(address, LineOf(address, size), other, LineOf(other, size), size);
    if SameBlock(address, other, size) {
      var k: nat :| InBlock(address, size, k) && InBlock(other, size, k);
      assert k * size <= address < (k + 1) * size && k * size <= other < (k + 1) * size;
    }
    if k: nat :| k * size <= address < (k + 1) * size && k * size <= other < (k + 1) * size {
      assert InBlock(address, size, k) && InBlock(other, size, k);
    }
  }

  /** The touches by line. */
  ghost function LinesOf(touches: seq<Touch>, size: Positive): Trace {
    if touches == [] then []
    else
      var last := touches[|touches| - 1];
      LinesOf(touches[..|touches| - 1], size) + [Access(LineOf(last.address, size), last.time)]
  }

  lemma LinesOfSnoc(touches: seq<Touch>, t: Touch, size: Positive)
    ensures LinesOf(touches + [t], size) == LinesOf(touches, size) + [Access(LineOf(t.address, size), t.time)]
  {
    assert (touches + [t])[..|touches|] == touches;
  }

  lemma {:induction false} LinesOfByLine(touches: seq<Touch>, size: Positive)
    ensures ByLine(touches, size, LinesOf(touches, size))
    decreases |touches|
  {
    if touches != [] {
      LinesOfByLine(touches[..|touches| - 1], size);
      InOwnBlock(touches[|touches| - 1].address, size);
    }
  }

  // ----- Reuse of blocks -------------------------------------------------------------------

  /** The position of the latest touch of the block of `a`, or -1. */
  ghost function LatestTouch(touches: seq<Touch>, size: nat, a: nat): (i: int)
    ensures -1 <= i < |touches|
  {
    if touches == [] then -1
    else if SameBlock(touches[|touches| - 1].address, a, size) then |touches| - 1
    else LatestTouch(touches[..|touches| - 1], size, a)
  }

  /** The number of different blocks touched. */
  ghost function DistinctBlocks(touches: seq<Touch>, size: nat): nat {
    if touches == [] then 0
    else
      var front, last := touches[..|touches| - 1], touches[|touches| - 1];
      DistinctBlocks(front, size) + (if LatestTouch(front, size, last.address) < 0 then 1 else 0)
  }

  /** How many different blocks have been touched since the block of `a`. */
  ghost function BlockDistance(touches: seq<Touch>, size: nat, a: nat): Option<nat> {
    var i := LatestTouch(touches, size, a);
    if i < 0 then None else Some(DistinctBlocks(touches[i + 1..], size))
  }

  /** How many touches come back to a block at a distance below `c`. */
  ghost function BlockReusesBelow(touches: seq<Touch>, size: nat, c: nat): nat {
    if touches == [] then 0
    else
      var front, last := touches[..|touches| - 1], touches[|touches| - 1];
      BlockReusesBelow(front, size, c)
      + match BlockDistance(front, size, last.address)
        case None => 0
        case Some(d) => if d < c then 1 else 0
  }

  lemma ByLineSlices(touches: seq<Touch>, size: Positive, h: Trace, i: nat)
    requires ByLine(touches, size, h) && i <= |h|
    ensures ByLine(touches[..i], size, h[..i]) && ByLine(touches[i..], size, h[i..])
  {
  }

  lemma {:induction false} LatestIsLatestTouch(touches: seq<Touch>, size: Positive, h: Trace, a: nat, line: nat)
    requires ByLine(touches, size, h) && InBlock(a, size, line)
    ensures LatestTouch(touches, size, a) == Latest(h, line)
    decreases |h|
  {
    if h != [] {
      var n := |h| - 1;
      SameLine(touches[n].address, h[n].line, a, line, size);
      ByLineSlices(touches, size, h, n);
      LatestIsLatestTouch(touches[..n], size, h[..n], a, line);
    }
  }

  lemma InLinesIffLatest(h: Trace, line: nat)
    ensures line in Lines(h) <==> Latest(h, line) >= 0
  {
    if line in Lines(h) { var k :| 0 <= k < |h| && h[k].line == line; }
  }

  lemma LinesGrow(h: Trace)
    requires h != []
    ensures var front, last := h[..|h| - 1], h[|h| - 1];
      |Lines(h)| == |Lines(front)| + if Latest(front, last.line) < 0 then 1 else 0
  {
    var front, last := h[..|h| - 1], h[|h| - 1];
    InLinesIffLatest(front, last.line);
    LinesSnoc(front, last);
    assert h == front + [last];
  }

  lemma {:induction false} LinesAreBlocks(touches: seq<Touch>, size: Positive, h: Trace)
    requires ByLine(touches, size, h)
    ensures DistinctBlocks(touches, size) == |Lines(h)|
    decreases |h|
  {
    if h == [] {
      assert Lines(h) == {};
    } else {
      var n := |h| - 1;
      ByLineSlices(touches, size, h, n);
      LinesAreBlocks(touches[..n], size, h[..n]);
      LatestIsLatestTouch(touches[..n], size, h[..n], touches[n].address, h[n].line);
      LinesGrow(h);
    }
  }

  /** The distance of a line is that of its block. */
  lemma DistanceIsOfBlocks(touches: seq<Touch>, size: Positive, h: Trace, a: nat, line: nat)
    requires ByLine(touches, size, h) && InBlock(a, size, line)
    ensures Distance(h, line) == BlockDistance(touches, size, a)
  {
    var i := Latest(h, line);
    LatestIsLatestTouch(touches, size, h, a, line);
    if i >= 0 {
      ByLineSlices(touches, size, h, i + 1);
      LinesAreBlocks(touches[i + 1..], size, h[i + 1..]);
    }
  }

  lemma {:induction false} ReusesAreOfBlocks(touches: seq<Touch>, size: Positive, h: Trace, c: nat)
    requires ByLine(touches, size, h)
    ensures ReusesBelow(h, c) == BlockReusesBelow(touches, size, c)
    decreases |h|
  {
    if h != [] {
      var n := |h| - 1;
      ByLineSlices(touches, size, h, n);
      ReusesAreOfBlocks(touches[..n], size, h[..n], c);
      DistanceIsOfBlocks(touches[..n], size, h[..n], touches[n].address, h[n].line);
    }
  }

  // ----- Lines of instructions -------------------------------------------------------------

  /** The key of an instruction: with lines, the block of as many instructions as fit into a line that
      its index lies in; otherwise its identity. */
  ghost predicate IsKey(line: nat, inst: nat, identity: nat, index: nat, key: nat) {
    if line != 0 && inst != 0 then exists fit: nat :: InBlock(line, inst, fit) && InBlock(index, fit, key)
    else key == identity
  }

  lemma LineHoldsInstructions(line: nat, inst: nat)
    requires 0 < inst <= line
    ensures line / inst > 0
  {
  }

  lemma KeyIsQuotient(line: nat, inst: nat, identity: nat, index: nat, key: nat)
    requires line != 0 && inst != 0 ==> inst <= line
    ensures IsKey(line, inst, identity, index, key) <==>
      key == if line != 0 && inst != 0 then (LineHoldsInstructions(line, inst); index / (line / inst)) else identity
  {
    if line != 0 && inst != 0 {
      var fit := line / inst;
      LineHoldsInstructions(line, inst);
      BlockIsQuotient(line, inst, fit);
      BlockIsQuotient(index, fit, key);
      if IsKey(line, inst, identity, index, key) {
        var other: nat :| InBlock(line, inst, other) && InBlock(index, other, key);
        BlockIsQuotient(line, inst, other);
      }
    }
  }
}
