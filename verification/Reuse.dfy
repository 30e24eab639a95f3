/** The two reuse analyses: a last-access map and a splay tree of stamps, updated per access. */
module Reuse {
  import opened Basics
  import opened PowersOfTwo
  import opened ReuseSpec
  import opened LruCache
  import opened MemoryLines
  import opened SplayShapes
  import opened SplayTree
  import opened SplayOperations

  /** The instructions as the data analysis sees them; `Other` stands for all other opcodes. */
  datatype Instruction = Load(address: nat) | Store(address: nat) | Other

  /** The tree holds exactly the latest stamps of the lines in the map. */
  ghost predicate Tracks(tree: TreeNode?, shape: Shape, last: map<nat, nat>, h: Trace)
    reads NodesS(shape)
  {
    && SearchTree(tree, shape) && Stamped(h)
    && last == LastStamps(h) && Keys(shape) == last.Values
  }

  lemma StampsRefresh(h: Trace, a: Access)
    requires Stamped(h + [a])
    ensures LastStamps(h + [a]) == LastStamps(h)[a.line := a.time]
    ensures var m, m' := LastStamps(h), LastStamps(h + [a]);
      m'.Values == (if a.line in m then m.Values - {m[a.line]} else m.Values) + {a.time}
      && a.time !in m.Values
  {
    var m, m' := LastStamps(h), LastStamps(h + [a]);
    assert (h + [a])[..|h|] == h && Stamped(h) by {
      assert forall i :: 0 <= i < |h| ==> (h + [a])[i] == h[i];
    }
    LastStampsInjective(h);
    forall t | t in m.Values ensures t < a.time {
      var l :| l in m && m[l] == t;
      LastStampsAt(h, l);
      assert (h + [a])[Latest(h, l)].time < (h + [a])[|h|].time;
    }
    forall t | t in m.Values && !(a.line in m && t == m[a.line]) ensures t in m'.Values {
      var l :| l in m && m[l] == t;
      assert m'[l] == t;
    }
    assert m'[a.line] == a.time;
    forall t | t in m'.Values ensures t == a.time || (t in m.Values && !(a.line in m && t == m[a.line])) {
      var l :| l in m' && m'[l] == t;
      if l != a.line { assert m[l] == t; }
    }
  }

  lemma StampedSnoc(h: Trace, a: Access)
    requires Stamped(h) && a.time > if h == [] then 0 else h[|h| - 1].time
    ensures Stamped(h + [a])
  {
  }

  /** A tree whose keys follow the map through one access still tracks the trace. */
  lemma TracksOn(tree: TreeNode?, s: Shape, t: Shape, h: Trace, a: Access)
    requires Stamped(h + [a]) && Keys(s) == LastStamps(h).Values && SearchTree(tree, t)
    requires Keys(t) == (if a.line in LastStamps(h) then Keys(s) - {LastStamps(h)[a.line]} else Keys(s)) + {a.time}
    ensures Tracks(tree, t, LastStamps(h)[a.line := a.time], h + [a])
  {
    StampsRefresh(h, a);
  }

  /** The data analysis on a line seen before: take the least distance found (there is one candidate
      per access in line mode) and replace the stamp it belongs to. */
  method MoveLeast(previous: nat, stamp: nat, tree: TreeNode?, ghost s: Shape)
    returns (tree': TreeNode, distance: nat, ghost s': Shape)
    requires SearchTree(tree, s) && previous in Keys(s) && stamp > 0
    modifies NodesS(s)
    ensures SearchTree(tree', s') && Keys(s') == Keys(s) - {previous} + {stamp}
    ensures NodesS(s') <= NodesS(s) + {tree'} && (tree' in NodesS(s) || fresh(tree'))
    ensures distance == |KeysAbove(s, previous)|
  {
    SplayKeeps(previous, s);
    ghost var splayed := SplayShape(previous, s);
    distance := 0;
    var previousIssueCycle, candidate := 0, 0;
    var root;
    root, candidate := ComputeDistance(previous, tree, s);
    if root != null && root.key == previous && (distance == 0 || candidate < distance) {
      distance, previousIssueCycle := candidate, previous;
    }
    tree', s' := Update(previousIssueCycle, stamp, root, splayed);
  }

  /** The instruction analysis on a key seen before. */
  method MoveFound(previous: nat, stamp: nat, tree: TreeNode?, ghost s: Shape)
    returns (tree': TreeNode, distance: nat, ghost s': Shape)
    requires SearchTree(tree, s) && previous in Keys(s) && stamp > 0
    modifies NodesS(s)
    ensures SearchTree(tree', s') && Keys(s') == Keys(s) - {previous} + {stamp}
    ensures NodesS(s') <= NodesS(s) + {tree'} && (tree' in NodesS(s) || fresh(tree'))
    ensures distance == |KeysAbove(s, previous)|
  {
    SplayKeeps(previous, s);
    ghost var splayed := SplayShape(previous, s);
    var root;
    root, distance := ComputeDistance(previous, tree, s);
    if root != null && root.key == previous {
      tree', s' := Update(previous, stamp, root, splayed);
    } else {
      assert false;  // the code would insert the stamp, but the stamp is always at the root
    }
  }

  /** The tree of stamps through one access: a known line's stamp is measured and moved, a new
      line's stamp is inserted. */
  method Restamp(data: bool, found: bool, previous: nat, stamp: nat, tree: TreeNode?, ghost s: Shape)
    returns (tree': TreeNode, distance: nat, ghost s': Shape)
    requires SearchTree(tree, s) && stamp > 0 && (found ==> previous in Keys(s))
    modifies NodesS(s)
    ensures SearchTree(tree', s') && NodesS(s') <= NodesS(s) + {tree'} && (tree' in NodesS(s) || fresh(tree'))
    ensures Keys(s') == (if found then Keys(s) - {previous} else Keys(s)) + {stamp}
    ensures distance == if found then |KeysAbove(s, previous)| else 0
  {
    distance := 0;
    if !found {
      tree', s' := Insert(stamp, tree, s);
    } else if data {
      tree', distance, s' := MoveLeast(previous, stamp, tree, s);
    } else {
      tree', distance, s' := MoveFound(previous, stamp, tree, s);
    }
  }

  /** What the keys above a line's stamp count. */
  lemma KeysAboveAreDistance(tree: TreeNode?, s: Shape, last: map<nat, nat>, h: Trace, a: Access)
    requires Tracks(tree, s, last, h) && Stamped(h + [a])
    ensures a.line in last <==> Distance(h, a.line).Some?
    ensures a.line in last ==> last[a.line] in Keys(s) && Distance(h, a.line) == Some(|KeysAbove(s, last[a.line])|)
    ensures a.line in last ==> |KeysAbove(s, last[a.line])| < a.time
  {
    LastStampsAt(h, a.line);
    if a.line in last {
      StampsAboveAreDistance(h, a.line);
      DistanceBounded(h, a.line);
      assert KeysAbove(s, last[a.line]) == StampsAbove(last, last[a.line]);
      assert (h + [a])[|h|] == a && (h + [a])[|h| - 1] == h[|h| - 1];
    }
  }

  /** Count one more reuse at `distance`. */
  method Tally(distribution: map<nat, nat>, distance: nat, resolution: nat, finalBin: nat)
    returns (r: map<nat, nat>)
    requires distance < WORD_RANGE
    ensures r == Counted(distribution, BinOf(distance, resolution, finalBin))
  {
    var bin := distance;
    if bin > finalBin || resolution < 1 {
      bin := UpperPowerOfTwo(bin);
    } else {
      bin := bin + (resolution - bin % resolution);
    }
    if bin !in distribution {
      r := distribution[bin := 1];
    } else {
      r := distribution[bin := distribution[bin] + 1];
    }
  }

  /** What one access leaves: the map, the tree and the histogram follow the trace. */
  lemma Followed(tree: TreeNode?, s: Shape, t: Shape, h: Trace, a: Access, distance: nat, resolution: nat, finalBin: nat)
    requires Stamped(h + [a]) && Keys(s) == LastStamps(h).Values && SearchTree(tree, t)
    requires Keys(t) == (if a.line in LastStamps(h) then Keys(s) - {LastStamps(h)[a.line]} else Keys(s)) + {a.time}
    requires Distance(h, a.line) == if a.line in LastStamps(h) then Some(distance) else None
    ensures Tracks(tree, t, LastStamps(h)[a.line := a.time], h + [a])
    ensures Histogram(h + [a], resolution, finalBin)
            == if a.line in LastStamps(h) then Counted(Histogram(h, resolution, finalBin), BinOf(distance, resolution, finalBin))
               else Histogram(h, resolution, finalBin)
  {
    TracksOn(tree, s, t, h, a);
    HistogramSnoc(h, a, resolution, finalBin);
  }

  /** One access to `line` at `stamp`. */
  method Account(data: bool, line: nat, stamp: nat, resolution: nat, finalBin: nat, last: map<nat, nat>, tree: TreeNode?,
                 distribution: map<nat, nat>, ghost s: Shape, ghost h: Trace)
    returns (last': map<nat, nat>, tree': TreeNode, distribution': map<nat, nat>, ghost s': Shape)
    requires Tracks(tree, s, last, h) && distribution == Histogram(h, resolution, finalBin)
    requires stamp < WORD_RANGE && stamp > if h == [] then 0 else h[|h| - 1].time
    modifies NodesS(s)
    ensures Tracks(tree', s', last', h + [Access(line, stamp)])
    ensures distribution' == Histogram(h + [Access(line, stamp)], resolution, finalBin)
    ensures NodesS(s') <= NodesS(s) + {tree'} && (tree' in NodesS(s) || fresh(tree'))
  {
    ghost var a := Access(line, stamp);
    StampedSnoc(h, a);
    KeysAboveAreDistance(tree, s, last, h, a);
    var found := line in last;
    var previous := if found then last[line] else 0;
    var distance;
    tree', distance, s' := Restamp(data, found, previous, stamp, tree, s);
    assert allocated(NodesS(s'));
    last', distribution' := last[line := stamp], distribution;
    if found { distribution' := Tally(distribution, distance, resolution, finalBin); }
    Followed(tree', s, s', h, a, distance, resolution, finalBin);
  }

  /** Data reuse at cache-line granularity. */
  class DataTempReuse {
    const cacheLineSize: Positive
    const resolution: nat
    const resolutionFinalBin: nat
    var lastMemoryAccess: map<nat, nat>
    var distanceTree: TreeNode?
    var distanceDistribution: map<nat, nat>
    ghost var shape: Shape
    /** The accesses so far, and the lines they went to. */
    ghost var touches: seq<Touch>
    ghost var history: Trace

    ghost predicate Follows()
      reads this`lastMemoryAccess, this`distanceTree, this`distanceDistribution, this`shape, this`history, NodesS(shape)
    {
      && Tracks(distanceTree, shape, lastMemoryAccess, history)
      && distanceDistribution == Histogram(history, resolution, resolutionFinalBin)
    }

    ghost predicate Valid()
      reads this, NodesS(shape)
    {
      history == LinesOf(touches, cacheLineSize) && Follows()
    }

    constructor (cacheLineSize: Positive, resolution: nat, resolutionFinalBin: nat)
      ensures Valid() && history == [] && touches == [] && fresh(NodesS(shape))
      ensures this.cacheLineSize == cacheLineSize && this.resolution == resolution
      ensures this.resolutionFinalBin == resolutionFinalBin
    {
      this.cacheLineSize, this.resolution, this.resolutionFinalBin := cacheLineSize, resolution, resolutionFinalBin;
      lastMemoryAccess, distanceDistribution := map[], map[];
      distanceTree := null;
      shape, history, touches := Nil, [], [];
    }

    /** A load or store counts one access to the line that holds its address; nothing else changes the
        analysis. After every visit the map, the tree and the histogram are those of the whole trace so
        far. */
    method Visit(instruction: Instruction, currentIssueCycle: nat)
      requires Valid() && currentIssueCycle < WORD_RANGE
      requires currentIssueCycle > if history == [] then 0 else history[|history| - 1].time
      modifies this, NodesS(shape)
      ensures Valid() && fresh(NodesS(shape) - old(NodesS(shape)))
      ensures touches == old(touches) + (if instruction.Other? then [] else [Touch(instruction.address, currentIssueCycle)])
      ensures history == old(history) + (if instruction.Other? then []
                                         else [Access(LineOf(instruction.address, cacheLineSize), currentIssueCycle)])
    {
      if instruction.Other? { return; }
      VisitLine(LineOf(instruction.address, cacheLineSize), currentIssueCycle);
      touches := touches + [Touch(instruction.address, currentIssueCycle)];
      assert history == LinesOf(touches, cacheLineSize) by {
        LinesOfSnoc(old(touches), Touch(instruction.address, currentIssueCycle), cacheLineSize);
      }
    }

    method VisitLine(line: nat, currentIssueCycle: nat)
      requires Follows() && currentIssueCycle < WORD_RANGE
      requires currentIssueCycle > if history == [] then 0 else history[|history| - 1].time
      modifies this`lastMemoryAccess, this`distanceTree, this`distanceDistribution, this`shape, this`history, NodesS(shape)
      ensures Follows() && fresh(NodesS(shape) - old(NodesS(shape)))
      ensures history == old(history) + [Access(line, currentIssueCycle)]
    {
      var last, tree, distribution;
      ghost var s, h := Nil, history + [Access(line, currentIssueCycle)];
      last, tree, distribution, s := Account(true, line, currentIssueCycle, resolution, resolutionFinalBin,
                                             lastMemoryAccess, distanceTree, distanceDistribution, shape, history);
      assert allocated(NodesS(s));
      Store(last, tree, distribution, s, h);
    }

    method Store(last: map<nat, nat>, tree: TreeNode?, distribution: map<nat, nat>, ghost s: Shape, ghost h: Trace)
      modifies this`lastMemoryAccess, this`distanceTree, this`distanceDistribution, this`shape, this`history
      ensures lastMemoryAccess == last && distanceTree == tree && distanceDistribution == distribution
      ensures shape == s && history == h
    {
      lastMemoryAccess, distanceTree, distanceDistribution := last, tree, distribution;
      shape, history := s, h;
    }
  }

  /** Instruction reuse: one key per instruction, or per line of instructions. */
  class InstTempReuse {
    const cacheLineSize: nat
    const instSize: nat
    var lastMemoryAccess: map<nat, nat>
    var distanceTree: TreeNode?
    var distanceDistribution: map<nat, nat>
    ghost var shape: Shape
    ghost var history: Trace

    ghost predicate Valid()
      reads this, NodesS(shape)
    {
      && (cacheLineSize != 0 && instSize != 0 ==> instSize <= cacheLineSize)
      && Tracks(distanceTree, shape, lastMemoryAccess, history)
      && distanceDistribution == Histogram(history, 0, 0)
    }

    constructor (cacheLineSize: nat, instSize: nat)
      requires cacheLineSize != 0 && instSize != 0 ==> instSize <= cacheLineSize
      ensures Valid() && history == [] && fresh(NodesS(shape))
      ensures this.cacheLineSize == cacheLineSize && this.instSize == instSize
    {
      this.cacheLineSize, this.instSize := cacheLineSize, instSize;
      lastMemoryAccess, distanceDistribution := map[], map[];
      distanceTree := null;
      shape, history := Nil, [];
    }

    /** The key of an instruction with this identity and this index in the module. */
    function KeyOf(identity: nat, index: nat): nat
      requires cacheLineSize != 0 && instSize != 0 ==> instSize <= cacheLineSize
    {
      if cacheLineSize != 0 && instSize != 0 then
        LineHoldsInstructions(cacheLineSize, instSize);
        index / (cacheLineSize / instSize)
      else identity
    }

    method Visit(identity: nat, index: nat, currentIssueCycle: nat)
      requires Valid() && currentIssueCycle < WORD_RANGE
      requires currentIssueCycle > if history == [] then 0 else history[|history| - 1].time
      modifies this, NodesS(shape)
      ensures Valid() && fresh(NodesS(shape) - old(NodesS(shape)))
      ensures exists key ::
        IsKey(cacheLineSize, instSize, identity, index, key) && history == old(history) + [Access(key, currentIssueCycle)]
    {
      var key := KeyOf(identity, index);
      KeyIsQuotient(cacheLineSize, instSize, identity, index, key);
      var last, tree, distribution;
      ghost var s, h := Nil, history + [Access(key, currentIssueCycle)];
      last, tree, distribution, s := Account(false, key, currentIssueCycle, 0, 0,
                                             lastMemoryAccess, distanceTree, distanceDistribution, shape, history);
      assert allocated(NodesS(s));
      Store(last, tree, distribution, s, h);
    }

    method Store(last: map<nat, nat>, tree: TreeNode?, distribution: map<nat, nat>, ghost s: Shape, ghost h: Trace)
      modifies this`lastMemoryAccess, this`distanceTree, this`distanceDistribution, this`shape, this`history
      ensures lastMemoryAccess == last && distanceTree == tree && distanceDistribution == distribution
      ensures shape == s && history == h
    {
      lastMemoryAccess, distanceTree, distanceDistribution := last, tree, distribution;
      shape, history := s, h;
    }
  }

  // ----- What the dumped histograms mean ---------------------------------------------------

  /** Without a resolution, the running sum dumped at bin 2^k is the number of hits of an LRU cache
      of 2^k + 1 lines on the trace so far; every other access is the first to its line. In terms of the
      addresses: it counts the accesses that come back to an aligned block behind at most 2^k others. */
  lemma DataDumpIsLruHits(d: DataTempReuse, k: nat, top: nat)
    requires d.Valid() && d.resolution == 0 && Fits(d.history)
    requires forall bin :: bin in d.distanceDistribution ==> bin <= top
    ensures PrefixSum(d.distanceDistribution, Pow2(k)) == LruHits(d.history, Pow2(k) + 1)
    ensures PrefixSum(d.distanceDistribution, Pow2(k)) == BlockReusesBelow(d.touches, d.cacheLineSize, Pow2(k) + 1)
    ensures PrefixSum(d.distanceDistribution, top) + |d.lastMemoryAccess| == |d.history|
    ensures |d.lastMemoryAccess| == DistinctBlocks(d.touches, d.cacheLineSize)
  {
    HitsAreNearReuses(d.history, Pow2(k) + 1);
    LinesOfByLine(d.touches, d.cacheLineSize);
    ReusesAreOfBlocks(d.touches, d.cacheLineSize, d.history, Pow2(k) + 1);
    LinesAreBlocks(d.touches, d.cacheLineSize, d.history);
    PowerBinsAreLruHits(d.history, d.resolutionFinalBin, k);
    HistogramTotal(d.history, d.resolution, d.resolutionFinalBin, top);
    MapSize(d.history);
  }

  lemma InstDumpIsLruHits(d: InstTempReuse, k: nat, top: nat)
    requires d.Valid() && Fits(d.history)
    requires forall bin :: bin in d.distanceDistribution ==> bin <= top
    ensures PrefixSum(d.distanceDistribution, Pow2(k)) == LruHits(d.history, Pow2(k) + 1)
    ensures PrefixSum(d.distanceDistribution, top) + |d.lastMemoryAccess| == |d.history|
  {
    PowerBinsAreLruHits(d.history, 0, k);
    HistogramTotal(d.history, 0, 0, top);
    MapSize(d.history);
  }

  lemma {:induction false} MapSize(h: Trace)
    ensures LastStamps(h).Keys == Lines(h) && |LastStamps(h)| == |Lines(h)|
    decreases |h|
  {
    if h == [] {
      assert Lines(h) == {};
    } else {
      var g, a := h[..|h| - 1], h[|h| - 1];
      MapSize(g);
      LinesSnoc(g, a);
      assert h == g + [a];
    }
    assert |LastStamps(h)| == |LastStamps(h).Keys|;
  }
}
