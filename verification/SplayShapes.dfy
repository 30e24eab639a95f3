/** The nodes of the splay tree, and the tree as a value.

    A `Shape` is the pure picture of a linked tree: it names the node objects and their keys, in
    their tree order. A `Spine` is the picture of one of the two side trees that the top-down splay
    hangs off its stack-allocated header; it is read from its attachment point (the innermost
    node) outwards to the header. */
module SplayShapes {
  import opened Basics

  class TreeNode {
    var key: nat
    var subtreeSize: nat
    var left: TreeNode?
    var right: TreeNode?
    var p: TreeNode?

    constructor (key: nat)
      ensures this.key == key && subtreeSize == 1
      ensures left == null && right == null && p == null
    {
      this.key, subtreeSize := key, 1;
      left, right, p := null, null, null;
    }

    method Clean(key: nat)
      modifies this
      ensures this.key == key && subtreeSize == 1
      ensures left == null && right == null && p == null
    {
      this.key, subtreeSize := key, 1;
      left, right, p := null, null, null;
    }
  }

  datatype Shape = Nil | Bin(l: Shape, n: TreeNode, k: nat, r: Shape)

  /** `Link(up, n, k, sub)`: the node `n` hangs under the end of `up` and keeps its outer subtree. */
  datatype Spine = Top | Link(up: Spine, n: TreeNode, k: nat, sub: Shape)

  datatype Item = Item(node: TreeNode, key: nat)

  /** The loop state of a splay: left side tree, current subtree, right side tree. */
  datatype Zipper = Zipper(lz: Spine, s: Shape, rz: Spine)

  ghost function Count(s: Shape): nat {
    match s case Nil => 0 case Bin(l, _, _, r) => 1 + Count(l) + Count(r)
  }

  ghost function NodesS(s: Shape): set<TreeNode> {
    match s case Nil => {} case Bin(l, n, _, r) => NodesS(l) + {n} + NodesS(r)
  }

  ghost function NodesZ(z: Spine): set<TreeNode> {
    match z case Top => {} case Link(up, n, _, sub) => NodesZ(up) + {n} + NodesS(sub)
  }

  ghost function Keys(s: Shape): set<nat> {
    match s case Nil => {} case Bin(l, _, k, r) => Keys(l) + {k} + Keys(r)
  }

  ghost function KeysZ(z: Spine): set<nat> {
    match z case Top => {} case Link(up, _, k, sub) => KeysZ(up) + {k} + Keys(sub)
  }

  /** No node occurs twice. */
  ghost predicate Distinct(s: Shape) {
    match s
    case Nil => true
    case Bin(l, n, _, r) =>
      Distinct(l) && Distinct(r) && n !in NodesS(l) && n !in NodesS(r) && NodesS(l) !! NodesS(r)
  }

  ghost predicate DistinctZ(z: Spine) {
    match z
    case Top => true
    case Link(up, n, _, sub) =>
      DistinctZ(up) && Distinct(sub) && n !in NodesZ(up) && n !in NodesS(sub) && NodesZ(up) !! NodesS(sub)
  }

  ghost predicate Apart(z: Zipper) {
    && DistinctZ(z.lz) && Distinct(z.s) && DistinctZ(z.rz)
    && NodesZ(z.lz) !! NodesS(z.s) && NodesZ(z.lz) !! NodesZ(z.rz) && NodesS(z.s) !! NodesZ(z.rz)
  }

  ghost function NodesOf(z: Zipper): set<TreeNode> {
    NodesZ(z.lz) + NodesS(z.s) + NodesZ(z.rz)
  }

  /** The search-tree order. */
  ghost predicate Bst(s: Shape) {
    match s
    case Nil => true
    case Bin(l, _, k, r) =>
      Bst(l) && Bst(r) && (forall x :: x in Keys(l) ==> x < k) && (forall x :: x in Keys(r) ==> k < x)
  }

  ghost function InOrder(s: Shape): seq<Item> {
    match s case Nil => [] case Bin(l, n, k, r) => InOrder(l) + [Item(n, k)] + InOrder(r)
  }

  ghost function InOrderL(z: Spine): seq<Item> {
    match z case Top => [] case Link(up, n, k, sub) => InOrderL(up) + InOrder(sub) + [Item(n, k)]
  }

  ghost function InOrderR(z: Spine): seq<Item> {
    match z case Top => [] case Link(up, n, k, sub) => [Item(n, k)] + InOrder(sub) + InOrderR(up)
  }

  ghost predicate Increasing(q: seq<Item>) {
    forall i, j :: 0 <= i < j < |q| ==> q[i].key < q[j].key
  }

  // ----- The top-down splay on shapes ------------------------------------------------------

  ghost function RotR(s: Shape): (r: Shape)
    requires s.Bin? && s.l.Bin?
    ensures Count(r) == Count(s)
  {
    Bin(s.l.l, s.l.n, s.l.k, Bin(s.l.r, s.n, s.k, s.r))
  }

  ghost function RotL(s: Shape): (r: Shape)
    requires s.Bin? && s.r.Bin?
    ensures Count(r) == Count(s)
  {
    Bin(Bin(s.l, s.n, s.k, s.r.l), s.r.n, s.r.k, s.r.r)
  }

  /** Hang the current root and its outer subtree on the right side tree and go left. */
  ghost function GoLeft(z: Zipper): Zipper
    requires z.s.Bin?
  {
    Zipper(z.lz, z.s.l, Link(z.rz, z.s.n, z.s.k, z.s.r))
  }

  ghost function GoRight(z: Zipper): Zipper
    requires z.s.Bin?
  {
    Zipper(Link(z.lz, z.s.n, z.s.k, z.s.l), z.s.r, z.rz)
  }

  ghost function Descend(key: nat, z: Zipper): (e: Zipper)
    requires z.s.Bin?
    ensures e.s.Bin?
    decreases Count(z.s)
  {
    if key < z.s.k then
      if z.s.l.Nil? then z
      else if key < z.s.l.k then
        var z1 := z.(s := RotR(z.s));
        if z1.s.l.Nil? then z1 else Descend(key, GoLeft(z1))
      else Descend(key, GoLeft(z))
    else if key > z.s.k then
      if z.s.r.Nil? then z
      else if key > z.s.r.k then
        var z1 := z.(s := RotL(z.s));
        if z1.s.r.Nil? then z1 else Descend(key, GoRight(z1))
      else Descend(key, GoRight(z))
    else z
  }

  /** The left side tree with `s` plugged into its open end. */
  ghost function PlugL(z: Spine, s: Shape): Shape {
    match z case Top => s case Link(up, n, k, sub) => PlugL(up, Bin(sub, n, k, s))
  }

  ghost function PlugR(z: Spine, s: Shape): Shape {
    match z case Top => s case Link(up, n, k, sub) => PlugR(up, Bin(s, n, k, sub))
  }

  ghost function Assemble(z: Zipper): Shape
    requires z.s.Bin?
  {
    Bin(PlugL(z.lz, z.s.l), z.s.n, z.s.k, PlugR(z.rz, z.s.r))
  }

  ghost function SplayShape(key: nat, s: Shape): (r: Shape)
    ensures r.Nil? <==> s.Nil?
  {
    if s.Nil? then Nil else Assemble(Descend(key, Zipper(Top, s, Top)))
  }

  // ----- What the splay keeps --------------------------------------------------------------

  ghost function InOrderOf(z: Zipper): seq<Item> {
    InOrderL(z.lz) + InOrder(z.s) + InOrderR(z.rz)
  }

  lemma {:induction false} PlugLKeeps(z: Spine, s: Shape)
    ensures InOrder(PlugL(z, s)) == InOrderL(z) + InOrder(s)
    ensures NodesS(PlugL(z, s)) == NodesZ(z) + NodesS(s)
    ensures DistinctZ(z) && Distinct(s) && NodesZ(z) !! NodesS(s) ==> Distinct(PlugL(z, s))
    decreases z
  {
    if z.Link? {
      PlugLKeeps(z.up, Bin(z.sub, z.n, z.k, s));
      assert InOrderL(z) + InOrder(s) == InOrderL(z.up) + (InOrder(z.sub) + [Item(z.n, z.k)] + InOrder(s));
    }
  }

  lemma {:induction false} PlugRKeeps(z: Spine, s: Shape)
    ensures InOrder(PlugR(z, s)) == InOrder(s) + InOrderR(z)
    ensures NodesS(PlugR(z, s)) == NodesZ(z) + NodesS(s)
    ensures DistinctZ(z) && Distinct(s) && NodesZ(z) !! NodesS(s) ==> Distinct(PlugR(z, s))
    decreases z
  {
    if z.Link? {
      PlugRKeeps(z.up, Bin(s, z.n, z.k, z.sub));
      assert InOrder(s) + InOrderR(z) == (InOrder(s) + [Item(z.n, z.k)] + InOrder(z.sub)) + InOrderR(z.up);
    }
  }

  lemma RotRKeeps(s: Shape)
    requires s.Bin? && s.l.Bin?
    ensures InOrder(RotR(s)) == InOrder(s)
    ensures NodesS(RotR(s)) == NodesS(s)
    ensures Distinct(s) ==> Distinct(RotR(s))
  {
    match s case Bin(Bin(a, x, kx, b), y, ky, c) => RotationKeeps(a, x, kx, b, y, ky, c);
  }

  lemma RotLKeeps(s: Shape)
    requires s.Bin? && s.r.Bin?
    ensures InOrder(RotL(s)) == InOrder(s)
    ensures NodesS(RotL(s)) == NodesS(s)
    ensures Distinct(s) ==> Distinct(RotL(s))
  {
    match s case Bin(a, x, kx, Bin(b, y, ky, c)) => RotationKeeps(a, x, kx, b, y, ky, c);
  }

  /** The two sides of a rotation hold the same items. */
  lemma RotationKeeps(a: Shape, x: TreeNode, kx: nat, b: Shape, y: TreeNode, ky: nat, c: Shape)
    ensures var l, r := Bin(Bin(a, x, kx, b), y, ky, c), Bin(a, x, kx, Bin(b, y, ky, c));
      InOrder(l) == InOrder(r) && NodesS(l) == NodesS(r) && (Distinct(l) <==> Distinct(r))
  {
    var l, r := Bin(a, x, kx, b), Bin(b, y, ky, c);
    Regroup(InOrder(a) + [Item(x, kx)], InOrder(b) + [Item(y, ky)], InOrder(c));
    Regroup(InOrder(a) + [Item(x, kx)], InOrder(b), [Item(y, ky)]);
    assert InOrder(Bin(l, y, ky, c)) == (InOrder(a) + [Item(x, kx)] + InOrder(b)) + [Item(y, ky)] + InOrder(c);
    assert InOrder(Bin(a, x, kx, r)) == InOrder(a) + [Item(x, kx)] + (InOrder(b) + [Item(y, ky)] + InOrder(c));
    assert NodesS(l) == NodesS(a) + {x} + NodesS(b) && NodesS(r) == NodesS(b) + {y} + NodesS(c);
  }

  lemma GoLeftKeeps(z: Zipper)
    requires z.s.Bin?
    ensures InOrderOf(GoLeft(z)) == InOrderOf(z)
    ensures NodesOf(GoLeft(z)) == NodesOf(z)
    ensures Apart(z) ==> Apart(GoLeft(z))
  {
    assert InOrderL(z.lz) + InOrder(z.s.l) + ([Item(z.s.n, z.s.k)] + InOrder(z.s.r) + InOrderR(z.rz))
        == InOrderL(z.lz) + (InOrder(z.s.l) + [Item(z.s.n, z.s.k)] + InOrder(z.s.r)) + InOrderR(z.rz);
  }

  lemma GoRightKeeps(z: Zipper)
    requires z.s.Bin?
    ensures InOrderOf(GoRight(z)) == InOrderOf(z)
    ensures NodesOf(GoRight(z)) == NodesOf(z)
    ensures Apart(z) ==> Apart(GoRight(z))
  {
    assert (InOrderL(z.lz) + InOrder(z.s.l) + [Item(z.s.n, z.s.k)]) + InOrder(z.s.r) + InOrderR(z.rz)
        == InOrderL(z.lz) + (InOrder(z.s.l) + [Item(z.s.n, z.s.k)] + InOrder(z.s.r)) + InOrderR(z.rz);
  }

  lemma {:induction false} DescendKeeps(key: nat, z: Zipper)
    requires z.s.Bin?
    ensures InOrderOf(Descend(key, z)) == InOrderOf(z)
    ensures NodesOf(Descend(key, z)) == NodesOf(z)
    ensures Apart(z) ==> Apart(Descend(key, z))
    decreases Count(z.s)
  {
    if key < z.s.k && z.s.l.Bin? {
      var z1 := z;
      if key < z.s.l.k {
        RotRKeeps(z.s);
        z1 := z.(s := RotR(z.s));
      }
      if z1.s.l.Bin? { GoLeftKeeps(z1); DescendKeeps(key, GoLeft(z1)); }
    } else if key > z.s.k && z.s.r.Bin? {
      var z1 := z;
      if key > z.s.r.k {
        RotLKeeps(z.s);
        z1 := z.(s := RotL(z.s));
      }
      if z1.s.r.Bin? { GoRightKeeps(z1); DescendKeeps(key, GoRight(z1)); }
    }
  }

  /** A splay keeps the nodes and their in-order sequence. */
  lemma SplayKeeps(key: nat, s: Shape)
    ensures InOrder(SplayShape(key, s)) == InOrder(s)
    ensures NodesS(SplayShape(key, s)) == NodesS(s)
    ensures Distinct(s) ==> Distinct(SplayShape(key, s))
  {
    if s.Bin? {
      var z := Zipper(Top, s, Top);
      DescendKeeps(key, z);
      AssembleKeeps(Descend(key, z));
      assert InOrderOf(z) == InOrder(s);
    }
  }

  lemma AssembleKeeps(z: Zipper)
    requires z.s.Bin?
    ensures InOrder(Assemble(z)) == InOrderOf(z)
    ensures NodesS(Assemble(z)) == NodesOf(z)
    ensures Apart(z) ==> Distinct(Assemble(z))
  {
    PlugLKeeps(z.lz, z.s.l);
    PlugRKeeps(z.rz, z.s.r);
    var m := [Item(z.s.n, z.s.k)];
    assert InOrderOf(z) == (InOrderL(z.lz) + InOrder(z.s.l)) + m + (InOrder(z.s.r) + InOrderR(z.rz));
  }

  // ----- Order -----------------------------------------------------------------------------

  ghost function KeySet(q: seq<Item>): set<nat> {
    set i | 0 <= i < |q| :: q[i].key
  }

  lemma KeySetAround(a: seq<Item>, m: Item, b: seq<Item>)
    ensures KeySet(a + [m] + b) == KeySet(a) + {m.key} + KeySet(b)
  {
    var q := a + [m] + b;
    forall x | x in KeySet(a) + {m.key} + KeySet(b) ensures x in KeySet(q) {
      if x in KeySet(a) {
        var i :| 0 <= i < |a| && a[i].key == x;
        assert q[i] == a[i];
      } else if x in KeySet(b) {
        var i :| 0 <= i < |b| && b[i].key == x;
        assert q[|a| + 1 + i] == b[i];
      } else {
        assert q[|a|] == m;
      }
    }
  }

  lemma {:induction false} KeysInOrder(s: Shape)
    ensures Keys(s) == KeySet(InOrder(s))
    decreases s
  {
    if s.Bin? {
      KeysInOrder(s.l);
      KeysInOrder(s.r);
      KeySetAround(InOrder(s.l), Item(s.n, s.k), InOrder(s.r));
    }
  }

  lemma IncreasingAround(a: seq<Item>, m: Item, b: seq<Item>)
    ensures Increasing(a + [m] + b) <==>
      Increasing(a) && Increasing(b)
      && (forall x :: x in KeySet(a) ==> x < m.key) && (forall x :: x in KeySet(b) ==> m.key < x)
  {
    var q := a + [m] + b;
    var n := |a|;
    if Increasing(q) {
      assert forall i :: 0 <= i < n ==> a[i] == q[i];
      assert q[n] == m;
      forall i, j | 0 <= i < j < |b| ensures b[i].key < b[j].key {
        assert b[i] == q[n + 1 + i] && b[j] == q[n + 1 + j];
      }
      forall x | x in KeySet(b) ensures m.key < x {
        var i :| 0 <= i < |b| && b[i].key == x;
        assert b[i] == q[n + 1 + i];
      }
    } else {
      var i, j :| 0 <= i < j < |q| && q[i].key >= q[j].key;
      if i < n { assert q[i] == a[i] && q[i].key in KeySet(a); }
      if j > n { assert q[j] == b[j - n - 1] && q[j].key in KeySet(b); }
    }
  }

  /** The search-tree order is exactly that the in-order sequence increases. */
  lemma {:induction false} BstIffIncreasing(s: Shape)
    ensures Bst(s) <==> Increasing(InOrder(s))
    decreases s
  {
    if s.Bin? {
      BstIffIncreasing(s.l);
      BstIffIncreasing(s.r);
      KeysInOrder(s.l);
      KeysInOrder(s.r);
      IncreasingAround(InOrder(s.l), Item(s.n, s.k), InOrder(s.r));
    }
  }

  /** Every key hung on the left side tree is below the sought key, on the right one above it. */
  ghost predicate Split(key: nat, z: Zipper) {
    && (forall x :: x in KeysZ(z.lz) ==> x < key)
    && (forall x :: x in KeysZ(z.rz) ==> key < x)
  }

  lemma RotRSorted(s: Shape)
    requires s.Bin? && s.l.Bin? && Bst(s)
    ensures Bst(RotR(s)) && Keys(RotR(s)) == Keys(s)
  {
    BstIffIncreasing(s);
    RotRKeeps(s);
    BstIffIncreasing(RotR(s));
  }

  lemma RotLSorted(s: Shape)
    requires s.Bin? && s.r.Bin? && Bst(s)
    ensures Bst(RotL(s)) && Keys(RotL(s)) == Keys(s)
  {
    BstIffIncreasing(s);
    RotLKeeps(s);
    BstIffIncreasing(RotL(s));
  }

  lemma GoLeftSplits(key: nat, z: Zipper)
    requires z.s.Bin? && Bst(z.s) && Split(key, z) && key < z.s.k
    ensures Bst(GoLeft(z).s) && Split(key, GoLeft(z))
  {
    assert KeysZ(GoLeft(z).rz) == KeysZ(z.rz) + {z.s.k} + Keys(z.s.r);
  }

  lemma GoRightSplits(key: nat, z: Zipper)
    requires z.s.Bin? && Bst(z.s) && Split(key, z) && key > z.s.k
    ensures Bst(GoRight(z).s) && Split(key, GoRight(z))
  {
    assert KeysZ(GoRight(z).lz) == KeysZ(z.lz) + {z.s.k} + Keys(z.s.l);
  }

  ghost predicate Found(key: nat, e: Zipper) {
    && e.s.Bin? && Split(key, e)
    && (forall x :: x in Keys(e.s.l) ==> x < key) && (forall x :: x in Keys(e.s.r) ==> key < x)
  }

  lemma {:induction false} DescendSplits(key: nat, z: Zipper)
    requires z.s.Bin? && Bst(z.s) && Split(key, z)
    ensures Found(key, Descend(key, z))
    decreases Count(z.s)
  {
    if key < z.s.k && z.s.l.Bin? {
      var z1 := z;
      if key < z.s.l.k {
        RotRSorted(z.s);
        z1 := z.(s := RotR(z.s));
      }
      if z1.s.l.Bin? {
        GoLeftSplits(key, z1);
        DescendSplits(key, GoLeft(z1));
      }
    } else if key > z.s.k && z.s.r.Bin? {
      var z1 := z;
      if key > z.s.r.k {
        RotLSorted(z.s);
        z1 := z.(s := RotL(z.s));
      }
      if z1.s.r.Bin? {
        GoRightSplits(key, z1);
        DescendSplits(key, GoRight(z1));
      }
    }
  }

  lemma {:induction false} PlugKeys(z: Spine, s: Shape)
    ensures Keys(PlugL(z, s)) == KeysZ(z) + Keys(s)
    ensures Keys(PlugR(z, s)) == KeysZ(z) + Keys(s)
    decreases z
  {
    if z.Link? {
      PlugKeys(z.up, Bin(z.sub, z.n, z.k, s));
      PlugKeys(z.up, Bin(s, z.n, z.k, z.sub));
    }
  }

  /** A splay keeps the key set and the order, and splits the other keys around the sought one:
      so the new root holds the sought key if it is present, else a neighbour of it. */
  lemma SplaySplits(key: nat, s: Shape)
    requires Bst(s)
    ensures var r := SplayShape(key, s);
      && Bst(r) && Keys(r) == Keys(s)
      && (r.Bin? ==> (forall x :: x in Keys(r.l) ==> x < key) && (forall x :: x in Keys(r.r) ==> key < x))
      && (key in Keys(s) ==> r.Bin? && r.k == key)
  {
    var r := SplayShape(key, s);
    SplayKeeps(key, s);
    BstIffIncreasing(s);
    BstIffIncreasing(r);
    KeysInOrder(s);
    KeysInOrder(r);
    if s.Bin? {
      DescendSplits(key, Zipper(Top, s, Top));
      AssembleSplits(key, Descend(key, Zipper(Top, s, Top)));
    }
  }

  lemma AssembleSplits(key: nat, e: Zipper)
    requires Found(key, e)
    ensures var r := Assemble(e);
      (forall x :: x in Keys(r.l) ==> x < key) && (forall x :: x in Keys(r.r) ==> key < x)
  {
    PlugKeys(e.lz, e.s.l);
    PlugKeys(e.rz, e.s.r);
  }

  /** The root of a splayed search tree that misses the key is its predecessor or its successor. */
  lemma SplayRootNearest(key: nat, s: Shape)
    requires Bst(s) && s.Bin? && key !in Keys(s)
    ensures var k := SplayShape(key, s).k;
      && k in Keys(s)
      && ((k < key && forall x :: x in Keys(s) && x < key ==> x <= k)
       || (k > key && forall x :: x in Keys(s) && x > key ==> k <= x))
  {
    SplaySplits(key, s);
  }
}
