/** The splay tree as it is linked in memory.

    Every method takes the shape of its tree as a ghost argument and promises the shape of the tree
    it returns. The parent pointer of a root is unconstrained: it may dangle. */
module SplayTree {
  import opened SplayShapes

  /** `x` is the root of a sound linked tree of shape `s`: keys and child pointers as drawn, every
      child points back at its parent, every `subtreeSize` is right. Nothing is said about `x.p`. */
  ghost predicate TreeOk(x: TreeNode?, s: Shape)
    reads NodesS(s)
    decreases s
  {
    match s
    case Nil => x == null
    case Bin(l, n, k, r) =>
      && x == n && n.key == k > 0 && n.subtreeSize == Count(s)
      && TreeOk(n.left, l) && (l.Bin? ==> l.n.p == n)
      && TreeOk(n.right, r) && (r.Bin? ==> r.n.p == n)
  }

  /** The two side trees are mirror images: on the right one the spine runs through left children. */
  function Inner(right: bool, n: TreeNode): TreeNode?
    reads n`left, n`right
  {
    if right then n.left else n.right
  }

  function Outer(right: bool, n: TreeNode): TreeNode?
    reads n`left, n`right
  {
    if right then n.right else n.left
  }

  /** The innermost node of a side tree, or the header if it is empty. */
  ghost function End(t: TreeNode, z: Spine): TreeNode {
    match z case Top => t case Link(_, n, _, _) => n
  }

  ghost function First(z: Spine): TreeNode? {
    match z case Top => null case Link(up, n, _, _) => if up.Top? then n else First(up)
  }

  /** The nodes on a spine, and the nodes below them. */
  ghost function OnSpine(z: Spine): set<TreeNode> {
    match z case Top => {} case Link(up, n, _, _) => OnSpine(up) + {n}
  }

  ghost function OffSpine(z: Spine): set<TreeNode> {
    match z case Top => {} case Link(up, _, _, sub) => OffSpine(up) + NodesS(sub)
  }

  lemma {:induction false} SpineParts(z: Spine)
    ensures NodesZ(z) == OnSpine(z) + OffSpine(z)
    ensures DistinctZ(z) ==> OnSpine(z) !! OffSpine(z)
    decreases z
  {
    if z.Link? { SpineParts(z.up); }
  }

  /** `z` is a linked side tree under the header `t`; its open end and the sizes on its spine are
      left open. */
  ghost predicate SideOk(right: bool, t: TreeNode, z: Spine)
    reads OnSpine(z)`key, OnSpine(z)`p, OnSpine(z)`left, OnSpine(z)`right, OffSpine(z)
    decreases z
  {
    match z
    case Top => true
    case Link(up, n, k, sub) =>
      && n.key == k > 0 && n.p == End(t, up)
      && TreeOk(Outer(right, n), sub) && (sub.Bin? ==> sub.n.p == n)
      && SideOk(right, t, up) && (up.Link? ==> Inner(right, up.n) == n)
  }

  /** The size of the innermost spine node if the open end holds `c` nodes. */
  ghost function SizeAt(z: Spine, c: nat): nat
    requires z.Link?
  {
    1 + Count(z.sub) + c
  }

  ghost predicate SizesOk(z: Spine, c: nat)
    reads OnSpine(z)`subtreeSize
    decreases z
  {
    z.Link? ==> z.n.subtreeSize == SizeAt(z, c) && SizesOk(z.up, SizeAt(z, c))
  }

  /** The sizes of a whole spine, as a plan for a walk along it. */
  ghost function Plan(z: Spine, c: nat): map<TreeNode, nat> {
    if z.Top? then map[] else Plan(z.up, SizeAt(z, c))[z.n := SizeAt(z, c)]
  }

  ghost predicate Planned(z: Spine, c: nat, plan: map<TreeNode, nat>) {
    z.Link? ==> z.n in plan && plan[z.n] == SizeAt(z, c) && Planned(z.up, SizeAt(z, c), plan)
  }

  lemma {:induction false} PlannedFrame(z: Spine, c: nat, plan: map<TreeNode, nat>, n: TreeNode, k: nat)
    requires Planned(z, c, plan) && n !in OnSpine(z)
    ensures Planned(z, c, plan[n := k])
    decreases z
  {
    if z.Link? { PlannedFrame(z.up, SizeAt(z, c), plan, n, k); }
  }

  lemma {:induction false} PlanIsPlanned(z: Spine, c: nat)
    requires DistinctZ(z)
    ensures Planned(z, c, Plan(z, c))
    decreases z
  {
    if z.Link? {
      PlanIsPlanned(z.up, SizeAt(z, c));
      SpineParts(z.up);
      PlannedFrame(z.up, SizeAt(z, c), Plan(z.up, SizeAt(z, c)), z.n, SizeAt(z, c));
    }
  }

  lemma {:induction false} PlanMet(z: Spine, c: nat, plan: map<TreeNode, nat>)
    requires Planned(z, c, plan)
    requires forall n :: n in OnSpine(z) ==> n in plan && n.subtreeSize == plan[n]
    ensures SizesOk(z, c)
    decreases z
  {
    if z.Link? { PlanMet(z.up, SizeAt(z, c), plan); }
  }

  function Size(x: TreeNode?): nat
    reads if x == null then {} else {x}
  {
    if x == null then 0 else x.subtreeSize
  }

  lemma SizeIsCount(x: TreeNode?, s: Shape)
    requires TreeOk(x, s)
    ensures Size(x) == Count(s)
  {
  }

  method Resize(x: TreeNode)
    requires x.left != x && x.right != x
    modifies x`subtreeSize
    ensures x.subtreeSize == 1 + Size(x.left) + Size(x.right)
  {
    x.subtreeSize := 1;
    if x.right != null { x.subtreeSize := x.subtreeSize + x.right.subtreeSize; }
    if x.left != null { x.subtreeSize := x.subtreeSize + x.left.subtreeSize; }
  }

  ghost predicate Header(t: TreeNode)
    reads t`key, t`p
  {
    t.key == 0 && t.p == null
  }

  method ResizeSpine(right: bool, t: TreeNode, x: TreeNode, ghost z: Spine, ghost c: nat)
    requires z.Link? && x == z.n && SideOk(right, t, z) && DistinctZ(z)
    requires Size(Inner(right, x)) == c && Inner(right, x) !in NodesZ(z)
    modifies x`subtreeSize
    ensures x.subtreeSize == SizeAt(z, c) && SideOk(right, t, z)
  {
    SpineParts(z);
    SizeIsCount(Outer(right, x), z.sub);
    assert allocated(NodesZ(z));
    Resize(x);
  }

  /** Walk up the parent pointers to the header, whose key is 0, repairing the sizes. */
  method FixSizes(start: TreeNode, t: TreeNode, right: bool, ghost path: Spine, ghost c: nat)
    requires start == End(t, path) && SideOk(right, t, path) && DistinctZ(path) && Header(t)
    requires path.Link? ==> Size(Inner(right, path.n)) == c && Inner(right, path.n) !in NodesZ(path)
    modifies OnSpine(path)`subtreeSize
    ensures SideOk(right, t, path) && SizesOk(path, c)
  {
    SpineParts(path);
    PlanIsPlanned(path, c);
    assert allocated(NodesZ(path));
    var tmp: TreeNode? := start;
    ghost var z, plan := path, Plan(path, c);
    ghost var cz: nat := c;
    while tmp != null && tmp.key != 0
      invariant tmp == End(t, z) && SideOk(right, t, z) && DistinctZ(z) && OnSpine(z) <= OnSpine(path)
      invariant z.Link? ==> Size(Inner(right, z.n)) == cz && Inner(right, z.n) !in NodesZ(z)
      invariant Planned(z, cz, plan)
      invariant forall n :: n in OnSpine(path) - OnSpine(z) ==> n in plan && n.subtreeSize == plan[n]
      decreases z
    {
      ResizeSpine(right, t, tmp, z, cz);
      tmp, z, cz := tmp.p, z.up, SizeAt(z, cz);
    }
    PlanMet(path, c, plan);
  }

  // ----- Rotations -------------------------------------------------------------------------

  method RightRotate(root: TreeNode, ghost s: Shape) returns (left: TreeNode)
    requires s.Bin? && s.l.Bin? && Distinct(s) && TreeOk(root, s)
    modifies NodesS(s)
    ensures left.p == null && TreeOk(left, RotR(s))
  {
    left := RightRotateKeeping(root, s.l.l, s.l.r, s.r, s);
    SizeIsCount(left.left, s.l.l);
    SizeIsCount(root.left, s.l.r);
    SizeIsCount(root.right, s.r);
  }

  method RightRotateKeeping(root: TreeNode, ghost a: Shape, ghost b: Shape, ghost c: Shape, ghost s: Shape)
    returns (left: TreeNode)
    requires s.Bin? && s.l.Bin? && Distinct(s) && TreeOk(root, s) && a == s.l.l && b == s.l.r && c == s.r
    modifies NodesS(s)
    ensures left == old(root.left) && left.right == root && root.p == left && left.p == null
    ensures root.key == s.k && left.key == s.l.k
    ensures root.subtreeSize == 1 + Size(root.left) + Size(root.right)
    ensures left.subtreeSize == 1 + Size(left.left) + root.subtreeSize
    ensures TreeOk(left.left, a) && TreeOk(root.left, b) && TreeOk(root.right, c)
    ensures (a.Bin? ==> a.n.p == left) && (b.Bin? ==> b.n.p == root) && (c.Bin? ==> c.n.p == root)
  {
    assert allocated(NodesS(s)) && Distinct(s.l) && Distinct(b);
    assert TreeOk(root.left.left, a) && TreeOk(root.left.right, b) && TreeOk(root.right, c);
    assert b.Bin? ==> TreeOk(b.n.left, b.l) && TreeOk(b.n.right, b.r) && NodesS(b.l) + NodesS(b.r) <= NodesS(b);
    left := RightRotateLinks(root);
    assert b.Bin? ==> TreeOk(b.n.left, b.l) && TreeOk(b.n.right, b.r);
  }

  method RightRotateLinks(root: TreeNode) returns (left: TreeNode)
    requires root.left != null && root.left != root && root.right !in {root, root.left}
    requires root.left.left !in {root, root.left} && root.left.right !in {root, root.left}
    modifies root`left, root`p, root`subtreeSize
    modifies root.left`right, root.left`p, root.left`subtreeSize
    modifies (if root.left.right == null then {} else {root.left.right})`p
    ensures left == old(root.left) && left.right == root && root.left == old(root.left.right)
    ensures root.p == left && left.p == null && (root.left != null ==> root.left.p == root)
    ensures root.subtreeSize == 1 + Size(root.left) + Size(root.right)
    ensures left.subtreeSize == 1 + Size(left.left) + root.subtreeSize
  {
    left := root.left;
    root.left := left.right;
    if root.left != null { root.left.p := root; }
    left.right := root;
    if left.right != null { left.right.p := left; }
    left.p := null;
    Resize(root);
    Resize(left);
  }

  method LeftRotate(root: TreeNode, ghost s: Shape) returns (right: TreeNode)
    requires s.Bin? && s.r.Bin? && Distinct(s) && TreeOk(root, s)
    modifies NodesS(s)
    ensures right.p == null && TreeOk(right, RotL(s))
  {
    right := LeftRotateKeeping(root, s.l, s.r.l, s.r.r, s);
    SizeIsCount(root.left, s.l);
    SizeIsCount(root.right, s.r.l);
    SizeIsCount(right.right, s.r.r);
  }

  method LeftRotateKeeping(root: TreeNode, ghost a: Shape, ghost b: Shape, ghost c: Shape, ghost s: Shape)
    returns (right: TreeNode)
    requires s.Bin? && s.r.Bin? && Distinct(s) && TreeOk(root, s) && a == s.l && b == s.r.l && c == s.r.r
    modifies NodesS(s)
    ensures right == old(root.right) && right.left == root && root.p == right && right.p == null
    ensures root.key == s.k && right.key == s.r.k
    ensures root.subtreeSize == 1 + Size(root.left) + Size(root.right)
    ensures right.subtreeSize == 1 + root.subtreeSize + Size(right.right)
    ensures TreeOk(root.left, a) && TreeOk(root.right, b) && TreeOk(right.right, c)
    ensures (a.Bin? ==> a.n.p == root) && (b.Bin? ==> b.n.p == root) && (c.Bin? ==> c.n.p == right)
  {
    assert allocated(NodesS(s)) && Distinct(s.r) && Distinct(b);
    assert TreeOk(root.left, a) && TreeOk(root.right.left, b) && TreeOk(root.right.right, c);
    assert b.Bin? ==> TreeOk(b.n.left, b.l) && TreeOk(b.n.right, b.r) && NodesS(b.l) + NodesS(b.r) <= NodesS(b);
    right := LeftRotateLinks(root);
    assert b.Bin? ==> TreeOk(b.n.left, b.l) && TreeOk(b.n.right, b.r);
  }

  method LeftRotateLinks(root: TreeNode) returns (right: TreeNode)
    requires root.right != null && root.right != root && root.left !in {root, root.right}
    requires root.right.left !in {root, root.right} && root.right.right !in {root, root.right}
    modifies root`right, root`p, root`subtreeSize
    modifies root.right`left, root.right`p, root.right`subtreeSize
    modifies (if root.right.left == null then {} else {root.right.left})`p
    ensures right == old(root.right) && right.left == root && root.right == old(root.right.left)
    ensures root.p == right && right.p == null && (root.right != null ==> root.right.p == root)
    ensures root.subtreeSize == 1 + Size(root.left) + Size(root.right)
    ensures right.subtreeSize == 1 + root.subtreeSize + Size(right.right)
  {
    right := root.right;
    root.right := right.left;
    if root.right != null { root.right.p := root; }
    right.left := root;
    if right.left != null { right.left.p := right; }
    right.p := null;
    Resize(root);
    Resize(right);
  }

  /** A side tree, closed off at its inner end. */
  ghost predicate SideClosed(right: bool, t: TreeNode, z: Spine)
    reads NodesZ(z)
  {
    SpineParts(z);
    DistinctZ(z) && t !in NodesZ(z) && SideOk(right, t, z) && SizesOk(z, 0) && (z.Link? ==> Inner(right, z.n) == null)
  }

  // ----- One step of the descent -----------------------------------------------------------

  ghost function InnerS(right: bool, s: Shape): Shape
    requires s.Bin?
  {
    if right then s.l else s.r
  }

  ghost function OuterS(right: bool, s: Shape): Shape
    requires s.Bin?
  {
    if right then s.r else s.l
  }

  /** The pointer part of one step of the descent: `root` goes under the open end of a side tree
      (the right one when the search goes left), and its inner subtree becomes the new root. */
  method Step(right: bool, tree: TreeNode, root: TreeNode) returns (root': TreeNode?)
    requires tree != root && Outer(right, root) != root
    modifies tree`left, tree`right, root`left, root`right, root`p, root`subtreeSize
    ensures Inner(right, tree) == root && Outer(right, tree) == old(Outer(right, tree))
    ensures root.p == tree && root' == old(Inner(right, root))
    ensures Inner(right, root) == null && Outer(right, root) == old(Outer(right, root))
    ensures root.subtreeSize == 1 + Size(Outer(right, root))
  {
    if right { tree.left := root; } else { tree.right := root; }
    root.p := tree;
    if right {
      root' := root.left;
      root.left := null;
    } else {
      root' := root.right;
      root.right := null;
    }
    root.subtreeSize := 1;
    if Outer(right, root) != null { root.subtreeSize := root.subtreeSize + Outer(right, root).subtreeSize; }
  }

  /** The same step, and that it keeps the side tree it hangs `root` on. */
  method StepKeeping(right: bool, t: TreeNode, tree: TreeNode, root: TreeNode, ghost z: Spine)
    returns (root': TreeNode?)
    requires DistinctZ(z) && SideOk(right, t, z) && tree == End(t, z) && t !in NodesZ(z)
    requires root !in NodesZ(z) && root != t && Outer(right, root) != root
    modifies tree`left, tree`right, root`left, root`right, root`p, root`subtreeSize
    ensures Inner(right, tree) == root && Outer(right, tree) == old(Outer(right, tree))
    ensures root.p == tree && root' == old(Inner(right, root))
    ensures Inner(right, root) == null && Outer(right, root) == old(Outer(right, root))
    ensures root.subtreeSize == 1 + Size(Outer(right, root))
    ensures SideOk(right, t, z)
  {
    assert allocated(NodesZ(z));
    if z.Link? {
      SpineParts(z.up);
      assert SideOk(right, t, z.up) && TreeOk(Outer(right, z.n), z.sub);
    }
    root' := Step(right, tree, root);
  }

  method Hang(right: bool, t: TreeNode, tree: TreeNode, root: TreeNode, ghost z: Spine, ghost s: Shape)
    returns (root': TreeNode?)
    requires s.Bin? && Distinct(s) && TreeOk(root, s) && DistinctZ(z) && SideOk(right, t, z) && tree == End(t, z)
    requires NodesS(s) !! NodesZ(z) && t !in NodesS(s) && t !in NodesZ(z)
    modifies tree`left, tree`right, root`left, root`right, root`p, root`subtreeSize
    ensures Inner(right, tree) == root && Outer(right, tree) == old(Outer(right, tree))
    ensures Inner(right, root) == null && root.subtreeSize == 1 + Count(OuterS(right, s))
    ensures SideOk(right, t, Link(z, s.n, s.k, OuterS(right, s))) && TreeOk(root', InnerS(right, s))
  {
    assert allocated(NodesS(s));
    assert TreeOk(Outer(right, root), OuterS(right, s)) && TreeOk(Inner(right, root), InnerS(right, s));
    root' := StepKeeping(right, t, tree, root, z);
    SizeIsCount(Outer(right, root), OuterS(right, s));
  }

  /** What holds between two steps: three sound trees apart from each other, two of them hanging
      off the header. */
  ghost predicate State(t: TreeNode, ltree: TreeNode, root: TreeNode?, rtree: TreeNode, z: Zipper)
    reads t, NodesOf(z), ltree, rtree
  {
    && Apart(z) && t !in NodesOf(z) && Header(t) && TreeOk(root, z.s)
    && SideClosed(false, t, z.lz) && SideClosed(true, t, z.rz)
    && ltree == End(t, z.lz) && rtree == End(t, z.rz)
    && t.right == First(z.lz) && t.left == First(z.rz)
  }

  /** One step with the walk up the side tree that grew. */
  method HangAndFix(right: bool, t: TreeNode, tree: TreeNode, root: TreeNode, ghost z: Spine, ghost s: Shape)
    returns (root': TreeNode?)
    requires s.Bin? && Distinct(s) && TreeOk(root, s) && SideClosed(right, t, z) && tree == End(t, z)
    requires NodesS(s) !! NodesZ(z) && t !in NodesS(s) && Header(t)
    modifies OnSpine(z), tree`left, tree`right, root
    ensures Inner(right, tree) == root && Outer(right, tree) == old(Outer(right, tree))
    ensures SideClosed(right, t, Link(z, s.n, s.k, OuterS(right, s))) && TreeOk(root', InnerS(right, s))
  {
    assert allocated(NodesZ(z)) && allocated(NodesS(s));
    SpineParts(z);
    root' := Hang(right, t, tree, root, z, s);
    FixSizes(tree, t, right, z, 1 + Count(OuterS(right, s)));
  }

  /** The same, keeping the other side tree. */
  method HangBeside(right: bool, t: TreeNode, tree: TreeNode, root: TreeNode, ghost z: Spine, ghost s: Shape, ghost w: Spine)
    returns (root': TreeNode?)
    requires s.Bin? && Distinct(s) && TreeOk(root, s) && SideClosed(right, t, z) && tree == End(t, z)
    requires NodesS(s) !! NodesZ(z) && t !in NodesS(s) && Header(t)
    requires SideClosed(!right, t, w) && NodesZ(z) + NodesS(s) !! NodesZ(w)
    modifies OnSpine(z), tree`left, tree`right, root
    ensures Inner(right, tree) == root && Outer(right, tree) == old(Outer(right, tree))
    ensures SideClosed(right, t, Link(z, s.n, s.k, OuterS(right, s))) && TreeOk(root', InnerS(right, s))
    ensures SideClosed(!right, t, w)
  {
    assert allocated(NodesZ(w));
    SpineParts(z);
    root' := HangAndFix(right, t, tree, root, z, s);
  }

  /** What the code sees of a shape from its root. */
  lemma View(x: TreeNode?, s: Shape)
    requires TreeOk(x, s)
    ensures x == null <==> s.Nil?
    ensures s.Bin? ==> x == s.n && x.key == s.k
    ensures s.Bin? ==> (x.left == null <==> s.l.Nil?) && (x.right == null <==> s.r.Nil?)
    ensures s.Bin? && s.l.Bin? ==> x.left.key == s.l.k
    ensures s.Bin? && s.r.Bin? ==> x.right.key == s.r.k
  {
  }

  method DescendLeft(t: TreeNode, ghost ltree: TreeNode, root: TreeNode, rtree: TreeNode, ghost z: Zipper)
    returns (root': TreeNode?)
    requires State(t, ltree, root, rtree, z) && z.s.Bin?
    modifies t`left, t`right, NodesOf(z)
    ensures State(t, ltree, root', root, GoLeft(z)) && NodesOf(GoLeft(z)) == NodesOf(z)
    ensures root' == null <==> z.s.l.Nil?
  {
    GoLeftKeeps(z);
    SpineParts(z.rz);
    root' := HangBeside(true, t, rtree, root, z.rz, z.s, z.lz);
    View(root', z.s.l);
  }

  method DescendRight(t: TreeNode, ltree: TreeNode, root: TreeNode, ghost rtree: TreeNode, ghost z: Zipper)
    returns (root': TreeNode?)
    requires State(t, ltree, root, rtree, z) && z.s.Bin?
    modifies t`left, t`right, NodesOf(z)
    ensures State(t, root, root', rtree, GoRight(z)) && NodesOf(GoRight(z)) == NodesOf(z)
    ensures root' == null <==> z.s.r.Nil?
  {
    GoRightKeeps(z);
    SpineParts(z.lz);
    root' := HangBeside(false, t, ltree, root, z.lz, z.s, z.rz);
    View(root', z.s.r);
  }

  method ZigRight(t: TreeNode, ghost ltree: TreeNode, root: TreeNode, ghost rtree: TreeNode, ghost z: Zipper)
    returns (root': TreeNode)
    requires State(t, ltree, root, rtree, z) && z.s.Bin? && z.s.l.Bin?
    modifies NodesS(z.s)
    ensures State(t, ltree, root', rtree, z.(s := RotR(z.s))) && NodesOf(z.(s := RotR(z.s))) == NodesOf(z)
    ensures root'.left == null <==> RotR(z.s).l.Nil?
  {
    assert allocated(NodesOf(z));
    RotRKeeps(z.s);
    root' := RightRotate(root, z.s);
    View(root', RotR(z.s));
  }

  method ZigLeft(t: TreeNode, ghost ltree: TreeNode, root: TreeNode, ghost rtree: TreeNode, ghost z: Zipper)
    returns (root': TreeNode)
    requires State(t, ltree, root, rtree, z) && z.s.Bin? && z.s.r.Bin?
    modifies NodesS(z.s)
    ensures State(t, ltree, root', rtree, z.(s := RotL(z.s))) && NodesOf(z.(s := RotL(z.s))) == NodesOf(z)
    ensures root'.right == null <==> RotL(z.s).r.Nil?
  {
    assert allocated(NodesOf(z));
    RotLKeeps(z.s);
    root' := LeftRotate(root, z.s);
    View(root', RotL(z.s));
  }

  // ----- Reassembly ------------------------------------------------------------------------

  ghost function Plug(right: bool, z: Spine, s: Shape): Shape {
    if right then PlugR(z, s) else PlugL(z, s)
  }

  /** A side tree whose open end holds a sound tree is itself a sound tree. */
  lemma {:induction false} PlugOk(right: bool, t: TreeNode, z: Spine, x: TreeNode?, s: Shape)
    requires SideOk(right, t, z) && SizesOk(z, Count(s)) && TreeOk(x, s)
    requires s.Bin? ==> x.p == End(t, z)
    requires z.Link? ==> Inner(right, z.n) == x
    ensures TreeOk(if z.Top? then x else First(z), Plug(right, z, s))
    ensures Plug(right, z, s).Bin? ==> Plug(right, z, s).n.p == t
    decreases z
  {
    if z.Link? {
      var s' := if right then Bin(s, z.n, z.k, z.sub) else Bin(z.sub, z.n, z.k, s);
      assert TreeOk(z.n, s');
      PlugOk(right, t, z.up, z.n, s');
    }
  }

  /** Put `x` into the open end of a side tree. */
  method LinkChild(right: bool, t: TreeNode, tree: TreeNode, x: TreeNode, ghost z: Spine, ghost s: Shape)
    requires DistinctZ(z) && SideOk(right, t, z) && tree == End(t, z) && t !in NodesZ(z)
    requires s.Bin? && TreeOk(x, s) && Distinct(s) && NodesS(s) !! NodesZ(z) && t !in NodesS(s)
    modifies tree`left, tree`right, x`p
    ensures Inner(right, tree) == x && Outer(right, tree) == old(Outer(right, tree)) && x.p == tree
    ensures SideOk(right, t, Link(z, s.n, s.k, OuterS(right, s)))
    ensures TreeOk(Inner(right, x), InnerS(right, s)) && (InnerS(right, s).Bin? ==> InnerS(right, s).n.p == x)
  {
    assert allocated(NodesS(s));
    assert TreeOk(x.left, s.l) && TreeOk(x.right, s.r);
    LinkChildKeeping(right, t, tree, x, z);
  }

  method LinkChildKeeping(right: bool, t: TreeNode, tree: TreeNode, x: TreeNode, ghost z: Spine)
    requires DistinctZ(z) && SideOk(right, t, z) && tree == End(t, z) && t !in NodesZ(z) && x !in NodesZ(z)
    modifies tree`left, tree`right, x`p
    ensures Inner(right, tree) == x && Outer(right, tree) == old(Outer(right, tree)) && x.p == tree
    ensures SideOk(right, t, z)
  {
    assert allocated(NodesZ(z));
    if z.Link? {
      SpineParts(z.up);
      assert SideOk(right, t, z.up) && TreeOk(Outer(right, z.n), z.sub);
    }
    LinkChildLinks(right, tree, x);
  }

  method LinkChildLinks(right: bool, tree: TreeNode, x: TreeNode)
    modifies tree`left, tree`right, x`p
    ensures Inner(right, tree) == x && Outer(right, tree) == old(Outer(right, tree)) && x.p == tree
  {
    if right { tree.left := x; } else { tree.right := x; }
    x.p := tree;
  }

  /** The last link of a splay into one side tree, with the walk up from it. */
  method Close(right: bool, t: TreeNode, tree: TreeNode, x: TreeNode?, ghost z: Spine, ghost s: Shape)
    requires SideClosed(right, t, z) && tree == End(t, z) && Header(t) && Inner(right, t) == First(z)
    requires TreeOk(x, s) && Distinct(s) && NodesS(s) !! NodesZ(z) && t !in NodesS(s)
    modifies OnSpine(z), t`left, t`right, NodesS(s)
    ensures TreeOk(Inner(right, t), Plug(right, z, s)) && Outer(right, t) == old(Outer(right, t))
  {
    assert allocated(NodesZ(z)) && allocated(NodesS(s));
    if x == null {
      if right { tree.left := x; } else { tree.right := x; }
      PlugOk(right, t, z, x, s);
    } else {
      CloseWith(right, t, tree, x, z, s);
    }
  }

  method CloseWith(right: bool, t: TreeNode, tree: TreeNode, x: TreeNode, ghost z: Spine, ghost s: Shape)
    requires SideClosed(right, t, z) && tree == End(t, z) && Header(t) && Inner(right, t) == First(z)
    requires s.Bin? && TreeOk(x, s) && Distinct(s) && NodesS(s) !! NodesZ(z) && t !in NodesS(s)
    modifies OnSpine(z), t`left, t`right, NodesS(s)
    ensures TreeOk(Inner(right, t), Plug(right, z, s)) && Outer(right, t) == old(Outer(right, t))
  {
    assert allocated(NodesZ(z)) && allocated(NodesS(s));
    ghost var z' := Link(z, s.n, s.k, OuterS(right, s));
    SpineParts(z);
    assert forall n :: n in NodesS(InnerS(right, s)) ==> n in NodesS(s) && n !in OnSpine(z');
    LinkChild(right, t, tree, x, z, s);
    FixSizes(x, t, right, z', Count(InnerS(right, s)));
    PlugOk(right, t, z', Inner(right, x), InnerS(right, s));
    assert Plug(right, z', InnerS(right, s)) == Plug(right, z, s);
    assert Inner(right, t) == First(z');
  }

  /** The last part of a splay: the two side trees become the subtrees of `root`. */
  method Join(t: TreeNode, root: TreeNode, ghost a: Shape, ghost k: nat, ghost b: Shape)
    requires TreeOk(t.right, a) && TreeOk(t.left, b) && root.key == k > 0
    requires Distinct(Bin(a, root, k, b)) && t != root
    modifies root, (if t.left == null then {} else {t.left})`p, (if t.right == null then {} else {t.right})`p
    ensures TreeOk(root, Bin(a, root, k, b)) && root.p == null
  {
    assert allocated(NodesS(a)) && allocated(NodesS(b));
    assert a.Bin? ==> TreeOk(a.n.left, a.l) && TreeOk(a.n.right, a.r) && NodesS(a.l) + NodesS(a.r) <= NodesS(a);
    assert b.Bin? ==> TreeOk(b.n.left, b.l) && TreeOk(b.n.right, b.r) && NodesS(b.l) + NodesS(b.r) <= NodesS(b);
    JoinLinks(t, root);
    assert a.Bin? ==> TreeOk(a.n.left, a.l) && TreeOk(a.n.right, a.r);
    assert b.Bin? ==> TreeOk(b.n.left, b.l) && TreeOk(b.n.right, b.r);
    SizeIsCount(root.left, a);
    SizeIsCount(root.right, b);
  }

  method JoinLinks(t: TreeNode, root: TreeNode)
    requires t.right != root && t.left != root && t != root
    modifies root`left, root`right, root`p, root`subtreeSize
    modifies (if t.left == null then {} else {t.left})`p, (if t.right == null then {} else {t.right})`p
    ensures root.left == t.right && root.right == t.left && root.p == null
    ensures root.left != null && root.left != root.right ==> root.left.p == root
    ensures root.right != null ==> root.right.p == root
    ensures root.subtreeSize == 1 + Size(root.left) + Size(root.right)
  {
    root.left := t.right;
    root.right := t.left;
    root.p := null;
    if root.left != null { root.left.p := root; }
    if root.right != null { root.right.p := root; }
    Resize(root);
  }

  /** Close one side and keep what the other still needs: its side tree `w` and the tree `y`. */
  method CloseBeside(right: bool, t: TreeNode, tree: TreeNode, x: TreeNode?, ghost z: Spine, ghost s: Shape,
      ghost y: TreeNode?, ghost w: Spine, ghost u: Shape)
    requires SideClosed(right, t, z) && tree == End(t, z) && Header(t) && Inner(right, t) == First(z)
    requires TreeOk(x, s) && Distinct(s) && NodesS(s) !! NodesZ(z) && t !in NodesS(s)
    requires SideClosed(!right, t, w) && TreeOk(y, u) && t !in NodesS(u)
    requires NodesZ(z) + NodesS(s) !! NodesZ(w) + NodesS(u)
    modifies NodesZ(z), t`left, t`right, NodesS(s)
    ensures TreeOk(Inner(right, t), Plug(right, z, s)) && Outer(right, t) == old(Outer(right, t))
    ensures SideClosed(!right, t, w) && TreeOk(y, u)
  {
    assert allocated(NodesZ(w)) && allocated(NodesS(u));
    SpineParts(z);
    Close(right, t, tree, x, z, s);
  }

  /** Both open ends are closed; `root` still holds its own key and is in neither tree. */
  method CloseBoth(t: TreeNode, ltree: TreeNode, root: TreeNode, rtree: TreeNode, ghost z: Zipper)
    requires State(t, ltree, root, rtree, z) && z.s.Bin?
    modifies t`left, t`right, NodesOf(z) - {root}
    ensures TreeOk(t.right, PlugL(z.lz, z.s.l)) && TreeOk(t.left, PlugR(z.rz, z.s.r))
  {
    ghost var s, a := z.s, PlugL(z.lz, z.s.l);
    assert allocated(NodesOf(z)) && Distinct(s);
    assert TreeOk(root.left, s.l) && TreeOk(root.right, s.r);
    PlugLKeeps(z.lz, s.l);
    CloseBeside(false, t, ltree, root.left, z.lz, s.l, root.right, z.rz, s.r);
    CloseBeside(true, t, rtree, root.right, z.rz, s.r, t.right, Top, a);
  }

  method Reassemble(t: TreeNode, ltree: TreeNode, root: TreeNode, rtree: TreeNode, ghost z: Zipper)
    requires State(t, ltree, root, rtree, z) && z.s.Bin?
    modifies t`left, t`right, NodesOf(z)
    ensures TreeOk(root, Assemble(z)) && root.p == null
  {
    PlugLKeeps(z.lz, z.s.l);
    PlugRKeeps(z.rz, z.s.r);
    AssembleKeeps(z);
    CloseBoth(t, ltree, root, rtree, z);
    Join(t, root, PlugL(z.lz, z.s.l), z.s.k, PlugR(z.rz, z.s.r));
  }

  // ----- The operation ---------------------------------------------------------------------

  /** One turn of the splay loop when the key is below the root's. */
  method TurnLeft(key: nat, t: TreeNode, ghost ltree: TreeNode, root: TreeNode, rtree: TreeNode, ghost z: Zipper)
    returns (done: bool, root': TreeNode, rtree': TreeNode, ghost z': Zipper)
    requires State(t, ltree, root, rtree, z) && z.s.Bin? && key < root.key
    modifies t`left, t`right, NodesOf(z)
    ensures State(t, ltree, root', rtree', z') && z'.s.Bin? && NodesOf(z') == NodesOf(z)
    ensures Descend(key, z) == (if done then z' else Descend(key, z'))
    ensures !done ==> Count(z'.s) < Count(z.s)
  {
    done, root', rtree', z' := true, root, rtree, z;
    View(root, z.s);
    if root'.left == null { return; }
    if key < root'.left.key {
      root' := ZigRight(t, ltree, root', rtree, z);
      z' := z.(s := RotR(z.s));
      if root'.left == null { return; }
    }
    var next := DescendLeft(t, ltree, root', rtree, z');
    done, root', rtree', z' := false, next, root', GoLeft(z');
  }

  method TurnRight(key: nat, t: TreeNode, ltree: TreeNode, root: TreeNode, ghost rtree: TreeNode, ghost z: Zipper)
    returns (done: bool, root': TreeNode, ltree': TreeNode, ghost z': Zipper)
    requires State(t, ltree, root, rtree, z) && z.s.Bin? && key > root.key
    modifies t`left, t`right, NodesOf(z)
    ensures State(t, ltree', root', rtree, z') && z'.s.Bin? && NodesOf(z') == NodesOf(z)
    ensures Descend(key, z) == (if done then z' else Descend(key, z'))
    ensures !done ==> Count(z'.s) < Count(z.s)
  {
    done, root', ltree', z' := true, root, ltree, z;
    View(root, z.s);
    if root'.right == null { return; }
    if key > root'.right.key {
      root' := ZigLeft(t, ltree, root', rtree, z);
      z' := z.(s := RotL(z.s));
      if root'.right == null { return; }
    }
    var next := DescendRight(t, ltree, root', rtree, z');
    done, root', ltree', z' := false, next, root', GoRight(z');
  }

  /** A splay turns the tree of shape `s` into the tree of shape `SplayShape(key, s)`, in place. */
  method Splay(key: nat, root: TreeNode?, ghost s: Shape) returns (r: TreeNode?)
    requires TreeOk(root, s) && Distinct(s)
    modifies NodesS(s)
    ensures TreeOk(r, SplayShape(key, s)) && (r != null ==> r.p == null)
  {
    if root == null { return null; }
    assert allocated(NodesS(s));
    var t := new TreeNode(0);
    var ltree, rtree: TreeNode, cur: TreeNode := t, t, root;
    ghost var z0 := Zipper(Top, s, Top);
    ghost var z := z0;
    while true
      invariant State(t, ltree, cur, rtree, z) && z.s.Bin? && NodesOf(z) == NodesS(s)
      invariant Descend(key, z) == Descend(key, z0)
      decreases Count(z.s)
    {
      var done := true;
      if key < cur.key {
        done, cur, rtree, z := TurnLeft(key, t, ltree, cur, rtree, z);
      } else if key > cur.key {
        done, cur, ltree, z := TurnRight(key, t, ltree, cur, rtree, z);
      }
      if done { break; }
    }
    assert z == Descend(key, z0);
    Reassemble(t, ltree, cur, rtree, z);
    r := cur;
  }
}
