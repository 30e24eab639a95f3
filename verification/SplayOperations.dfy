/** The operations of the splay tree as operations on its set of keys. */
module SplayOperations {
  import opened SplayShapes
  import opened SplayTree

  /** `x` is a sound search tree of shape `s`. */
  ghost predicate SearchTree(x: TreeNode?, s: Shape)
    reads NodesS(s)
  {
    TreeOk(x, s) && Distinct(s) && Bst(s)
  }

  lemma {:induction false} CountKeys(s: Shape)
    requires Bst(s)
    ensures |Keys(s)| == Count(s)
    decreases s
  {
    if s.Bin? {
      CountKeys(s.l);
      CountKeys(s.r);
      assert Keys(s.l) !! {s.k} && Keys(s.l) + {s.k} !! Keys(s.r);
    }
  }

  ghost function KeysAbove(s: Shape, key: nat): set<nat> {
    set x | x in Keys(s) && x > key
  }

  method Find(key: nat, root: TreeNode?, ghost s: Shape) returns (r: TreeNode?)
    requires SearchTree(root, s)
    modifies NodesS(s)
    ensures SearchTree(r, SplayShape(key, s)) && Keys(SplayShape(key, s)) == Keys(s)
    ensures r == null <==> s.Nil?
    ensures key in Keys(s) <==> r != null && r.key == key
  {
    SplayKeeps(key, s);
    SplaySplits(key, s);
    r := Splay(key, root, s);
    View(r, SplayShape(key, s));
  }

  /** Once the key is at the root, its right subtree holds exactly the larger keys. */
  lemma RightOfSplay(key: nat, s: Shape)
    requires Bst(s) && key in Keys(s)
    ensures var r := SplayShape(key, s); r.Bin? && Keys(r.r) == KeysAbove(s, key) && Count(r.r) == |KeysAbove(s, key)|
  {
    SplaySplits(key, s);
    CountKeys(SplayShape(key, s).r);
  }

  /** The distance of a key is the number of larger keys; a missing key has distance 0. */
  method ComputeDistance(key: nat, root: TreeNode?, ghost s: Shape) returns (r: TreeNode?, distance: nat)
    requires SearchTree(root, s)
    modifies NodesS(s)
    ensures SearchTree(r, SplayShape(key, s)) && Keys(SplayShape(key, s)) == Keys(s)
    ensures r == null <==> s.Nil?
    ensures r != null ==> (r.key == key <==> key in Keys(s))
    ensures distance == if key in Keys(s) then |KeysAbove(s, key)| else 0
  {
    r := Find(key, root, s);
    distance := 0;
    if r != null && r.key == key {
      RightOfSplay(key, s);
      SizeIsCount(r.right, SplayShape(key, s).r);
      if r.right != null { distance := r.right.subtreeSize; }
    }
  }

  method TreeSize(root: TreeNode?, ghost s: Shape) returns (n: nat)
    requires TreeOk(root, s)
    ensures n == Count(s) && (Bst(s) ==> n == |Keys(s)|)
    decreases s
  {
    if Bst(s) { CountKeys(s); }
    if root == null { return 0; }
    assert allocated(NodesS(s)) && TreeOk(root.left, s.l) && TreeOk(root.right, s.r);
    var right := TreeSize(root.right, s.r);
    var left := TreeSize(root.left, s.l);
    n := right + left + 1;
  }

  // ----- Insertion -------------------------------------------------------------------------

  /** The shape after a new node has been put above the root `s`, on the side of its key. */
  ghost function Above(node: TreeNode, key: nat, s: Shape): (r: Shape)
    requires s.Bin?
    ensures Count(r) == 1 + Count(s)
  {
    if key < s.k then
      assert Count(Bin(Nil, s.n, s.k, s.r)) == 1 + Count(s.r);
      Bin(s.l, node, key, Bin(Nil, s.n, s.k, s.r))
    else
      assert Count(Bin(s.l, s.n, s.k, Nil)) == 1 + Count(s.l);
      Bin(Bin(s.l, s.n, s.k, Nil), node, key, s.r)
  }

  ghost predicate Single(node: TreeNode)
    reads node
  {
    node.key > 0 && node.subtreeSize == 1 && node.left == null && node.right == null && node.p == null
  }

  /** Put `node` above `root`: `root` becomes its outer child and hands its inner subtree over. */
  method PutAboveLinks(right: bool, node: TreeNode, root: TreeNode)
    requires node != root && Size(root.left) + Size(root.right) + 1 == root.subtreeSize
    requires root.left !in {node, root} && root.right !in {node, root}
    modifies node`left, node`right, node`subtreeSize, root`left, root`right, root`p, root`subtreeSize
    modifies (if Inner(right, root) == null then {} else {Inner(right, root)})`p
    ensures Inner(right, node) == old(Inner(right, root)) && Outer(right, node) == root
    ensures Inner(right, root) == null && Outer(right, root) == old(Outer(right, root))
    ensures Inner(right, node) != null ==> Inner(right, node).p == node
    ensures root.p == node && node.subtreeSize == old(root.subtreeSize) + 1
    ensures root.subtreeSize == 1 + Size(Outer(right, root))
  {
    if right {
      node.left := root.left;
      if node.left != null { node.left.p := node; }
      node.right := root;
      if node.right != null { node.right.p := node; }
      root.left := null;
      node.subtreeSize := root.subtreeSize + 1;
      if node.left != null { root.subtreeSize := root.subtreeSize - node.left.subtreeSize; }
    } else {
      node.right := root.right;
      if node.right != null { node.right.p := node; }
      node.left := root;
      if node.left != null { node.left.p := node; }
      root.right := null;
      node.subtreeSize := root.subtreeSize + 1;
      if node.right != null { root.subtreeSize := root.subtreeSize - node.right.subtreeSize; }
    }
  }

  method PutAbove(right: bool, node: TreeNode, root: TreeNode, ghost s: Shape)
    requires s.Bin? && TreeOk(root, s) && Distinct(s) && node !in NodesS(s) && node.key > 0
    requires right <==> node.key < root.key
    modifies node, NodesS(s)
    ensures node.key == old(node.key) && node.p == old(node.p) && TreeOk(node, Above(node, node.key, s))
  {
    ghost var inner, outer := InnerS(right, s), OuterS(right, s);
    assert allocated(NodesS(s));
    assert TreeOk(Inner(right, root), inner) && TreeOk(Outer(right, root), outer) && Distinct(inner);
    assert inner.Bin? ==> TreeOk(inner.n.left, inner.l) && TreeOk(inner.n.right, inner.r)
                          && NodesS(inner.l) + NodesS(inner.r) <= NodesS(inner);
    assert outer.Bin? ==> outer.n in NodesS(outer) && outer.n.p == root && outer.n !in NodesS(inner);
    SizeIsCount(root.left, s.l);
    SizeIsCount(root.right, s.r);
    PutAboveLinks(right, node, root);
    assert inner.Bin? ==> TreeOk(inner.n.left, inner.l) && TreeOk(inner.n.right, inner.r);
    assert TreeOk(Inner(right, node), inner) && TreeOk(Outer(right, root), outer);
    SizeIsCount(Outer(right, root), outer);
  }

  /** Putting a missing key above a splayed root keeps the order and adds just that key. */
  lemma AboveKeeps(node: TreeNode, key: nat, r: Shape)
    requires r.Bin? && Bst(r) && Distinct(r) && key != r.k && node !in NodesS(r)
    requires (forall x :: x in Keys(r.l) ==> x < key) && (forall x :: x in Keys(r.r) ==> key < x)
    ensures var a := Above(node, key, r);
      Bst(a) && Distinct(a) && Keys(a) == Keys(r) + {key} && NodesS(a) == NodesS(r) + {node}
  {
    if key < r.k {
      OneSided(r.n, r.k, r.r);
    } else {
      OneSided(r.n, r.k, r.l);
    }
  }

  lemma OneSided(n: TreeNode, k: nat, c: Shape)
    requires Bst(c) && Distinct(c) && n !in NodesS(c)
    ensures Distinct(Bin(Nil, n, k, c)) && Distinct(Bin(c, n, k, Nil))
    ensures NodesS(Bin(Nil, n, k, c)) == NodesS(Bin(c, n, k, Nil)) == NodesS(c) + {n}
    ensures Keys(Bin(Nil, n, k, c)) == Keys(Bin(c, n, k, Nil)) == Keys(c) + {k}
    ensures (forall x :: x in Keys(c) ==> k < x) ==> Bst(Bin(Nil, n, k, c))
    ensures (forall x :: x in Keys(c) ==> x < k) ==> Bst(Bin(c, n, k, Nil))
  {
  }

  /** The shared second half of insertion and update: splay, then put `node` above the root. If the
      key is already there, `node` is dropped. */
  method InsertNode(node: TreeNode, root: TreeNode?, ghost s: Shape) returns (r: TreeNode, ghost s': Shape)
    requires SearchTree(root, s) && node !in NodesS(s) && Single(node)
    modifies node, NodesS(s)
    ensures SearchTree(r, s') && r.key == node.key == old(node.key)
    ensures Keys(s') == Keys(s) + {node.key}
    ensures NodesS(s') == if node.key in Keys(s) then NodesS(s) else NodesS(s) + {node}
    ensures node.key !in Keys(s) ==> r == node
  {
    View(root, s);
    if root == null {
      s' := Bin(Nil, node, node.key, Nil);
      OneSided(node, node.key, Nil);
      assert Count(s') == 1 && TreeOk(node, s');
      return node, s';
    }
    var key := node.key;
    assert allocated(NodesS(s));
    SplayKeeps(key, s);
    SplaySplits(key, s);
    ghost var sp := SplayShape(key, s);
    r := Splay(key, root, s);
    s' := sp;
    View(r, sp);
    if key != r.key {
      AboveKeeps(node, key, sp);
      PutAbove(key < r.key, node, r, sp);
      r, s' := node, Above(node, key, sp);
    }
  }

  /** Insertion adds exactly the key, and leaves it at the root. */
  method Insert(key: nat, root: TreeNode?, ghost s: Shape) returns (r: TreeNode, ghost s': Shape)
    requires SearchTree(root, s) && key > 0
    modifies NodesS(s)
    ensures SearchTree(r, s') && r.key == key && Keys(s') == Keys(s) + {key}
    ensures NodesS(s) <= NodesS(s') <= NodesS(s) + {r} && (r in NodesS(s) || fresh(r))
  {
    assert allocated(NodesS(s));
    var node := new TreeNode(key);
    r, s' := InsertNode(node, root, s);
  }

  // ----- Removal ---------------------------------------------------------------------------

  /** Splaying a key above all others leaves no right subtree. */
  lemma SplayMax(key: nat, s: Shape)
    requires Bst(s) && s.Bin? && forall x :: x in Keys(s) ==> x < key
    ensures SplayShape(key, s).r == Nil
  {
    SplaySplits(key, s);
    var c := SplayShape(key, s).r;
    assert Keys(c) <= Keys(s);
  }

  /** The tree without its root: the larger keys go under the splayed smaller ones. */
  ghost function Rest(key: nat, s: Shape): (r: Shape)
    requires s.Bin? && Bst(s) && s.k == key
  {
    if s.l.Nil? then s.r
    else var m := SplayShape(key, s.l); Bin(m.l, m.n, m.k, s.r)
  }

  lemma RestKeeps(key: nat, s: Shape)
    requires s.Bin? && Bst(s) && s.k == key && Distinct(s)
    ensures Bst(Rest(key, s)) && Distinct(Rest(key, s))
    ensures Keys(Rest(key, s)) == Keys(s) - {key} && NodesS(Rest(key, s)) == NodesS(s) - {s.n}
  {
    if s.l.Bin? {
      SplayKeeps(key, s.l);
      SplaySplits(key, s.l);
      SplayMax(key, s.l);
    }
  }

  method GraftRight(root: TreeNode, x: TreeNode?, ghost m: Shape, ghost c: Shape)
    requires m.Bin? && m.r.Nil? && Distinct(m) && TreeOk(root, m) && root.p == null
    requires TreeOk(x, c) && Distinct(c) && NodesS(m) !! NodesS(c)
    modifies root, NodesS(c)
    ensures TreeOk(root, Bin(m.l, m.n, m.k, c)) && root.p == null
  {
    assert allocated(NodesS(m)) && allocated(NodesS(c));
    assert TreeOk(root.left, m.l);
    assert c.Bin? ==> TreeOk(c.n.left, c.l) && TreeOk(c.n.right, c.r) && NodesS(c.l) + NodesS(c.r) <= NodesS(c);
    GraftRightLinks(root, x);
    assert c.Bin? ==> TreeOk(c.n.left, c.l) && TreeOk(c.n.right, c.r);
    SizeIsCount(root.left, m.l);
    SizeIsCount(root.right, c);
  }

  method GraftRightLinks(root: TreeNode, x: TreeNode?)
    requires x != root && root.left != root
    modifies root`right, root`subtreeSize, (if x == null then {} else {x})`p
    ensures root.right == x && (x != null ==> x.p == root)
    ensures root.subtreeSize == 1 + Size(root.left) + Size(root.right)
  {
    root.right := x;
    if root.right != null { root.right.p := root; }
    Resize(root);
  }

  /** The shared core of deletion and update: take the root out of the tree. */
  method RemoveRoot(key: nat, root: TreeNode, ghost s: Shape) returns (rest: TreeNode?)
    requires s.Bin? && TreeOk(root, s) && Distinct(s) && Bst(s) && root.key == key
    modifies NodesS(s) - {root}
    ensures SearchTree(rest, Rest(key, s))
  {
    assert allocated(NodesS(s));
    View(root, s);
    assert TreeOk(root.left, s.l) && TreeOk(root.right, s.r);
    RestKeeps(key, s);
    if root.left == null {
      rest := root.right;
    } else {
      ghost var m := SplayShape(key, s.l);
      SplayKeeps(key, s.l);
      SplayMax(key, s.l);
      rest := Splay(key, root.left, s.l);
      assert TreeOk(root.right, s.r);
      GraftRight(rest, root.right, m, s.r);
    }
  }

  /** Splay for the key and take its node, if there is one, out of the tree. */
  method Detach(key: nat, root: TreeNode?, ghost s: Shape)
    returns (rest: TreeNode?, node: TreeNode?, ghost t: Shape)
    requires SearchTree(root, s)
    modifies NodesS(s)
    ensures SearchTree(rest, t) && Keys(t) == Keys(s) - {key}
    ensures node != null <==> key in Keys(s)
    ensures if node == null then NodesS(t) == NodesS(s) else node in NodesS(s) && NodesS(t) == NodesS(s) - {node}
  {
    rest, node, t := root, null, s;
    View(root, s);
    if root == null { return; }
    assert allocated(NodesS(s));
    SplayKeeps(key, s);
    rest := Find(key, root, s);
    t := SplayShape(key, s);
    View(rest, t);
    if key == rest.key {
      RestKeeps(key, t);
      node := rest;
      rest := RemoveRoot(key, rest, t);
      t := Rest(key, t);
    }
  }

  /** Deletion removes exactly the key; its node, now outside the tree, is what the code frees. */
  method Delete(key: nat, root: TreeNode?, ghost s: Shape) returns (r: TreeNode?, ghost s': Shape)
    requires SearchTree(root, s)
    modifies NodesS(s)
    ensures SearchTree(r, s') && Keys(s') == Keys(s) - {key}
    ensures NodesS(s') <= NodesS(s) && (key !in Keys(s) ==> NodesS(s') == NodesS(s))
  {
    var node;
    r, node, s' := Detach(key, root, s);
  }

  /** Update replaces one key by another, reusing the removed node when there is one. */
  method Update(previousKey: nat, newKey: nat, root: TreeNode?, ghost s: Shape) returns (r: TreeNode, ghost s': Shape)
    requires SearchTree(root, s) && newKey > 0
    modifies NodesS(s)
    ensures SearchTree(r, s') && r.key == newKey && Keys(s') == Keys(s) - {previousKey} + {newKey}
    ensures NodesS(s') <= NodesS(s) + {r} && (r in NodesS(s) || fresh(r))
    ensures previousKey in Keys(s) && newKey !in Keys(s) ==> NodesS(s') == NodesS(s)
  {
    assert allocated(NodesS(s));
    var rest, tmp: TreeNode?, t := Detach(previousKey, root, s);
    assert allocated(NodesS(t));
    var node: TreeNode;
    if tmp == null {
      node := new TreeNode(newKey);
    } else {
      node := tmp;
      node.Clean(newKey);
    }
    r, s' := InsertNode(node, rest, t);
  }
}
