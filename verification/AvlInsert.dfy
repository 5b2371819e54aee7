/** The AVL tree: insertion of a node and rebalancing on the way up. */
module AvlInsert {
  import opened BinaryTree
  import opened AvlRotate
  import opened AvlPointers
  import opened AvlTree

  /** Balances on the way up fit a subtree of height h in the hole. */
  ghost predicate AvlC(c: Ctx, h: nat) {
    c == Top ||
    (c.tag == Lean(c.dir, h, Height(c.sib)) && -1 <= c.tag <= 1 && Avl(c.sib) && AvlC(c.up, 1 + Max(h, Height(c.sib))))
  }

  lemma {:induction false} ZipAvl(c: Ctx, t: Tree)
    ensures Avl(Zip(c, t)) <==> AvlC(c, Height(t)) && Avl(t)
  {
    if c.Step? {
      ZipAvl(c.up, Mk(c.dir, t, c.node, c.tag, c.sib));
      HeightMk(c.dir, t, c.node, c.tag, c.sib);
    }
  }

  /** A valid AVL tree in memory that reads target. */
  ghost predicate Good(m: Mem, root: Node?, t: Tree, target: seq<Node>) {
    Linked(m, t, null) && Root(t) == root && Apart(t) && Avl(t) && InOrder(t) == target
  }

  lemma ZipGood(m: Mem, root: Node?, c: Ctx, t: Tree, target: seq<Node>)
    requires Focus(m, root, c, t) && AvlC(c, Height(t)) && Avl(t) && Pre(c) + InOrder(t) + Post(c) == target
    ensures Good(m, root, Zip(c, t), target) && Foot(Zip(c, t)) == FootC(c) + Foot(t)
  {
    ZipLinked(m, root, c, t);
    ZipApart(c, t);
    ZipAvl(c, t);
    ZipInOrder(c, t);
  }

  /** The subtree in focus, balanced, has grown by one level; it is new or leans to one side. */
  ghost predicate Growing(c: Ctx, t: Tree, target: seq<Node>) {
    t.Fork? && Avl(t) && AvlC(c, Height(t) - 1) && (t.tag != 0 || Height(t) == 1) && Pre(c) + InOrder(t) + Post(c) == target
  }

  /** One side of the parent had been lower: now both are equal. */
  lemma Evened(c: Ctx, t: Tree, target: seq<Node>)
    requires Growing(c, t, target) && c.Step? && c.dir <= 1 && c.tag == D2B(1 - c.dir)
    ensures AvlC(c.(tag := 0), Height(t))
  {
  }

  /** The parent now leans, and is one level higher. */
  lemma Leaned(c: Ctx, t: Tree, target: seq<Node>)
    requires Growing(c, t, target) && c.Step? && c.dir <= 1 && c.tag == 0
    ensures var u := Mk(c.dir, t, c.node, D2B(c.dir), c.sib);
      Avl(u) && AvlC(c.up, Height(u) - 1) && u.tag != 0 && u.Fork?
  {
    HeightMk(c.dir, t, c.node, D2B(c.dir), c.sib);
    hide Mk;
  }

  /** The parent leaned already: it has to be rotated, and gets its old height back. */
  lemma Overweight(c: Ctx, t: Tree, target: seq<Node>)
    requires Growing(c, t, target) && c.Step? && c.dir <= 1 && c.tag == D2B(c.dir)
    ensures var s := Mk(c.dir, t, c.node, c.tag, c.sib);
      TooHigh(s, 1 - c.dir) && AvlC(c.up, RotatedHeight(s, 1 - c.dir))
  {
    HeightSides(t, 0);
  }

  lemma AfterRotation(m: Mem, m1: Mem, root: Node?, c: Ctx, s: Tree, r: Tree, h: nat, stale: Node?)
    requires Focus(m, root, c, s) && s.Fork? && Rotated(m, m1, s, r, h) && Linked(m1, r, stale)
    ensures LinkedC(m1, root, c, s.node) && ApartC(c) && s.node !in FootC(c) && Foot(r) == Foot(s)
    ensures Avl(r) && Height(r) == h && Same(s, r) && r.Fork? && Apart(r) && FootC(c) !! Foot(r) && m1.Keys == m.Keys
  {
    RootIn(s);
    LinkedCFrame(m, m1, root, c, s.node);
  }

  lemma AfterRelink(m1: Mem, m2: Mem, m3: Mem, root: Node?, c: Ctx, r: Tree, stale: Node?)
    requires Linked(m1, r, stale) && r.Fork? && Apart(r) && ApartC(c) && FootC(c) !! Foot(r)
    requires m2.Keys == m1.Keys && Agree(m1, m2, m1.Keys - FootC(c)) && LinkedC(m2, root, c, r.node)
    requires r.node in m2 && m3 == m2[r.node := m2[r.node].(parent := Owner(c))]
    ensures Focus(m3, root, c, r) && m3.Keys == m2.Keys
  {
    RootIn(r);
    LinkedFrame(m1, m2, r, stale);
    Reparent(m2, m3, r, stale, Owner(c));
    LinkedCFrame(m2, m3, root, c, r.node);
  }

  /** Rotates the subtree at parent and links the result to the grandparent. */
  method RotateAt(parent: Node, dir: nat, grandparent: Node?, head: Head, ghost m: Mem, ghost c: Ctx, ghost s: Tree)
    returns (node: Node, ghost m1: Mem, ghost r: Tree)
    requires Mirrors(m) && Focus(m, head.root, c, s) && TooHigh(s, dir) && s.node == parent && grandparent == Owner(c)
    modifies head, m.Keys
    ensures Mirrors(m1) && m1.Keys == m.Keys && Focus(m1, head.root, c, r) && r.Fork? && r.node == node
    ensures Avl(r) && Height(r) == RotatedHeight(s, dir) && Same(s, r)
  {
    FocusParts(m, head.root, c, s);
    hide *;
    ghost var n1, stale;
    node, n1, r, stale := Rotate(parent, dir, m, s, Owner(c));
    AfterRotation(m, n1, head.root, c, s, r, RotatedHeight(s, dir), stale);
    OwnerIn(n1, head.root, c, parent);
    ghost var n2 := ChangeChild(parent, node, grandparent, head, n1, c);
    TreeNode(n1, r, stale);
    m1 := SetParent(node, grandparent, n2);
    AfterRelink(n1, n2, m1, head.root, c, r, stale);
  }

  /** The result of rebalancing. */
  ghost predicate Rebalanced(m: Mem, root: Node?, t: Tree, target: seq<Node>, foot: set<Node>) {
    Good(m, root, t, target) && Foot(t) == foot
  }

  lemma FinishTagged(m: Mem, m1: Mem, root: Node?, c: Ctx, t: Tree, target: seq<Node>)
    requires Focus(m, root, c, t) && Growing(c, t, target) && c.Step? && c.dir <= 1 && c.tag == D2B(1 - c.dir)
    requires c.node in m && m1 == m[c.node := m[c.node].(tag := 0)]
    ensures Rebalanced(m1, root, Zip(c.(tag := 0), t), target, FootC(c) + Foot(t)) && m1.Keys == m.Keys
  {
    Retag(m, m1, root, c, t, 0);
    RetagOrder(c, 0);
    Evened(c, t, target);
    ZipGood(m1, root, c.(tag := 0), t, target);
  }

  lemma FinishRotated(m: Mem, root: Node?, c: Ctx, s: Tree, r: Tree, target: seq<Node>, h: nat)
    requires Focus(m, root, c, r) && Avl(r) && Height(r) == h && AvlC(c, h) && Same(s, r)
    requires Pre(c) + InOrder(s) + Post(c) == target
    ensures Rebalanced(m, root, Zip(c, r), target, FootC(c) + Foot(s))
  {
    ZipGood(m, root, c, r, target);
  }

  lemma GrowUp(m: Mem, m1: Mem, root: Node?, c: Ctx, t: Tree, target: seq<Node>)
    requires Focus(m, root, c, t) && Growing(c, t, target) && c.Step? && c.dir <= 1 && c.tag == 0
    requires c.node in m && m1 == m[c.node := m[c.node].(tag := D2B(c.dir))]
    ensures var u := Mk(c.dir, t, c.node, D2B(c.dir), c.sib);
      Focus(m1, root, c.up, u) && Growing(c.up, u, target) && FootC(c.up) + Foot(u) == FootC(c) + Foot(t) && m1.Keys == m.Keys
  {
    var c1 := c.(tag := D2B(c.dir));
    Retag(m, m1, root, c, t, D2B(c.dir));
    RetagOrder(c, D2B(c.dir));
    hide Focus, Pre, Post, InOrder, FootC, Foot;
    FocusUp(m1, root, c1, t);
    Leaned(c, t, target);
    hide Avl, AvlC, Height;
  }

  lemma GrownWhole(m: Mem, root: Node?, t: Tree, target: seq<Node>)
    requires Focus(m, root, Top, t) && Growing(Top, t, target)
    ensures Rebalanced(m, root, t, target, FootC(Top) + Foot(t))
  {
    ZipGood(m, root, Top, t, target);
  }

  lemma OverweightAt(m: Mem, root: Node?, c: Ctx, t: Tree, target: seq<Node>)
    requires Focus(m, root, c, t) && Growing(c, t, target) && c.Step? && c.dir <= 1 && c.tag == D2B(c.dir)
    ensures var s := Mk(c.dir, t, c.node, c.tag, c.sib);
      Focus(m, root, c.up, s) && s.Fork? && s.node == c.node && TooHigh(s, 1 - c.dir) && AvlC(c.up, RotatedHeight(s, 1 - c.dir)) &&
      Pre(c.up) + InOrder(s) + Post(c.up) == target && FootC(c.up) + Foot(s) == FootC(c) + Foot(t)
  {
    FocusUp(m, root, c, t);
    hide Focus;
    Overweight(c, t, target);
    hide Pre, Post, InOrder, FootC, Foot, Avl, AvlC, Height;
  }

  lemma GrowingRange(m: Mem, root: Node?, c: Ctx, t: Tree, target: seq<Node>)
    requires Focus(m, root, c, t) && Growing(c, t, target) && c.Step?
    ensures -1 <= c.tag <= 1 && t.Fork?
  {
  }

  /** The way up of an insertion. */
  method RebalanceInsert(head: Head, node0: Node, parent0: Node, dir0: nat, ghost m0: Mem, ghost c0: Ctx, ghost t0: Tree,
                         ghost target: seq<Node>)
    returns (ghost m: Mem, ghost t1: Tree)
    requires Mirrors(m0) && Focus(m0, head.root, c0, t0) && Growing(c0, t0, target)
    requires c0.Step? && parent0 == c0.node && dir0 == c0.dir && node0 == Root(t0)
    modifies head, m0.Keys
    ensures Mirrors(m) && m.Keys == m0.Keys && Rebalanced(m, head.root, t1, target, FootC(c0) + Foot(t0))
  {
    hide *;
    var node, parent, dir := node0, parent0, dir0;
    m := m0;
    ghost var c, t := c0, t0;
    while true
      invariant Mirrors(m) && m.Keys == m0.Keys && Focus(m, head.root, c, t) && Growing(c, t, target)
      invariant c.Step? && parent == c.node && dir == c.dir && node == Root(t)
      invariant FootC(c) + Foot(t) == FootC(c0) + Foot(t0)
      decreases c
    {
      FocusFacts(m, head.root, c, t);
      GrowingRange(m, head.root, c, t, target);
      Peek(m, parent);
      var grandparent := parent.parent;
      var leftDir, rightDir := dir, 1 - dir;
      var balance := parent.tag;
      DirBalances(dir);
      if balance == D2B(rightDir) {
        ghost var n := SetTag(parent, 0, m);
        FinishTagged(m, n, head.root, c, t, target);
        m, t1 := n, Zip(c.(tag := 0), t);
        break;
      }
      if balance == D2B(leftDir) {
        ghost var s := Mk(dir, t, parent, c.tag, c.sib);
        OverweightAt(m, head.root, c, t, target);
        ghost var n, r;
        node, n, r := RotateAt(parent, rightDir, grandparent, head, m, c.up, s);
        FinishRotated(n, head.root, c.up, s, r, target, RotatedHeight(s, rightDir));
        m, t1 := n, Zip(c.up, r);
        break;
      }
      ghost var n := SetTag(parent, D2B(leftDir), m);
      GrowUp(m, n, head.root, c, t, target);
      ghost var u := Mk(dir, t, parent, D2B(leftDir), c.sib);
      FocusParts(n, head.root, c.up, u);
      OwnerIn(n, head.root, c.up, Root(u));
      RootIs(u);
      m := n;
      node := parent;
      c, t := c.up, u;
      if grandparent == null {
        t1 := t;
        GrownWhole(m, head.root, t, target);
        break;
      }
      parent := grandparent;
      FocusFacts(m, head.root, c, t);
      OwnerIs(c);
      dir := DirOfChild(node, parent, m, c);
    }
  }

  lemma DirBalances(dir: nat)
    requires dir <= 1
    ensures D2B(dir) == (if dir == 0 then -1 else 1) && D2B(1 - dir) == -D2B(dir)
  {
  }
}
