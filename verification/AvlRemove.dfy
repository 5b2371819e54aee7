/** The AVL tree: rebalancing after a subtree has become lower. */
module AvlRemove {
  import opened BinaryTree
  import opened AvlRotate
  import opened AvlPointers
  import opened AvlTree
  import opened AvlInsert

  /** The subtree in focus, balanced, is one level lower than before. */
  ghost predicate Shrinking(c: Ctx, t: Tree, target: seq<Node>) {
    Avl(t) && AvlC(c, Height(t) + 1) && Pre(c) + InOrder(t) + Post(c) == target
  }

  lemma ShrinkingRange(c: Ctx, t: Tree, target: seq<Node>)
    requires Shrinking(c, t, target) && c.Step? && c.dir <= 1
    ensures -1 <= c.tag <= 1 && (c.tag == D2B(1 - c.dir) ==> c.sib.Fork?)
  {
  }

  /** The parent was even: now it leans to the other side, as high as before. */
  lemma FinishLeaning(m: Mem, m1: Mem, root: Node?, c: Ctx, t: Tree, target: seq<Node>)
    requires Focus(m, root, c, t) && Shrinking(c, t, target) && c.Step? && c.dir <= 1 && c.tag == 0
    requires c.node in m && m1 == m[c.node := m[c.node].(tag := D2B(1 - c.dir))]
    ensures Rebalanced(m1, root, Zip(c.(tag := D2B(1 - c.dir)), t), target, FootC(c) + Foot(t)) && m1.Keys == m.Keys
  {
    Retag(m, m1, root, c, t, D2B(1 - c.dir));
    RetagOrder(c, D2B(1 - c.dir));
    LeansNow(c, t, target);
    hide Focus, AvlC, Pre, Post, InOrder, FootC, Foot, Zip;
    ZipGood(m1, root, c.(tag := D2B(1 - c.dir)), t, target);
  }

  lemma LeansNow(c: Ctx, t: Tree, target: seq<Node>)
    requires Shrinking(c, t, target) && c.Step? && c.dir <= 1 && c.tag == 0
    ensures AvlC(c.(tag := D2B(1 - c.dir)), Height(t))
  {
  }

  /** The parent leaned to the subtree's side: now it is even, and lower. */
  lemma ShrinkUp(m: Mem, m1: Mem, root: Node?, c: Ctx, t: Tree, target: seq<Node>)
    requires Focus(m, root, c, t) && Shrinking(c, t, target) && c.Step? && c.dir <= 1 && c.tag == D2B(c.dir)
    requires c.node in m && m1 == m[c.node := m[c.node].(tag := 0)]
    ensures var u := Mk(c.dir, t, c.node, 0, c.sib);
      Focus(m1, root, c.up, u) && Shrinking(c.up, u, target) && FootC(c.up) + Foot(u) == FootC(c) + Foot(t) && m1.Keys == m.Keys
  {
    hide *;
    var c1 := c.(tag := 0);
    Retag(m, m1, root, c, t, 0);
    RetagOrder(c, 0);
    EvenNow(c, t, target);
    FocusUp(m1, root, c1, t);
    FoldShrinking(c, t, target);
  }

  lemma FoldShrinking(c: Ctx, t: Tree, target: seq<Node>)
    requires Shrinking(c, t, target) && c.Step? && Avl(Mk(c.dir, t, c.node, 0, c.sib))
    requires AvlC(c.up, Height(Mk(c.dir, t, c.node, 0, c.sib)) + 1)
    requires Pre(c) + InOrder(t) + Post(c) == Pre(c.up) + InOrder(Mk(c.dir, t, c.node, 0, c.sib)) + Post(c.up)
    ensures Shrinking(c.up, Mk(c.dir, t, c.node, 0, c.sib), target)
  {
  }

  lemma EvenNow(c: Ctx, t: Tree, target: seq<Node>)
    requires Shrinking(c, t, target) && c.Step? && c.dir <= 1 && c.tag == D2B(c.dir)
    ensures var u := Mk(c.dir, t, c.node, 0, c.sib); Avl(u) && AvlC(c.up, Height(u) + 1)
  {
    HeightMk(c.dir, t, c.node, 0, c.sib);
    hide Mk;
  }

  /** The parent leaned to the other side: it has to be rotated. */
  lemma Underweight(m: Mem, root: Node?, c: Ctx, t: Tree, target: seq<Node>)
    requires Focus(m, root, c, t) && Shrinking(c, t, target) && c.Step? && c.dir <= 1 && c.tag == D2B(1 - c.dir)
    ensures c.sib.Fork?
    ensures var s := Mk(c.dir, t, c.node, c.tag, c.sib);
      Focus(m, root, c.up, s) && s.Fork? && s.node == c.node && TooHigh(s, c.dir) &&
      AvlC(c.up, if c.sib.tag == 0 then RotatedHeight(s, c.dir) else RotatedHeight(s, c.dir) + 1) &&
      Pre(c.up) + InOrder(s) + Post(c.up) == target && FootC(c.up) + Foot(s) == FootC(c) + Foot(t)
  {
    FocusUp(m, root, c, t);
    TooLow(c, t, target);
    hide Focus, Pre, Post, InOrder, FootC, Foot, Avl, AvlC, Height;
  }

  lemma TooLow(c: Ctx, t: Tree, target: seq<Node>)
    requires Shrinking(c, t, target) && c.Step? && c.dir <= 1 && c.tag == D2B(1 - c.dir)
    ensures c.sib.Fork?
    ensures var s := Mk(c.dir, t, c.node, c.tag, c.sib);
      TooHigh(s, c.dir) && AvlC(c.up, if c.sib.tag == 0 then RotatedHeight(s, c.dir) else RotatedHeight(s, c.dir) + 1)
  {
  }

  lemma RotatedOn(m: Mem, root: Node?, c: Ctx, s: Tree, r: Tree, target: seq<Node>, h: nat)
    requires Focus(m, root, c, r) && Avl(r) && Height(r) == h && AvlC(c, h + 1) && Same(s, r)
    requires Pre(c) + InOrder(s) + Post(c) == target
    ensures Shrinking(c, r, target) && FootC(c) + Foot(r) == FootC(c) + Foot(s)
  {
  }

  lemma ShrunkWhole(m: Mem, root: Node?, c: Ctx, t: Tree, target: seq<Node>)
    requires c == Top && Focus(m, root, c, t) && Shrinking(c, t, target)
    ensures Rebalanced(m, root, t, target, FootC(c) + Foot(t))
  {
    ZipGood(m, root, Top, t, target);
  }

  /** The way up of a removal. */
  method RebalanceRemove(head: Head, parent0: Node, dir0: nat, ghost m0: Mem, ghost c0: Ctx, ghost t0: Tree, ghost target: seq<Node>)
    returns (ghost m: Mem, ghost t1: Tree)
    requires Mirrors(m0) && Focus(m0, head.root, c0, t0) && Shrinking(c0, t0, target)
    requires c0.Step? && parent0 == c0.node && dir0 == c0.dir
    modifies head, m0.Keys
    ensures Mirrors(m) && m.Keys == m0.Keys && Rebalanced(m, head.root, t1, target, FootC(c0) + Foot(t0))
  {
    hide *;
    var parent, dir := parent0, dir0;
    var node: Node;
    m := m0;
    ghost var c, t := c0, t0;
    while true
      invariant Mirrors(m) && m.Keys == m0.Keys && Focus(m, head.root, c, t) && Shrinking(c, t, target)
      invariant c.Step? && parent == c.node && dir == c.dir && FootC(c) + Foot(t) == FootC(c0) + Foot(t0)
      decreases c
    {
      FocusFacts(m, head.root, c, t);
      ShrinkingRange(c, t, target);
      PeekChild(m, parent, 1 - dir);
      var grandparent := parent.parent;
      var leftDir, rightDir := dir, 1 - dir;
      var balance := parent.tag;
      DirBalances(dir);
      if balance == 0 {
        ghost var n := SetTag(parent, D2B(rightDir), m);
        FinishLeaning(m, n, head.root, c, t, target);
        m, t1 := n, Zip(c.(tag := D2B(rightDir)), t);
        break;
      }
      if balance == D2B(rightDir) {
        var sibling := parent.Child(rightDir);
        RootIs(c.sib);
        PeekChild(m, sibling, 0);
        balance := sibling.tag;
        ghost var s := Mk(dir, t, parent, c.tag, c.sib);
        Underweight(m, head.root, c, t, target);
        ghost var n, r;
        node, n, r := RotateAt(parent, leftDir, grandparent, head, m, c.up, s);
        m := n;
        if balance == 0 {
          FinishRotated(m, head.root, c.up, s, r, target, RotatedHeight(s, leftDir));
          t1 := Zip(c.up, r);
          break;
        }
        RotatedOn(m, head.root, c.up, s, r, target, RotatedHeight(s, leftDir));
        c, t := c.up, r;
      } else {
        ghost var n := SetTag(parent, 0, m);
        ShrinkUp(m, n, head.root, c, t, target);
        m := n;
        c, t := c.up, Mk(dir, t, parent, 0, c.sib);
        node := parent;
      }
      FocusParts(m, head.root, c, t);
      OwnerIn(m, head.root, c, Root(t));
      RootIs(t);
      OwnerIs(c);
      if grandparent == null {
        t1 := t;
        ShrunkWhole(m, head.root, c, t, target);
        break;
      }
      parent := grandparent;
      FocusFacts(m, head.root, c, t);
      dir := DirOfChild(node, parent, m, c);
    }
  }
}
