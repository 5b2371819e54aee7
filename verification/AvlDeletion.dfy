/** The AVL tree: insertion and removal of nodes. */
module AvlDeletion {
  import opened BinaryTree
  import opened BinarySplice
  import opened AvlRotate
  import opened AvlInsert
  import opened AvlRemove
  import opened BinaryUnlink
  import opened BinaryDescent

  // ---------------------------------------------------------------- removal

  /** A balanced tree with a balanced way up. */
  ghost predicate Balanced(c: Ctx, t: Tree) {
    Avl(t) && AvlC(c, Height(t))
  }

  lemma OneChild(c: Ctx, t: Tree, ct: Tree, side: nat)
    requires Balanced(c, t) && t.Fork? && side <= 1 && ct == Side(t, side) && Side(t, 1 - side) == Leaf
    ensures t == Mk(side, ct, t.node, t.tag, Leaf) && Shrinking(c, ct, NodesWithout(c, t))
    ensures c == Top ==> AvlC(c, Height(ct)) && Avl(ct)
  {
    MkSides(t, side);
    HeightSides(t, side);
    assert InOrder(Leaf) == [];
    hide AvlC, Height, Avl, Pre, Post;
    assert InOrder(ct) + [] == InOrder(ct) && [] + InOrder(ct) == InOrder(ct);
  }

  /** A node with at most one child is taken out. */
  method RemoveSimple(head: Head, node: Node, child: Node?, ghost m: Mem, ghost c: Ctx, ghost t: Tree, ghost side: nat)
    returns (ghost m1: Mem, ghost t1: Tree)
    requires Mirrors(m) && Focus(m, head.root, c, t) && Balanced(c, t) && t.Fork? && t.node == node && node in m
    requires side <= 1 && child == Root(Side(t, side)) && Side(t, 1 - side) == Leaf
    modifies head, m.Keys
    ensures Mirrors(m1) && m1.Keys == m.Keys
    ensures Rebalanced(m1, head.root, t1, NodesWithout(c, t), FootC(c) + Foot(t) - {node})
  {
    ghost var ct := Side(t, side);
    SideRoots(m, head.root, c, t);
    hide *;
    OneChild(c, t, ct, side);
    PeekChild(m, node, 0);
    var parent := node.parent;
    OwnerIs(c);
    var dir;
    ghost var n;
    dir, n := Bypass(head, node, child, parent, m, c, t, ct, side);
    if parent == null {
      m1, t1 := n, ct;
      ShrunkTop(m1, head.root, c, ct, NodesWithout(c, t));
    } else {
      m1, t1 := RebalanceRemove(head, parent, dir, n, c, ct, NodesWithout(c, t));
    }
  }

  lemma ShrunkTop(m: Mem, root: Node?, c: Ctx, t: Tree, target: seq<Node>)
    requires Focus(m, root, c, t) && Shrinking(c, t, target) && Owner(c) == null
    ensures Rebalanced(m, root, t, target, FootC(c) + Foot(t))
  {
    ShrunkWhole(m, root, c, t, target);
  }

  // ---------------------------------------------------------------- a node with two children

  lemma DownBalanced(c: Ctx, t: Tree, d: nat)
    requires Balanced(c, t) && t.Fork? && d <= 1
    ensures Balanced(Step(t.node, t.tag, d, Side(t, 1 - d), c), Side(t, d))
  {
    HeightSides(t, d);
  }

  /** What is left of the child's subtree is one level lower. */
  lemma NearShrinks(c: Ctx, t: Tree, d: nat)
    requires Balanced(c, t) && t.Fork? && d <= 1 && Side(t, d).Fork? && Side(Side(t, d), 1 - d) == Leaf
    ensures var s, p := Side(t, d), PlaceOf(c, t, d);
      s == Mk(d, Side(s, d), s.node, s.tag, Leaf) && Shrinking(Taken(p, s.node), Side(s, d), NodesWithout(c, t))
  {
    var s, p := Side(t, d), PlaceOf(c, t, d);
    MkSides(s, d);
    DownBalanced(c, t, d);
    HeightSides(s, d);
    WithoutSides(c, t, d);
    NearOrder(p, s.node, s.tag, Side(s, d));
    hide InOrder, Pre, Post, WithoutMiddle, Mk, NodesWithout;
  }

  /** The child of the node has no inner child. */
  method RemoveNear(head: Head, node: Node, child: Node, dir: nat, ghost m: Mem, ghost c: Ctx, ghost t: Tree)
    returns (ghost m1: Mem, ghost t1: Tree)
    requires Mirrors(m) && Focus(m, head.root, c, t) && Balanced(c, t) && t.Fork? && t.node == node && dir <= 1
    requires Side(t, dir).Fork? && Side(t, 1 - dir).Fork? && child == Side(t, dir).node && Side(Side(t, dir), 1 - dir) == Leaf
    modifies head, m.Keys
    ensures Mirrors(m1) && m1.Keys == m.Keys
    ensures Rebalanced(m1, head.root, t1, NodesWithout(c, t), FootC(c) + Foot(t) - {node})
  {
    ghost var p, s := PlaceOf(c, t, dir), Side(t, dir);
    ghost var r := Side(s, dir);
    PlaceFocus(m, head.root, c, t, dir);
    NearShrinks(c, t, dir);
    NearFoot(m, head.root, c, t, dir);
    hide *;
    ghost var n := TakeNear(head, node, child, dir, m, p, s.tag, r);
    TakenStep(p, child);
    m1, t1 := RebalanceRemove(head, child, dir, n, Taken(p, child), r, NodesWithout(c, t));
  }

  lemma {:induction false} RebaseAvl(c: Ctx, base: Ctx, base1: Ctx, e: nat, h: nat)
    requires Over(c, base, e) && base.Step? && base1.Step? && base1.tag == base.tag && base1.dir == base.dir && base1.sib == base.sib
    requires forall k :: AvlC(base.up, k) <==> AvlC(base1.up, k)
    ensures AvlC(Rebase(c, base, base1, e), h) <==> AvlC(c, h)
  {
    if c != base {
      RebaseAvl(c.up, base, base1, e, 1 + Max(h, Height(c.sib)));
    }
  }

  lemma StillBalanced(c: Ctx, t: Tree, cc: Ctx, tt: Tree)
    requires Balanced(c, t) && Zip(cc, tt) == Zip(c, t)
    ensures Balanced(cc, tt)
  {
    ZipAvl(c, t);
    ZipAvl(cc, tt);
  }

  lemma FarShrinks(c: Ctx, t: Tree, d: nat, cc: Ctx, tt: Tree)
    requires t.Fork? && d <= 1 && Side(t, d).Fork? && Balanced(c, t) && OnTheWay(c, t, d, cc, tt)
    requires Over(cc, FirstOf(c, t, d), 1 - d) && Side(tt, 1 - d) == Leaf
    ensures var f := FarOf(c, t, d, cc, tt);
      Over(f.c, First(f), E(f)) && Shrinking(NewPath(f), f.r, NodesWithout(c, t))
  {
    var f := FarOf(c, t, d, cc, tt);
    StillBalanced(c, t, cc, tt);
    MkSides(tt, 1 - d);
    HeightSides(tt, d);
    TakenBalance(f);
    WithoutSides(c, t, d);
    hide InOrder, Pre, Post, WithoutMiddle, Mk, NodesWithout, Rebase, Over, Avl, AvlC;
    FarOrder(f, InOrder(Side(t, d)));
  }

  lemma TakenBalance(f: Far)
    requires f.p.d <= 1 && Over(f.c, First(f), E(f))
    ensures forall h :: AvlC(NewPath(f), h) <==> AvlC(f.c, h)
  {
    forall h ensures AvlC(NewPath(f), h) <==> AvlC(f.c, h) {
      RebaseAvl(f.c, First(f), FirstTaken(f), E(f), h);
    }
  }

  /** The neighbour in order is farther down. */
  method RemoveFar(head: Head, node: Node, child0: Node, dir: nat, ghost m: Mem, ghost c: Ctx, ghost t: Tree, ghost d: nat)
    returns (ghost m1: Mem, ghost t1: Tree)
    requires Mirrors(m) && Focus(m, head.root, c, t) && Balanced(c, t) && t.Fork? && t.node == node && d <= 1 && dir == 1 - d
    requires Side(t, d).Fork? && Side(t, 1 - d).Fork? && child0 == Side(t, d).node && Side(Side(t, d), 1 - d).Fork?
    modifies head, m.Keys
    ensures Mirrors(m1) && m1.Keys == m.Keys
    ensures Rebalanced(m1, head.root, t1, NodesWithout(c, t), FootC(c) + Foot(t) - {node})
  {
    hide *;
    FocusOk(m, head.root, c, t);
    ghost var cc, tt;
    var child, parent;
    child, parent, cc, tt := Descend(node, child0, dir, m, head.root, c, t, d);
    ghost var n := TakeNeighbour(head, node, child, parent, dir, m, c, t, d, cc, tt);
    ghost var f := FarOf(c, t, d, cc, tt);
    FarShrinks(c, t, d, cc, tt);
    m1, t1 := RebalanceRemove(head, parent, dir, n, NewPath(f), f.r, NodesWithout(c, t));
  }

  lemma Directions(c: Ctx, t: Tree)
    requires Balanced(c, t) && t.Fork?
    ensures -1 <= t.tag <= 1 && (t.tag != 0 ==> B2D(t.tag) <= 1)
  {
  }

  /** Removes a node from the tree; everything else stays, in the same order. */
  method RemoveNode(head: Head, node: Node, ghost m: Mem, ghost c: Ctx, ghost t: Tree) returns (ghost m1: Mem, ghost t1: Tree)
    requires Mirrors(m) && Focus(m, head.root, c, t) && Balanced(c, t) && t.Fork? && t.node == node
    modifies head, m.Keys
    ensures Mirrors(m1) && m1.Keys == m.Keys
    ensures Rebalanced(m1, head.root, t1, NodesWithout(c, t), FootC(c) + Foot(t) - {node})
  {
    hide *;
    SideRoots(m, head.root, c, t);
    SidesAre(t);
    PeekChild(m, node, 0);
    PeekChild(m, node, 1);
    if node.Child(0) == null {
      m1, t1 := RemoveSimple(head, node, node.Child(1), m, c, t, 1);
    } else if node.Child(1) == null {
      m1, t1 := RemoveSimple(head, node, node.Child(0), m, c, t, 0);
    } else {
      m1, t1 := RemoveInner(head, node, m, c, t);
    }
  }

  /** The neighbour on the higher side takes the place of a node with two children. */
  method RemoveInner(head: Head, node: Node, ghost m: Mem, ghost c: Ctx, ghost t: Tree) returns (ghost m1: Mem, ghost t1: Tree)
    requires Mirrors(m) && Focus(m, head.root, c, t) && Balanced(c, t) && t.Fork? && t.node == node
    requires Side(t, 0).Fork? && Side(t, 1).Fork?
    modifies head, m.Keys
    ensures Mirrors(m1) && m1.Keys == m.Keys
    ensures Rebalanced(m1, head.root, t1, NodesWithout(c, t), FootC(c) + Foot(t) - {node})
  {
    hide *;
    SideRoots(m, head.root, c, t);
    Directions(c, t);
    PeekChild(m, node, 0);
    var balance := node.tag;
    var dir := if balance == 0 then 1 else B2D(balance);
    PeekChild(m, node, dir);
    InnerChild(m, head.root, c, t, dir);
    var child := node.Child(dir);
    PlaceFocus(m, head.root, c, t, dir);
    InnerChild(m, head.root, At(PlaceOf(c, t, dir)), Side(t, dir), 1 - dir);
    PeekChild(m, child, 1 - dir);
    if child.Child(1 - dir) != null {
      m1, t1 := RemoveFar(head, node, child, 1 - dir, m, c, t, dir);
    } else {
      m1, t1 := RemoveNear(head, node, child, dir, m, c, t);
    }
  }
}
