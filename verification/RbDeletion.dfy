/** The red-black tree: removal of a node. */
module RbDeletion {
  import opened BinaryTree
  import opened BinarySplice
  import opened BinaryUnlink
  import opened BinaryDescent
  import opened RbRules
  import opened RbRemove

  /** A subtree and the way up from it that keep the rules. */
  ghost predicate Sound(c: Ctx, t: Tree) {
    Rb(t) && RbC(c, BlackHeight(t)) && (Red(t) ==> RedFits(c))
  }

  /** A node of colour g with only the child r has been taken out, and r is in its place. */
  ghost predicate Gap(c: Ctx, r: Tree, g: int, target: seq<Node>) {
    (g == RED || g == BLACK) && Rb(r) && BlackHeight(r) == 0 && (g == RED ==> !Red(r)) && RbC(c, g) &&
    Pre(c) + InOrder(r) + Post(c) == target
  }

  /** An only child is red, and its parent black. */
  lemma GapChild(c: Ctx, r: Tree, g: int, target: seq<Node>)
    requires Gap(c, r, g, target) && r.Fork?
    ensures g == BLACK && Rb(r.(tag := BLACK)) && BlackHeight(r.(tag := BLACK)) == 1 && RbC(c, 1) && !Red(r.(tag := BLACK))
    ensures Pre(c) + InOrder(r.(tag := BLACK)) + Post(c) == target
  {
    BlackHeightPositive(r.left);
  }

  lemma GapChildDone(m: Mem, m1: Mem, root: Node?, c: Ctx, r: Tree, g: int, target: seq<Node>)
    requires Focus(m, root, c, r) && Gap(c, r, g, target) && r.Fork? && r.node in m && m1 == m[r.node := m[r.node].(tag := BLACK)]
    ensures Repaired(m1, root, Zip(c, r.(tag := BLACK)), target, FootC(c) + Foot(r)) && m1.Keys == m.Keys
  {
    hide *;
    GapChild(c, r, g, target);
    Recolored(m, m1, root, c, r, BLACK);
    ZipGood(m1, root, c, r.(tag := BLACK), target);
  }

  lemma GapRed(m: Mem, root: Node?, c: Ctx, r: Tree, g: int, target: seq<Node>)
    requires Focus(m, root, c, r) && Gap(c, r, g, target) && r == Leaf && (g != BLACK || c == Top)
    ensures Repaired(m, root, Zip(c, r), target, FootC(c) + Foot(r))
  {
    ZipGood(m, root, c, r, target);
  }

  lemma GapShort(c: Ctx, r: Tree, g: int, target: seq<Node>)
    requires Gap(c, r, g, target) && r == Leaf && g == BLACK && c.Step?
    ensures Short(c, Leaf, target)
  {
  }

  lemma GapColors(c: Ctx, r: Tree, g: int, target: seq<Node>)
    requires Gap(c, r, g, target)
    ensures g == RED || g == BLACK
    ensures r.Fork? ==> g == BLACK
  {
    if r.Fork? {
      GapChild(c, r, g, target);
    }
  }

  /** Closes the gap: an only child gets black; without one, a missing black node is made up for. */
  method CloseGap(head: Head, parent: Node?, child: Node?, g: int, ghost m: Mem, ghost c: Ctx, ghost r: Tree, ghost target: seq<Node>)
    returns (ghost m1: Mem, ghost t1: Tree)
    requires Mirrors(m) && Focus(m, head.root, c, r) && Gap(c, r, g, target) && parent == Owner(c) && child == Root(r)
    requires child != null ==> child in m
    modifies head, m.Keys
    ensures Mirrors(m1) && m1.Keys == m.Keys && Repaired(m1, head.root, t1, target, FootC(c) + Foot(r))
  {
    hide *;
    RootIs(r);
    FocusOwner(m, head.root, c, r);
    if child != null {
      GapColors(c, r, g, target);
      m1 := SetTag(child, g, m);
      GapChildDone(m, m1, head.root, c, r, g, target);
      t1 := Zip(c, r.(tag := BLACK));
      return;
    }
    var rebalance := if g == BLACK then parent else null;
    if rebalance != null {
      GapShort(c, r, g, target);
      m1, t1 := RepairRemove(head, rebalance, m, c, target);
    } else {
      GapRed(m, head.root, c, r, g, target);
      m1, t1 := m, Zip(c, r);
    }
  }

  lemma FocusOwner(m: Mem, root: Node?, c: Ctx, t: Tree)
    requires Focus(m, root, c, t)
    ensures c == Top <==> Owner(c) == null
    ensures c.Step? ==> Owner(c) == c.node
    ensures t.Fork? ==> t.node in m && Root(t) == t.node
  {
    OwnerIn(m, root, c, Root(t));
    LinkedMemory(m, t, Owner(c));
  }

  // ---------------------------------------------------------------- at most one child

  lemma OneChildGap(c: Ctx, t: Tree, ct: Tree, side: nat)
    requires Sound(c, t) && t.Fork? && side <= 1 && ct == Side(t, side) && Side(t, 1 - side) == Leaf
    ensures t == Mk(side, ct, t.node, t.tag, Leaf) && Gap(c, ct, t.tag, NodesWithout(c, t))
  {
    MkSides(t, side);
    RbMk(side, ct, t.node, t.tag, Leaf);
    LeafParts();
    assert InOrder(ct) + [] == InOrder(ct) && [] + InOrder(ct) == InOrder(ct);
    hide Rb, RbC, Mk, Pre, Post;
  }

  lemma LeafParts()
    ensures InOrder(Leaf) == [] && BlackHeight(Leaf) == 0 && Rb(Leaf) && !Red(Leaf)
  {
  }

  /** A node with at most one child is taken out. */
  method RemoveSimple(head: Head, node: Node, child: Node?, ghost m: Mem, ghost c: Ctx, ghost t: Tree, ghost side: nat)
    returns (ghost m1: Mem, ghost t1: Tree)
    requires Mirrors(m) && Focus(m, head.root, c, t) && Sound(c, t) && t.Fork? && t.node == node && node in m
    requires side <= 1 && child == Root(Side(t, side)) && Side(t, 1 - side) == Leaf
    modifies head, m.Keys
    ensures Mirrors(m1) && m1.Keys == m.Keys
    ensures Repaired(m1, head.root, t1, NodesWithout(c, t), FootC(c) + Foot(t) - {node})
  {
    ghost var ct := Side(t, side);
    SideRoots(m, head.root, c, t);
    hide *;
    OneChildGap(c, t, ct, side);
    PeekChild(m, node, 0);
    var parent, g := node.parent, node.tag;
    OwnerIs(c);
    ghost var n;
    var dir;
    dir, n := Bypass(head, node, child, parent, m, c, t, ct, side);
    FocusOwner(n, head.root, c, ct);
    RootIs(ct);
    m1, t1 := CloseGap(head, parent, child, g, n, c, ct, NodesWithout(c, t));
  }

  // ---------------------------------------------------------------- two children

  lemma DownSound(c: Ctx, t: Tree, d: nat)
    requires Sound(c, t) && t.Fork? && d <= 1
    ensures Sound(Step(t.node, t.tag, d, Side(t, 1 - d), c), Side(t, d))
  {
    MkSides(t, d);
    RbMk(d, Side(t, d), t.node, t.tag, Side(t, 1 - d));
  }

  /** A subtree without inner child, whose root leaves for the place of a node further up. */
  lemma LeavingGap(c: Ctx, c1: Ctx, t: Tree, d: nat, target: seq<Node>)
    requires Sound(c, t) && t.Fork? && d <= 1 && Side(t, 1 - d) == Leaf
    requires forall h :: RbC(c1, h) <==> RbC(c, h)
    requires Pre(c1) + InOrder(Side(t, d)) + Post(c1) == target
    ensures Gap(c1, Side(t, d), t.tag, target)
  {
    MkSides(t, d);
    RbMk(d, Side(t, d), t.node, t.tag, Leaf);
    LeafParts();
    hide Rb, RbC, Mk, Pre, Post, InOrder;
  }

  lemma TakenSound(p: Place, n: Node, h: int)
    ensures RbC(Taken(p, n), h) <==> RbC(At(p), h)
  {
  }

  lemma NearGap(c: Ctx, t: Tree, d: nat)
    requires Sound(c, t) && t.Fork? && d <= 1 && Side(t, d).Fork? && Side(Side(t, d), 1 - d) == Leaf
    ensures var s, p := Side(t, d), PlaceOf(c, t, d);
      s == Mk(d, Side(s, d), s.node, s.tag, Leaf) && Gap(Taken(p, s.node), Side(s, d), s.tag, NodesWithout(c, t))
  {
    var s, p := Side(t, d), PlaceOf(c, t, d);
    MkSides(s, d);
    DownSound(c, t, d);
    WithoutSides(c, t, d);
    NearOrder(p, s.node, s.tag, Side(s, d));
    forall h ensures RbC(Taken(p, s.node), h) <==> RbC(At(p), h) {
      TakenSound(p, s.node, h);
    }
    hide InOrder, Pre, Post, WithoutMiddle, Mk, NodesWithout, Rb, RbC, Taken, Gap;
    LeavingGap(At(p), Taken(p, s.node), s, d, NodesWithout(c, t));
  }

  /** The right child has no left child: it is the successor. */
  method RemoveNear(head: Head, node: Node, child: Node, ghost m: Mem, ghost c: Ctx, ghost t: Tree)
    returns (ghost m1: Mem, ghost t1: Tree)
    requires Mirrors(m) && Focus(m, head.root, c, t) && Sound(c, t) && t.Fork? && t.node == node
    requires Side(t, 1).Fork? && Side(t, 0).Fork? && child == Side(t, 1).node && Side(Side(t, 1), 0) == Leaf
    modifies head, m.Keys
    ensures Mirrors(m1) && m1.Keys == m.Keys
    ensures Repaired(m1, head.root, t1, NodesWithout(c, t), FootC(c) + Foot(t) - {node})
  {
    ghost var p, s := PlaceOf(c, t, 1), Side(t, 1);
    ghost var r := Side(s, 1);
    PlaceFocus(m, head.root, c, t, 1);
    NearGap(c, t, 1);
    NearFoot(m, head.root, c, t, 1);
    hide *;
    NodeFields(m, head.root, At(p), s);
    PeekChild(m, child, 1);
    var child2, g := child.Child(1), child.tag;
    ghost var n := TakeNear(head, node, child, 1, m, p, s.tag, r);
    TakenStep(p, child);
    FocusOwner(n, head.root, Taken(p, child), r);
    RootIs(r);
    m1, t1 := CloseGap(head, child, child2, g, n, Taken(p, child), r, NodesWithout(c, t));
  }

  lemma NodeFields(m: Mem, root: Node?, c: Ctx, t: Tree)
    requires Focus(m, root, c, t) && t.Fork?
    ensures t.node in m && m[t.node].tag == t.tag && m[t.node].Child(1) == Root(Side(t, 1))
  {
  }

  lemma {:induction false} RebaseRb(c: Ctx, base: Ctx, base1: Ctx, e: nat, h: int)
    requires Over(c, base, e) && base.Step? && base1.Step? && base1.tag == base.tag && base1.dir == base.dir && base1.sib == base.sib
    requires forall k :: RbC(base.up, k) <==> RbC(base1.up, k)
    requires RedFits(base.up) <==> RedFits(base1.up)
    ensures RbC(Rebase(c, base, base1, e), h) <==> RbC(c, h)
    ensures RedFits(Rebase(c, base, base1, e)) <==> RedFits(c)
  {
    if c != base {
      RebaseRb(c.up, base, base1, e, h + c.tag);
    }
  }

  lemma RebasedRb(f: Far)
    requires f.p.d <= 1 && Over(f.c, First(f), E(f))
    ensures forall h :: RbC(NewPath(f), h) <==> RbC(f.c, h)
  {
    forall k ensures RbC(At(f.p), k) <==> RbC(Taken(f.p, f.child), k) {
      TakenSound(f.p, f.child, k);
    }
    forall h ensures RbC(NewPath(f), h) <==> RbC(f.c, h) {
      RebaseRb(f.c, First(f), FirstTaken(f), E(f), h);
    }
  }

  lemma StillSound(c: Ctx, t: Tree, cc: Ctx, tt: Tree)
    requires Sound(c, t) && Zip(cc, tt) == Zip(c, t)
    ensures Sound(cc, tt)
  {
    ZipRb(c, t);
    ZipRb(cc, tt);
  }

  lemma FarTarget(c: Ctx, t: Tree, d: nat, cc: Ctx, tt: Tree)
    requires t.Fork? && d <= 1 && Side(t, d).Fork? && OnTheWay(c, t, d, cc, tt)
    requires Over(cc, FirstOf(c, t, d), 1 - d) && Side(tt, 1 - d) == Leaf
    ensures var f := FarOf(c, t, d, cc, tt);
      Over(f.c, First(f), E(f)) && f.p.d == d && Pre(NewPath(f)) + InOrder(f.r) + Post(NewPath(f)) == NodesWithout(c, t)
  {
    var f := FarOf(c, t, d, cc, tt);
    MkSides(tt, 1 - d);
    WithoutSides(c, t, d);
    hide InOrder, Pre, Post, WithoutMiddle, Mk, NodesWithout, Rebase, Over;
    FarOrder(f, InOrder(Side(t, d)));
  }

  lemma FarGap(c: Ctx, t: Tree, d: nat, cc: Ctx, tt: Tree)
    requires t.Fork? && d <= 1 && Side(t, d).Fork? && Sound(c, t) && OnTheWay(c, t, d, cc, tt)
    requires Over(cc, FirstOf(c, t, d), 1 - d) && Side(tt, 1 - d) == Leaf
    ensures var f := FarOf(c, t, d, cc, tt);
      Over(f.c, First(f), E(f)) && f.p.d == d && Gap(NewPath(f), f.r, tt.tag, NodesWithout(c, t))
  {
    var f := FarOf(c, t, d, cc, tt);
    FarTarget(c, t, d, cc, tt);
    RebasedRb(f);
    StillSound(c, t, cc, tt);
    assert f.c == cc && f.r == Side(tt, d);
    hide InOrder, Pre, Post, Mk, NodesWithout, Rebase, Over, Rb, RbC, NewPath, Gap;
    LeavingGap(cc, NewPath(f), tt, d, NodesWithout(c, t));
  }

  /** The successor is farther down. */
  method RemoveFar(head: Head, node: Node, child0: Node, ghost m: Mem, ghost c: Ctx, ghost t: Tree)
    returns (ghost m1: Mem, ghost t1: Tree)
    requires Mirrors(m) && Focus(m, head.root, c, t) && Sound(c, t) && t.Fork? && t.node == node
    requires Side(t, 1).Fork? && Side(t, 0).Fork? && child0 == Side(t, 1).node && Side(Side(t, 1), 0).Fork?
    modifies head, m.Keys
    ensures Mirrors(m1) && m1.Keys == m.Keys
    ensures Repaired(m1, head.root, t1, NodesWithout(c, t), FootC(c) + Foot(t) - {node})
  {
    hide *;
    FocusOk(m, head.root, c, t);
    ghost var cc, tt;
    var successor, parent;
    successor, parent, cc, tt := Descend(node, child0, 0, m, head.root, c, t, 1);
    WalkFocus(m, head.root, c, t, 1, cc, tt);
    NodeFields(m, head.root, cc, tt);
    PeekChild(m, successor, 1);
    var child2, g := successor.Child(1), successor.tag;
    ghost var n := TakeNeighbour(head, node, successor, parent, 0, m, c, t, 1, cc, tt);
    ghost var f := FarOf(c, t, 1, cc, tt);
    FarGap(c, t, 1, cc, tt);
    FarIs(c, t, 1, cc, tt);
    FocusOwner(n, head.root, NewPath(f), f.r);
    RootIs(f.r);
    m1, t1 := CloseGap(head, parent, child2, g, n, NewPath(f), f.r, NodesWithout(c, t));
  }

  lemma FarIs(c: Ctx, t: Tree, d: nat, cc: Ctx, tt: Tree)
    requires t.Fork? && d <= 1 && Side(t, d).Fork? && tt.Fork?
    ensures FarOf(c, t, d, cc, tt).r == Side(tt, d) && FarOf(c, t, d, cc, tt).c == cc
  {
  }

  lemma WalkFocus(m: Mem, root: Node?, c: Ctx, t: Tree, d: nat, cc: Ctx, tt: Tree)
    requires Walking(m, root, c, t, d, cc, tt)
    ensures Focus(m, root, cc, tt) && tt.Fork?
  {
  }

  /** Removes a node from the tree; everything else stays, in the same order. */
  method RemoveNode(head: Head, node: Node, ghost m: Mem, ghost c: Ctx, ghost t: Tree) returns (ghost m1: Mem, ghost t1: Tree)
    requires Mirrors(m) && Focus(m, head.root, c, t) && Sound(c, t) && t.Fork? && t.node == node
    modifies head, m.Keys
    ensures Mirrors(m1) && m1.Keys == m.Keys
    ensures Repaired(m1, head.root, t1, NodesWithout(c, t), FootC(c) + Foot(t) - {node})
  {
    hide *;
    SideRoots(m, head.root, c, t);
    SidesAre(t);
    PeekChild(m, node, 0);
    PeekChild(m, node, 1);
    var child, tmp := node.Child(1), node.Child(0);
    if tmp == null {
      m1, t1 := RemoveSimple(head, node, child, m, c, t, 1);
    } else if child == null {
      m1, t1 := RemoveSimple(head, node, tmp, m, c, t, 0);
    } else {
      PlaceFocus(m, head.root, c, t, 1);
      RootIs(Side(t, 1));
      InnerChild(m, head.root, At(PlaceOf(c, t, 1)), Side(t, 1), 0);
      PeekChild(m, child, 0);
      if child.Child(0) == null {
        m1, t1 := RemoveNear(head, node, child, m, c, t);
      } else {
        m1, t1 := RemoveFar(head, node, child, m, c, t);
      }
    }
  }
}
