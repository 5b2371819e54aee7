/** From a node with two children down to its neighbour in order, which takes its place. */
module BinaryDescent {
  import opened BinaryTree
  import opened BinarySplice
  import opened BinaryUnlink

  lemma SideRoots(m: Mem, root: Node?, c: Ctx, t: Tree)
    requires Focus(m, root, c, t) && t.Fork?
    ensures t.node in m && m[t.node].Child(0) == Root(t.left) && m[t.node].Child(1) == Root(t.right)
    ensures m[t.node].parent == Owner(c) && m[t.node].tag == t.tag
    ensures Root(t.left) == null <==> t.left == Leaf
    ensures Root(t.right) == null <==> t.right == Leaf
    ensures t.left.Fork? ==> t.left.node in m
    ensures t.right.Fork? ==> t.right.node in m
  {
    LinkedMemory(m, t.left, t.node);
    LinkedMemory(m, t.right, t.node);
  }

  /** The place of a node, seen from its child in direction d. */
  ghost function PlaceOf(c: Ctx, t: Tree, d: nat): Place
    requires t.Fork? && d <= 1
  {
    Place(t.node, t.tag, d, Side(t, 1 - d), c)
  }

  lemma WithoutSides(c: Ctx, t: Tree, d: nat)
    requires t.Fork? && d <= 1
    ensures NodesWithout(c, t) == Pre(c) + WithoutMiddle(d, InOrder(Side(t, d)), InOrder(Side(t, 1 - d))) + Post(c)
  {
  }

  lemma NearFoot(m: Mem, root: Node?, c: Ctx, t: Tree, d: nat)
    requires Focus(m, root, c, t) && t.Fork? && d <= 1 && Side(t, d).Fork? && Side(Side(t, d), 1 - d) == Leaf
    ensures var s := Side(t, d);
      FootC(Taken(PlaceOf(c, t, d), s.node)) + Foot(Side(s, d)) == FootC(c) + Foot(t) - {t.node}
  {
    MkSides(t, d);
    MkSides(Side(t, d), d);
    var s := Side(t, d);
    MkParts(d, s, t.node, t.tag, Side(t, 1 - d));
    MkParts(d, Side(s, d), s.node, s.tag, Leaf);
    hide Mk, Apart;
  }

  lemma PlaceFocus(m: Mem, root: Node?, c: Ctx, t: Tree, d: nat)
    requires Focus(m, root, c, t) && t.Fork? && d <= 1
    ensures Focus(m, root, At(PlaceOf(c, t, d)), Side(t, d))
  {
    FocusDown(m, root, c, t, d);
  }

  lemma TakenStep(p: Place, n: Node)
    ensures var c := Taken(p, n); c.Step? && c.node == n && c.dir == p.d
  {
  }

  /** The walk down inner children, below child s of the node. */
  ghost predicate OnTheWay(c: Ctx, t: Tree, d: nat, cc: Ctx, tt: Tree)
    requires t.Fork? && d <= 1 && Side(t, d).Fork?
  {
    tt.Fork? && Zip(cc, tt) == Zip(c, t) && CtxOk(cc) &&
    ((cc == At(PlaceOf(c, t, d)) && tt == Side(t, d)) || Over(cc, FirstOf(c, t, d), 1 - d)) &&
    Pre(cc) + InOrder(tt) + Post(cc) == Pre(At(PlaceOf(c, t, d))) + InOrder(Side(t, d)) + Post(At(PlaceOf(c, t, d)))
  }

  ghost function FirstOf(c: Ctx, t: Tree, d: nat): Ctx
    requires t.Fork? && d <= 1 && Side(t, d).Fork?
  {
    var s := Side(t, d);
    Step(s.node, s.tag, 1 - d, Side(s, d), At(PlaceOf(c, t, d)))
  }

  lemma DownZip(c: Ctx, t: Tree, d: nat)
    requires t.Fork? && d <= 1 && CtxOk(c)
    ensures var e := Step(t.node, t.tag, d, Side(t, 1 - d), c); Zip(e, Side(t, d)) == Zip(c, t) && CtxOk(e)
  {
    MkSides(t, d);
  }

  lemma {:induction false} LinkedOk(m: Mem, root: Node?, c: Ctx, hole: Node?)
    requires LinkedC(m, root, c, hole)
    ensures CtxOk(c)
  {
    if c.Step? {
      LinkedOk(m, root, c.up, c.node);
    }
  }

  lemma FocusOk(m: Mem, root: Node?, c: Ctx, t: Tree)
    requires Focus(m, root, c, t)
    ensures CtxOk(c)
  {
    LinkedOk(m, root, c, Root(t));
  }

  ghost function Deeper(cc: Ctx, tt: Tree, e: nat): Ctx
    requires tt.Fork? && e <= 1
  {
    Step(tt.node, tt.tag, e, Side(tt, 1 - e), cc)
  }

  lemma WayStart(m: Mem, root: Node?, c: Ctx, t: Tree, d: nat)
    requires Focus(m, root, c, t) && CtxOk(c) && t.Fork? && d <= 1 && Side(t, d).Fork?
    ensures OnTheWay(c, t, d, At(PlaceOf(c, t, d)), Side(t, d)) && Focus(m, root, At(PlaceOf(c, t, d)), Side(t, d))
    ensures FootC(At(PlaceOf(c, t, d))) + Foot(Side(t, d)) == FootC(c) + Foot(t)
  {
    DownZip(c, t, d);
    FocusDown(m, root, c, t, d);
    hide Focus, Zip, Pre, Post, InOrder;
  }

  lemma WayOn(m: Mem, root: Node?, c: Ctx, t: Tree, d: nat, cc: Ctx, tt: Tree)
    requires t.Fork? && d <= 1 && Side(t, d).Fork? && OnTheWay(c, t, d, cc, tt) && Focus(m, root, cc, tt)
    requires Side(tt, 1 - d).Fork?
    ensures OnTheWay(c, t, d, Deeper(cc, tt, 1 - d), Side(tt, 1 - d)) && Focus(m, root, Deeper(cc, tt, 1 - d), Side(tt, 1 - d))
    ensures FootC(Deeper(cc, tt, 1 - d)) + Foot(Side(tt, 1 - d)) == FootC(cc) + Foot(tt)
    ensures Deeper(cc, tt, 1 - d).node == tt.node && Side(tt, 1 - d) < tt
    ensures Over(Deeper(cc, tt, 1 - d), FirstOf(c, t, d), 1 - d)
  {
    DownZip(cc, tt, 1 - d);
    FocusDown(m, root, cc, tt, 1 - d);
    hide Focus, Zip, Pre, Post, InOrder;
  }

  lemma InnerChild(m: Mem, root: Node?, cc: Ctx, tt: Tree, e: nat)
    requires Focus(m, root, cc, tt) && tt.Fork? && e <= 1
    ensures tt.node in m && m[tt.node].Child(e) == Root(Side(tt, e))
    ensures Root(Side(tt, e)) == null <==> Side(tt, e) == Leaf
    ensures Side(tt, e).Fork? ==> Side(tt, e).node in m && Side(tt, e).node == Root(Side(tt, e))
  {
    LinkedMemory(m, Side(tt, e), tt.node);
  }

  ghost function FarOf(c: Ctx, t: Tree, d: nat, cc: Ctx, tt: Tree): Far
    requires t.Fork? && d <= 1 && Side(t, d).Fork? && tt.Fork?
  {
    var s := Side(t, d);
    Far(PlaceOf(c, t, d), s.node, s.tag, Side(s, d), cc, tt.node, tt.tag, Side(tt, d))
  }

  lemma WayEnd(m: Mem, root: Node?, c: Ctx, t: Tree, d: nat, cc: Ctx, tt: Tree)
    requires t.Fork? && d <= 1 && Side(t, d).Fork? && Side(t, 1 - d).Fork? && OnTheWay(c, t, d, cc, tt) && Focus(m, root, cc, tt)
    requires Over(cc, FirstOf(c, t, d), 1 - d) && Side(tt, 1 - d) == Leaf
    ensures var f := FarOf(c, t, d, cc, tt);
      FarOk(m, root, f) && First(f) == FirstOf(c, t, d) && Neighbour(f) == tt && Over(f.c, First(f), E(f)) && f.p.o.Fork?
  {
    MkSides(tt, 1 - d);
  }

  /** The state of the walk: what is in hand, and that everything is still there. */
  ghost predicate Walking(m: Mem, root: Node?, c: Ctx, t: Tree, d: nat, cc: Ctx, tt: Tree) {
    t.Fork? && d <= 1 && Side(t, d).Fork? && tt.Fork? && cc.Step? && OnTheWay(c, t, d, cc, tt) && Focus(m, root, cc, tt) &&
    FootC(cc) + Foot(tt) == FootC(c) + Foot(t) && (tt == Side(t, d) || Over(cc, FirstOf(c, t, d), 1 - d))
  }

  lemma WalkStart(m: Mem, root: Node?, c: Ctx, t: Tree, d: nat)
    requires Focus(m, root, c, t) && CtxOk(c) && t.Fork? && d <= 1 && Side(t, d).Fork?
    ensures Walking(m, root, c, t, d, At(PlaceOf(c, t, d)), Side(t, d))
  {
    WayStart(m, root, c, t, d);
    AtNode(c, t, d);
    hide OnTheWay, Focus, FootC, Foot;
  }

  lemma WalkOn(m: Mem, root: Node?, c: Ctx, t: Tree, d: nat, cc: Ctx, tt: Tree)
    requires Walking(m, root, c, t, d, cc, tt) && d <= 1 && tt.Fork? && Side(tt, 1 - d).Fork?
    ensures Walking(m, root, c, t, d, Deeper(cc, tt, 1 - d), Side(tt, 1 - d))
    ensures Deeper(cc, tt, 1 - d).Step? && Deeper(cc, tt, 1 - d).node == tt.node && Side(tt, 1 - d) < tt
  {
    WayOn(m, root, c, t, d, cc, tt);
    hide OnTheWay, Focus, FootC, Foot, Over;
  }

  lemma WalkNode(m: Mem, root: Node?, c: Ctx, t: Tree, d: nat, cc: Ctx, tt: Tree)
    requires Walking(m, root, c, t, d, cc, tt) && d <= 1
    ensures tt.Fork? && cc.Step? && tt.node in m && m[tt.node].Child(1 - d) == Root(Side(tt, 1 - d))
    ensures Root(Side(tt, 1 - d)) == null <==> Side(tt, 1 - d) == Leaf
    ensures Side(tt, 1 - d).Fork? ==> Side(tt, 1 - d).node == Root(Side(tt, 1 - d))
  {
    InnerChild(m, root, cc, tt, 1 - d);
  }

  lemma WalkEnd(m: Mem, root: Node?, c: Ctx, t: Tree, d: nat, cc: Ctx, tt: Tree)
    requires Walking(m, root, c, t, d, cc, tt) && t.Fork? && d <= 1 && Side(t, d).Fork? && Side(Side(t, d), 1 - d).Fork?
    requires Side(tt, 1 - d) == Leaf
    ensures OnTheWay(c, t, d, cc, tt) && Focus(m, root, cc, tt) && FootC(cc) + Foot(tt) == FootC(c) + Foot(t)
    ensures Over(cc, FirstOf(c, t, d), 1 - d) && cc.Step?
  {
    hide OnTheWay, Focus, FootC, Foot, Over;
  }

  lemma AtNode(c: Ctx, t: Tree, d: nat)
    requires t.Fork? && d <= 1
    ensures At(PlaceOf(c, t, d)).Step? && At(PlaceOf(c, t, d)).node == t.node
  {
  }

  lemma SidesAre(t: Tree)
    requires t.Fork?
    ensures Side(t, 0) == t.left && Side(t, 1) == t.right
  {
  }

  /** Goes down inner children to the last one. */
  method Descend(node: Node, child0: Node, dir: nat, ghost m: Mem, ghost root: Node?, ghost c: Ctx, ghost t: Tree, ghost d: nat)
    returns (child: Node, parent: Node, ghost cc: Ctx, ghost tt: Tree)
    requires Mirrors(m) && Focus(m, root, c, t) && CtxOk(c) && t.Fork? && t.node == node && d <= 1 && dir == 1 - d
    requires Side(t, d).Fork? && child0 == Side(t, d).node && Side(Side(t, d), dir).Fork?
    ensures Walking(m, root, c, t, d, cc, tt) && tt.Fork? && cc.Step? && child == tt.node && parent == cc.node
    ensures Side(tt, dir) == Leaf
  {
    hide *;
    cc, tt := At(PlaceOf(c, t, d)), Side(t, d);
    WalkStart(m, root, c, t, d);
    parent, child := node, child0;
    AtNode(c, t, d);
    WalkNode(m, root, c, t, d, cc, tt);
    PeekChild(m, child, dir);
    while child.Child(dir) != null
      invariant Mirrors(m) && Walking(m, root, c, t, d, cc, tt) && tt.Fork? && cc.Step?
      invariant child == tt.node && parent == cc.node && child.Child(dir) == Root(Side(tt, dir))
      decreases tt
    {
      WalkNode(m, root, c, t, d, cc, tt);
      WalkOn(m, root, c, t, d, cc, tt);
      parent := child;
      child := child.Child(dir);
      cc, tt := Deeper(cc, tt, dir), Side(tt, dir);
      WalkNode(m, root, c, t, d, cc, tt);
      PeekChild(m, child, dir);
    }
    WalkNode(m, root, c, t, d, cc, tt);
  }

  /** The neighbour takes the place of node; what it leaves behind is in focus then. */
  method TakeNeighbour(head: Head, node: Node, child: Node, parent: Node, dir: nat, ghost m: Mem, ghost c: Ctx, ghost t: Tree,
                       ghost d: nat, ghost cc: Ctx, ghost tt: Tree)
    returns (ghost m1: Mem)
    requires Mirrors(m) && t.Fork? && t.node == node && d <= 1 && dir == 1 - d && Side(t, d).Fork? && Side(t, 1 - d).Fork?
    requires Side(Side(t, d), dir).Fork? && Walking(m, head.root, c, t, d, cc, tt) && tt.Fork? && Side(tt, dir) == Leaf && child == tt.node
    requires cc.Step? && parent == cc.node
    modifies head, m.Keys
    ensures Mirrors(m1) && m1.Keys == m.Keys
    ensures var f := FarOf(c, t, d, cc, tt);
      f.p.d == d && Over(cc, FirstOf(c, t, d), dir) && OnTheWay(c, t, d, cc, tt) && Over(f.c, First(f), E(f)) &&
      Focus(m1, head.root, NewPath(f), f.r) && FootC(NewPath(f)) + Foot(f.r) == FootC(c) + Foot(t) - {node} &&
      NewPath(f).Step? && NewPath(f).node == parent && NewPath(f).dir == dir
  {
    ghost var f, root := FarOf(c, t, d, cc, tt), head.root;
    assert f.p.d == d && f.p.node == node && f.child == child && f.c == cc && f.p.o.Fork?;
    hide *;
    WalkEnd(m, root, c, t, d, cc, tt);
    WayEnd(m, root, c, t, d, cc, tt);
    NewPathApart(m, root, f);
    m1 := TakeFar(head, node, child, parent, dir, m, f);
    SpliceFar(m, m1, root, head.root, f);
    NewPathEnd(f);
  }
}
