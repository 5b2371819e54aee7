/** The AVL tree: insertion and removal of nodes with rebalancing on the way up. */
module AvlTree {
  import opened BinaryTree
  import opened BinaryTurn
  import opened AvlRotate
  import opened AvlPointers

  /** A rotation of a tree whose other side is too high by two: the same nodes in order, balanced again. */
  ghost predicate Rotated(m: Mem, m1: Mem, s: Tree, r: Tree, h: nat) {
    m1.Keys == m.Keys && Agree(m, m1, m.Keys - Foot(s)) && Same(s, r) && Avl(r) && Height(r) == h && r.Fork?
  }

  /** The tree that is too high on one side. */
  ghost predicate TooHigh(s: Tree, dir: nat) {
    dir <= 1 && s.Fork? && Avl(Side(s, dir)) && Avl(Side(s, 1 - dir)) &&
    Height(Side(s, 1 - dir)) == Height(Side(s, dir)) + 2
  }

  ghost function RotatedHeight(s: Tree, dir: nat): nat
    requires TooHigh(s, dir)
  {
    Height(Side(s, dir)) + if Side(s, 1 - dir).tag == 0 then 3 else 2
  }

  lemma SingleRotated(m: Mem, m1: Mem, dir: nat, a: Tree, node: Node, tag: int, b: Tree, child: Node, ctag: int, c: Tree, up: Node?)
    requires dir <= 1 && Avl(a) && Avl(Mk(dir, b, child, ctag, c)) && ctag != D2B(dir)
    requires Height(Mk(dir, b, child, ctag, c)) == Height(a) + 2
    requires var s := Mk(dir, a, node, tag, Mk(dir, b, child, ctag, c)); Linked(m, s, up) && Apart(s)
    requires Turned(m, m1, dir, a, node, b, child, c, SingleBalance(ctag, dir), -SingleBalance(ctag, dir))
    ensures var s, r := Mk(dir, a, node, tag, Mk(dir, b, child, ctag, c)), Single(dir, a, node, b, child, ctag, c);
      Rotated(m, m1, s, r, Height(a) + if ctag == 0 then 3 else 2) && Linked(m1, r, node) && r.node == child
  {
    var s, r := Mk(dir, a, node, tag, Mk(dir, b, child, ctag, c)), Single(dir, a, node, b, child, ctag, c);
    hide *;
    SingleTop(dir, a, node, b, child, ctag, c);
    TurnedOutside(m, m1, dir, a, node, tag, b, child, ctag, c, SingleBalance(ctag, dir), -SingleBalance(ctag, dir));
    TurnLinked(m, m1, dir, a, node, tag, b, child, ctag, c, up, SingleBalance(ctag, dir), -SingleBalance(ctag, dir));
    SingleAvl(dir, a, node, b, child, ctag, c);
    SingleSame(dir, a, node, tag, b, child, ctag, c);
    FoldRotated(m, m1, s, r, Height(a) + if ctag == 0 then 3 else 2);
  }

  lemma FoldRotated(m: Mem, m1: Mem, s: Tree, r: Tree, h: nat)
    requires m1.Keys == m.Keys && Agree(m, m1, m.Keys - Foot(s)) && Same(s, r) && Avl(r) && Height(r) == h && r.Fork?
    ensures Rotated(m, m1, s, r, h)
  {
  }

  lemma SingleTop(dir: nat, a: Tree, node: Node, b: Tree, child: Node, ctag: int, c: Tree)
    requires dir <= 1
    ensures var r := Single(dir, a, node, b, child, ctag, c);
      r.Fork? && r.node == child &&
      r == Mk(dir, Mk(dir, a, node, SingleBalance(ctag, dir), b), child, -SingleBalance(ctag, dir), c)
  {
  }

  lemma TurnedOutside(m: Mem, m1: Mem, dir: nat, a: Tree, node: Node, tag: int, b: Tree, child: Node, ctag: int, c: Tree,
                      tag1: int, ctag1: int)
    requires dir <= 1 && Turned(m, m1, dir, a, node, b, child, c, tag1, ctag1)
    ensures m1.Keys == m.Keys && Agree(m, m1, m.Keys - Foot(Mk(dir, a, node, tag, Mk(dir, b, child, ctag, c))))
  {
    MkParts(dir, a, node, tag, Mk(dir, b, child, ctag, c));
    MkParts(dir, b, child, ctag, c);
    RootInFoot(b);
    hide Foot, Mk;
  }

  lemma DoubleRotated(m: Mem, m1: Mem, p: Parts, up: Node?)
    requires p.dir <= 1 && Avl(p.a) && p.ctag == D2B(p.dir) && Linked(m, Whole(p), up) && Apart(Whole(p))
    requires var x := Mk(p.dir, Inner(p), p.child, p.ctag, p.d); Avl(x) && Height(x) == Height(p.a) + 2
    requires After(m, m1, p)
    ensures Rotated(m, m1, Whole(p), Doubled(p), Height(p.a) + 2) && Linked(m1, Doubled(p), p.child) && Doubled(p).node == p.left
  {
    PartsOfWhole(p);
    DoubleNodes(m, p, up);
    AfterOutside(m, m1, p);
    DoubledShape(p);
    hide *;
    DoubleLinked(m, m1, p);
    FoldRotated(m, m1, Whole(p), Doubled(p), Height(p.a) + 2);
  }

  lemma DoubledShape(p: Parts)
    requires p.dir <= 1 && Avl(p.a) && p.ctag == D2B(p.dir)
    requires var x := Mk(p.dir, Inner(p), p.child, p.ctag, p.d); Avl(x) && Height(x) == Height(p.a) + 2
    ensures var r := Doubled(p); r.Fork? && r.node == p.left && Avl(r) && Height(r) == Height(p.a) + 2 && Same(Whole(p), r)
  {
    DoubleAvl(p.dir, p.a, p.node, p.b, p.left, p.ltag, p.c, p.child, p.ctag, p.d);
    DoubleSame(p.dir, p.a, p.node, p.tag, p.b, p.left, p.ltag, p.c, p.child, p.ctag, p.d);
    hide Avl, Height, Same, DoubleBalances, Mk;
  }

  lemma AfterOutside(m: Mem, m1: Mem, p: Parts)
    requires p.dir <= 1 && After(m, m1, p) && PartsApart(p)
    requires Foot(Whole(p)) == {p.node, p.child, p.left} + Foot(p.a) + Foot(p.b) + Foot(p.c) + Foot(p.d)
    ensures m1.Keys == m.Keys && Agree(m, m1, m.Keys - Foot(Whole(p)))
  {
    RootInFoot(p.b);
    RootInFoot(p.c);
    hide Foot, Mk, DoubleBalances;
  }

  lemma HighChild(s: Tree, dir: nat)
    requires TooHigh(s, dir)
    ensures var t := Side(s, 1 - dir); t.Fork? && s == Mk(dir, Side(s, dir), s.node, s.tag, t)
    ensures var t := Side(s, 1 - dir); t == Mk(dir, Side(t, dir), t.node, t.tag, Side(t, 1 - dir))
    ensures var t := Side(s, 1 - dir); t.tag == D2B(dir) ==>
      Side(t, dir).Fork? && var u := Side(t, dir); u == Mk(dir, Side(u, dir), u.node, u.tag, Side(u, 1 - dir))
  {
    MkSides(s, dir);
    var t := Side(s, 1 - dir);
    MkSides(t, dir);
    HeightSides(t, dir);
    if t.tag == D2B(dir) {
      MkSides(Side(t, dir), dir);
    }
  }

  lemma ChildCell(m: Mem, s: Tree, up: Node?, dir: nat)
    requires Linked(m, s, up) && s.Fork? && dir <= 1
    ensures s.node in m && m[s.node].Child(dir) == Root(Side(s, dir)) && m[s.node].tag == s.tag && m[s.node].parent == up
    ensures Side(s, dir).Fork? ==> Side(s, dir).node in m && m[Side(s, dir).node].tag == Side(s, dir).tag
  {
  }

  lemma SingleParts(s: Tree, dir: nat)
    requires TooHigh(s, dir)
    ensures var a, t := Side(s, dir), Side(s, 1 - dir);
      t.Fork? && s == Mk(dir, a, s.node, s.tag, Mk(dir, Side(t, dir), t.node, t.tag, Side(t, 1 - dir))) &&
      Avl(a) && Avl(Mk(dir, Side(t, dir), t.node, t.tag, Side(t, 1 - dir))) &&
      Height(Mk(dir, Side(t, dir), t.node, t.tag, Side(t, 1 - dir))) == Height(a) + 2
    ensures RotatedHeight(s, dir) == Height(Side(s, dir)) + if Side(s, 1 - dir).tag == 0 then 3 else 2
  {
    HighChild(s, dir);
  }

  ghost function PartsOf(s: Tree, dir: nat): Parts
    requires dir <= 1 && s.Fork? && Side(s, 1 - dir).Fork? && Side(Side(s, 1 - dir), dir).Fork?
  {
    var t := Side(s, 1 - dir);
    var b := Side(t, dir);
    Parts(dir, Side(s, dir), s.node, s.tag, Side(b, dir), b.node, b.tag, Side(b, 1 - dir), t.node, t.tag, Side(t, 1 - dir))
  }

  lemma DoubleParts(s: Tree, dir: nat)
    requires TooHigh(s, dir) && Side(s, 1 - dir).Fork? && Side(s, 1 - dir).tag == D2B(dir)
    ensures dir <= 1 && s.Fork? && Side(Side(s, 1 - dir), dir).Fork?
    ensures var p := PartsOf(s, dir);
      p.dir == dir && p.node == s.node && Whole(p) == s && Avl(p.a) && p.ctag == D2B(dir) &&
      Avl(Mk(dir, Inner(p), p.child, p.ctag, p.d)) && Height(Mk(dir, Inner(p), p.child, p.ctag, p.d)) == Height(p.a) + 2
    ensures RotatedHeight(s, dir) == Height(Side(s, dir)) + 2 && PartsOf(s, dir).a == Side(s, dir)
  {
    HighChild(s, dir);
    hide Avl, Height, Mk;
  }

  method RotateSingle(node: Node, dir: nat, ghost m: Mem, ghost s: Tree, ghost up: Node?)
    returns (top: Node, ghost m1: Mem, ghost r: Tree, ghost stale: Node?)
    requires Mirrors(m) && TooHigh(s, dir) && s.node == node && Linked(m, s, up) && Apart(s)
    requires Side(s, 1 - dir).Fork? && Side(s, 1 - dir).tag != D2B(dir)
    modifies m.Keys
    ensures Mirrors(m1) && Rotated(m, m1, s, r, RotatedHeight(s, dir)) && r.Fork? && r.node == top && Linked(m1, r, stale)
  {
    assert dir <= 1;
    hide *;
    SingleParts(s, dir);
    ghost var a, t := Side(s, dir), Side(s, 1 - dir);
    ghost var b, c := Side(t, dir), Side(t, 1 - dir);
    SingleTop(dir, a, node, b, t.node, t.tag, c);
    top, m1 := SingleRotate(node, dir, m, a, s.tag, b, t.node, t.tag, c, up);
    r, stale := Single(dir, a, node, b, t.node, t.tag, c), node;
    SingleRotated(m, m1, dir, a, node, s.tag, b, t.node, t.tag, c, up);
  }

  method RotateDouble(node: Node, dir: nat, ghost m: Mem, ghost s: Tree, ghost up: Node?)
    returns (top: Node, ghost m1: Mem, ghost r: Tree, ghost stale: Node?)
    requires Mirrors(m) && TooHigh(s, dir) && s.node == node && Linked(m, s, up) && Apart(s)
    requires Side(s, 1 - dir).Fork? && Side(s, 1 - dir).tag == D2B(dir)
    modifies m.Keys
    ensures Mirrors(m1) && Rotated(m, m1, s, r, RotatedHeight(s, dir)) && r.Fork? && r.node == top && Linked(m1, r, stale)
  {
    hide *;
    DoubleParts(s, dir);
    ghost var p := PartsOf(s, dir);
    DoubledShape(p);
    PartsOfWhole(p);
    DoubleNodes(m, p, up);
    top, m1 := DoubleRotate(node, dir, m, p);
    r, stale := Doubled(p), p.child;
    DoubleRotated(m, m1, p, up);
  }

  /** Rotates node towards side dir; its other child is too high by two. */
  method Rotate(node: Node, dir: nat, ghost m: Mem, ghost s: Tree, ghost up: Node?)
    returns (top: Node, ghost m1: Mem, ghost r: Tree, ghost stale: Node?)
    requires Mirrors(m) && TooHigh(s, dir) && s.node == node && Linked(m, s, up) && Apart(s)
    modifies m.Keys
    ensures Mirrors(m1) && Rotated(m, m1, s, r, RotatedHeight(s, dir)) && r.Fork? && r.node == top && Linked(m1, r, stale)
  {
    HighChild(s, dir);
    ChildCell(m, s, up, 1 - dir);
    hide *;
    PeekChild(m, node, 1 - dir);
    var child := node.Child(1 - dir);
    RootIs(Side(s, 1 - dir));
    PeekChild(m, child, dir);
    if child.tag == D2B(dir) {
      top, m1, r, stale := RotateDouble(node, dir, m, s, up);
    } else {
      top, m1, r, stale := RotateSingle(node, dir, m, s, up);
    }
  }

}
