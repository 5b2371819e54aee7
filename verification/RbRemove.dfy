/** The red-black tree: repair after a black node has been taken out. */
module RbRemove {
  import opened BinaryTree
  import opened BinaryTurn
  import opened BinarySplice
  import opened RbRules
  import opened RbInsert

  /** The subtree in focus is valid and black, but its paths are one black node short. */
  ghost predicate Short(c: Ctx, t: Tree, target: seq<Node>) {
    c.Step? && Rb(t) && !Red(t) && RbC(c, BlackHeight(t) + 1) && Pre(c) + InOrder(t) + Post(c) == target
  }

  lemma {:induction false} BlackHeightPositive(t: Tree)
    requires Rb(t)
    ensures BlackHeight(t) >= 0
  {
    if t.Fork? {
      BlackHeightPositive(t.left);
    }
  }

  /** The sibling is there. */
  lemma Sibling(m: Mem, root: Node?, c: Ctx, t: Tree, target: seq<Node>)
    requires Focus(m, root, c, t) && Short(c, t, target)
    ensures c.sib.Fork? && c.sib.node in m && m[c.sib.node].tag == c.sib.tag && (c.sib.tag == RED || c.sib.tag == BLACK)
    ensures c.node in m && m[c.node].tag == c.tag && (c.tag == RED || c.tag == BLACK) && c.dir <= 1
    ensures m[c.node].Child(c.dir) == Root(t) && m[c.node].Child(1 - c.dir) == c.sib.node && Root(t) != c.sib.node
    ensures m[c.node].parent == Owner(c.up)
  {
    FocusFacts(m, root, c, t);
    StepRules(c, BlackHeight(t) + 1);
    BlackHeightPositive(t);
    if c.sib.Fork? {
      SubRules(c.sib);
      RootIs(c.sib);
    }
    if t.Fork? {
      RootIs(t);
    }
    hide Focus, RbC, Rb;
  }

  // ---------------------------------------------------------------- a red sibling

  /** The subtree of the parent, seen for a turn in direction c.dir. */
  lemma ParentFocus(m: Mem, root: Node?, c: Ctx, t: Tree)
    requires Focus(m, root, c, t) && c.Step? && c.dir <= 1 && c.sib.Fork?
    ensures var d, s := c.dir, c.sib;
      var p := Mk(d, t, c.node, c.tag, Mk(d, Side(s, d), s.node, s.tag, Side(s, 1 - d)));
      Focus(m, root, c.up, p) && Pre(c.up) + InOrder(p) + Post(c.up) == Pre(c) + InOrder(t) + Post(c) &&
      FootC(c.up) + Foot(p) == FootC(c) + Foot(t)
  {
    FocusUp(m, root, c, t);
    MkSides(c.sib, c.dir);
    hide Mk, Focus, Pre, Post, FootC, InOrder, Foot;
  }

  /** After the red sibling has been turned to the parent's place, the parent's other child is black. */
  ghost function LoweredCtx(c: Ctx): Ctx
    requires c.Step? && c.sib.Fork? && c.dir <= 1
  {
    Step(c.node, RED, c.dir, Side(c.sib, c.dir), Step(c.sib.node, c.tag, c.dir, Side(c.sib, 1 - c.dir), c.up))
  }

  lemma LoweredRules(c: Ctx, t: Tree, target: seq<Node>)
    requires Short(c, t, target) && c.dir <= 1 && c.sib.Fork? && c.sib.tag == RED
    ensures var c1 := LoweredCtx(c);
      RbC(c1, BlackHeight(t) + 1) && c1.sib.Fork? && c1.sib.tag == BLACK && c1.tag == RED
  {
    var s, h := c.sib, BlackHeight(t) + 1;
    StepRules(c, h);
    MkSides(s, c.dir);
    RbMk(c.dir, Side(s, c.dir), s.node, s.tag, Side(s, 1 - c.dir));
    BlackHeightPositive(t);
    var x := Side(s, c.dir);
    assert x.Fork?;
    SubRules(x);
    assert c.tag == BLACK;
    hide Mk, Rb, BlackHeight, Red;
  }

  lemma LoweredFocus(m: Mem, root: Node?, c: Ctx, t: Tree)
    requires c.Step? && c.sib.Fork? && c.dir <= 1
    requires var d, s := c.dir, c.sib;
      Focus(m, root, c.up, Mk(d, Mk(d, t, c.node, RED, Side(s, d)), s.node, c.tag, Side(s, 1 - d)))
    ensures var d, s, c1 := c.dir, c.sib, LoweredCtx(c);
      var p := Mk(d, Mk(d, t, c.node, RED, Side(s, d)), s.node, c.tag, Side(s, 1 - d));
      Focus(m, root, c1, t) && Pre(c.up) + InOrder(p) + Post(c.up) == Pre(c1) + InOrder(t) + Post(c1) &&
      FootC(c.up) + Foot(p) == FootC(c1) + Foot(t)
  {
    var d, s := c.dir, c.sib;
    var q := Mk(d, t, c.node, RED, Side(s, d));
    var p := Mk(d, q, s.node, c.tag, Side(s, 1 - d));
    SidesOfMk(d, t, c.node, RED, Side(s, d));
    SidesOfMk(d, q, s.node, c.tag, Side(s, 1 - d));
    hide Mk, Focus, Pre, Post, FootC, InOrder, Foot;
    FocusDown(m, root, c.up, p, d);
    FocusDown(m, root, Step(s.node, c.tag, d, Side(s, 1 - d), c.up), q, d);
  }

  lemma SidesOfMk(dir: nat, a: Tree, n: Node, tag: int, b: Tree)
    requires dir <= 1
    ensures Side(Mk(dir, a, n, tag, b), dir) == a && Side(Mk(dir, a, n, tag, b), 1 - dir) == b
  {
  }

  /** Turns a red sibling to the parent's place; the parent gets red and has a black sibling child then. */
  method LowerParent(head: Head, parent: Node, sibling: Node, leftDir: nat, parentTag: int, ghost m: Mem, ghost c: Ctx, ghost t: Tree,
                     ghost target: seq<Node>)
    returns (ghost m1: Mem)
    requires Mirrors(m) && Focus(m, head.root, c, t) && Short(c, t, target) && c.sib.Fork? && c.sib.tag == RED
    requires leftDir == c.dir <= 1 && parent == c.node && sibling == c.sib.node && parentTag == c.tag
    modifies head, m.Keys
    ensures Mirrors(m1) && m1.Keys == m.Keys
    ensures Focus(m1, head.root, LoweredCtx(c), t) && Short(LoweredCtx(c), t, target)
    ensures FootC(LoweredCtx(c)) + Foot(t) == FootC(c) + Foot(t)
    ensures LoweredCtx(c).sib.Fork? && LoweredCtx(c).sib.tag == BLACK && LoweredCtx(c).tag == RED
  {
    ghost var s, d := c.sib, c.dir;
    hide *;
    ParentFocus(m, head.root, c, t);
    NotStale(m, head.root, c.up, d, t, parent, c.tag, Side(s, d), sibling, RED, Side(s, 1 - d));
    m1 := TurnUp(head, parent, sibling, leftDir, RED, parentTag, m, c.up, t, c.tag, Side(s, d), RED, Side(s, 1 - d));
    LoweredFocus(m1, head.root, c, t);
    LoweredRules(c, t, target);
    TurnSame(d, t, parent, c.tag, Side(s, d), sibling, RED, Side(s, 1 - d), RED, c.tag);
    SameParts(Mk(d, t, parent, c.tag, Mk(d, Side(s, d), sibling, RED, Side(s, 1 - d))),
              Mk(d, Mk(d, t, parent, RED, Side(s, d)), sibling, c.tag, Side(s, 1 - d)));
    LoweredShort(c, t, target);
  }

  lemma LoweredShort(c: Ctx, t: Tree, target: seq<Node>)
    requires Short(c, t, target) && c.dir <= 1 && c.sib.Fork? && RbC(LoweredCtx(c), BlackHeight(t) + 1)
    requires Pre(LoweredCtx(c)) + InOrder(t) + Post(LoweredCtx(c)) == Pre(c) + InOrder(t) + Post(c)
    ensures Short(LoweredCtx(c), t, target)
  {
  }

  // ---------------------------------------------------------------- black nephews

  /** The sibling gets red, and the parent is black afterwards. */
  ghost function Faded(c: Ctx, t: Tree): Tree
    requires c.Step? && c.sib.Fork?
  {
    Mk(c.dir, t, c.node, BLACK, c.sib.(tag := RED))
  }

  lemma FadedRules(c: Ctx, t: Tree, target: seq<Node>)
    requires Short(c, t, target) && c.sib.Fork? && c.sib.tag == BLACK && !Red(c.sib.left) && !Red(c.sib.right)
    ensures Rb(Faded(c, t)) && !Red(Faded(c, t)) && BlackHeight(Faded(c, t)) == BlackHeight(t) + 1
    ensures RbC(c.up, BlackHeight(t) + 1 + c.tag)
  {
    StepRules(c, BlackHeight(t) + 1);
    RbMk(c.dir, t, c.node, BLACK, c.sib.(tag := RED));
    hide Mk;
  }

  lemma FadedFocus(m: Mem, n1: Mem, n2: Mem, root: Node?, c: Ctx, t: Tree)
    requires Focus(m, root, c, t) && c.Step? && c.sib.Fork? && c.node in m && c.sib.node in m
    requires n1 == m[c.sib.node := m[c.sib.node].(tag := RED)]
    requires c.node in n1 && n2 == n1[c.node := n1[c.node].(tag := BLACK)]
    ensures Focus(n2, root, c.up, Faded(c, t)) && n2.Keys == n1.Keys == m.Keys
    ensures Pre(c.up) + InOrder(Faded(c, t)) + Post(c.up) == Pre(c) + InOrder(t) + Post(c)
    ensures FootC(c.up) + Foot(Faded(c, t)) == FootC(c) + Foot(t)
  {
    RecoloredSib(m, n1, root, c, t, RED);
    var c1 := c.(sib := c.sib.(tag := RED));
    Retag(n1, n2, root, c1, t, BLACK);
    RetagOrder(c1, BLACK);
    hide Focus, Pre, Post, FootC, InOrder, Foot, Mk;
    FocusUp(n2, root, c1.(tag := BLACK), t);
  }

  /** A black parent is as if it had just been painted black. */
  lemma StillBlack(m: Mem, n1: Mem, root: Node?, c: Ctx, t: Tree)
    requires Focus(m, root, c, t) && c.Step? && c.sib.Fork? && c.node in m && c.sib.node in m && m[c.node].tag == BLACK
    requires n1 == m[c.sib.node := m[c.sib.node].(tag := RED)]
    ensures c.node in n1 && n1 == n1[c.node := n1[c.node].(tag := BLACK)]
  {
    RootIn(c.sib);
  }

  /** A red parent takes over the missing black. */
  lemma FadedDone(m: Mem, root: Node?, c: Ctx, t: Tree, target: seq<Node>)
    requires Short(c, t, target) && c.sib.Fork? && c.sib.tag == BLACK && !Red(c.sib.left) && !Red(c.sib.right)
    requires c.tag == RED || c.up == Top
    requires Focus(m, root, c.up, Faded(c, t)) && Pre(c.up) + InOrder(Faded(c, t)) + Post(c.up) == Pre(c) + InOrder(t) + Post(c)
    ensures Repaired(m, root, Zip(c.up, Faded(c, t)), target, FootC(c.up) + Foot(Faded(c, t)))
  {
    FadedRules(c, t, target);
    ShortOrder(c, t, target);
    TopRules(BlackHeight(Faded(c, t)));
    hide Faded, Rb, BlackHeight, Pre, Post, InOrder, Focus, Zip, Foot, FootC, Short;
    ZipGood(m, root, c.up, Faded(c, t), target);
  }

  lemma TopRules(h: int)
    ensures RbC(Top, h)
  {
  }

  lemma ShortOrder(c: Ctx, t: Tree, target: seq<Node>)
    requires Short(c, t, target)
    ensures Pre(c) + InOrder(t) + Post(c) == target && c.Step?
  {
  }

  lemma FadedShort(c: Ctx, t: Tree, target: seq<Node>)
    requires Short(c, t, target) && c.sib.Fork? && c.sib.tag == BLACK && !Red(c.sib.left) && !Red(c.sib.right)
    requires c.tag == BLACK && c.up.Step? && Pre(c.up) + InOrder(Faded(c, t)) + Post(c.up) == Pre(c) + InOrder(t) + Post(c)
    ensures Short(c.up, Faded(c, t), target)
  {
    FadedRules(c, t, target);
    hide Faded, Rb, BlackHeight, Pre, Post, InOrder;
  }

  // ---------------------------------------------------------------- a red nephew

  /** Turns the sibling to the parent's place, and its outer child black. */
  ghost function Lifted(d: nat, t: Tree, parent: Node, i: Tree, s: Node, tag: int, o: Tree): Tree
    requires o.Fork?
  {
    Mk(d, Mk(d, t, parent, BLACK, i), s, tag, o.(tag := BLACK))
  }

  lemma LiftedFocus(m: Mem, m1: Mem, root: Node?, up: Ctx, d: nat, t: Tree, parent: Node, i: Tree, s: Node, tag: int, o: Tree)
    requires d <= 1 && o.Fork? && Focus(m, root, up, Mk(d, Mk(d, t, parent, BLACK, i), s, tag, o))
    requires o.node in m && m1 == m[o.node := m[o.node].(tag := BLACK)]
    ensures Focus(m1, root, up, Lifted(d, t, parent, i, s, tag, o)) && m1.Keys == m.Keys
    ensures InOrder(Lifted(d, t, parent, i, s, tag, o)) == InOrder(Mk(d, Mk(d, t, parent, BLACK, i), s, tag, o))
    ensures Foot(Lifted(d, t, parent, i, s, tag, o)) == Foot(Mk(d, Mk(d, t, parent, BLACK, i), s, tag, o))
  {
    var q := Mk(d, t, parent, BLACK, i);
    var p, o1 := Mk(d, q, s, tag, o), o.(tag := BLACK);
    SidesOfMk(d, q, s, tag, o);
    SidesOfMk(d, q, s, tag, o1);
    FlipMk(d, q, s, tag, o1);
    MkParts(d, q, s, tag, o);
    MkParts(d, q, s, tag, o1);
    hide Mk, Focus, Pre, Post, FootC, InOrder, Foot, Apart;
    FocusDown(m, root, up, p, 1 - d);
    var e := Step(s, tag, 1 - d, q, up);
    Recolored(m, m1, root, e, o, BLACK);
    FocusUp(m1, root, e, o1);
  }

  lemma LiftedRules(d: nat, t: Tree, parent: Node, i: Tree, s: Node, tag: int, o: Tree, up: Ctx, h: int)
    requires d <= 1 && o.Fork? && Rb(t) && Rb(i) && BlackHeight(t) == BlackHeight(i) == h
    requires Rb(o.(tag := BLACK)) && BlackHeight(o.(tag := BLACK)) == h + 1
    requires (tag == RED || tag == BLACK) && (tag == RED ==> RedFits(up)) && RbC(up, h + 1 + tag)
    ensures var r := Lifted(d, t, parent, i, s, tag, o); Rb(r) && (Red(r) ==> RedFits(up)) && RbC(up, BlackHeight(r))
  {
    RbMk(d, t, parent, BLACK, i);
    RbMk(d, Mk(d, t, parent, BLACK, i), s, tag, o.(tag := BLACK));
    hide Mk, Rb, RbC, BlackHeight;
  }

  /** The rotation at the parent that ends the repair. */
  method Lift(head: Head, parent: Node, sibling: Node, leftDir: nat, parentTag: int, ghost m: Mem, ghost up: Ctx, ghost t: Tree,
              ghost i: Tree, ghost stag: int, ghost o: Tree)
    returns (ghost m1: Mem)
    requires leftDir <= 1 && Mirrors(m) && sibling in m && o.Fork?
    requires Focus(Hung(m, sibling, parent), head.root, up, Mk(leftDir, t, parent, parentTag, Mk(leftDir, i, sibling, stag, o)))
    modifies head, m.Keys
    ensures Mirrors(m1) && m1.Keys == m.Keys && Focus(m1, head.root, up, Lifted(leftDir, t, parent, i, sibling, parentTag, o))
    ensures InOrder(Lifted(leftDir, t, parent, i, sibling, parentTag, o)) ==
      InOrder(Mk(leftDir, t, parent, parentTag, Mk(leftDir, i, sibling, stag, o)))
    ensures Foot(Lifted(leftDir, t, parent, i, sibling, parentTag, o)) ==
      Foot(Mk(leftDir, t, parent, parentTag, Mk(leftDir, i, sibling, stag, o)))
  {
    hide *;
    ghost var n := TurnUp(head, parent, sibling, leftDir, BLACK, parentTag, m, up, t, parentTag, i, stag, o);
    OuterChild(n, head.root, up, leftDir, Mk(leftDir, t, parent, BLACK, i), sibling, parentTag, o);
    PeekChild(n, sibling, 1 - leftDir);
    m1 := SetTag(sibling.Child(1 - leftDir), BLACK, n);
    LiftedFocus(n, m1, head.root, up, leftDir, t, parent, i, sibling, parentTag, o);
    TurnSame(leftDir, t, parent, parentTag, i, sibling, stag, o, BLACK, parentTag);
    SameParts(Mk(leftDir, t, parent, parentTag, Mk(leftDir, i, sibling, stag, o)),
              Mk(leftDir, Mk(leftDir, t, parent, BLACK, i), sibling, parentTag, o));
  }

  lemma OuterChild(m: Mem, root: Node?, up: Ctx, d: nat, q: Tree, s: Node, tag: int, o: Tree)
    requires d <= 1 && Focus(m, root, up, Mk(d, q, s, tag, o)) && o.Fork?
    ensures s in m && m[s].Child(1 - d) == o.node && o.node in m
  {
    LinkedMk(m, d, q, s, tag, o, Owner(up));
    LinkedMemory(m, o, s);
  }

  lemma LiftDone(m: Mem, root: Node?, c: Ctx, t: Tree, target: seq<Node>, i: Tree, s: Node, o: Tree, r: Tree)
    requires c.Step? && c.dir <= 1 && o.Fork? && Short(c, t, target) && r == Lifted(c.dir, t, c.node, i, s, c.tag, o)
    requires Focus(m, root, c.up, r)
    requires Rb(i) && BlackHeight(i) == BlackHeight(t) && Rb(o.(tag := BLACK)) && BlackHeight(o.(tag := BLACK)) == BlackHeight(t) + 1
    requires Pre(c.up) + InOrder(r) + Post(c.up) == Pre(c) + InOrder(t) + Post(c) && FootC(c.up) + Foot(r) == FootC(c) + Foot(t)
    ensures Repaired(m, root, Zip(c.up, r), target, FootC(c) + Foot(t))
  {
    hide *;
    ShortOrder(c, t, target);
    LiftDoneRules(c, t, target, i, s, o);
    ZipGood(m, root, c.up, r, target);
  }

  lemma LiftDoneRules(c: Ctx, t: Tree, target: seq<Node>, i: Tree, s: Node, o: Tree)
    requires c.Step? && c.dir <= 1 && o.Fork? && Short(c, t, target)
    requires Rb(i) && BlackHeight(i) == BlackHeight(t) && Rb(o.(tag := BLACK)) && BlackHeight(o.(tag := BLACK)) == BlackHeight(t) + 1
    ensures var r := Lifted(c.dir, t, c.node, i, s, c.tag, o); Rb(r) && (Red(r) ==> RedFits(c.up)) && RbC(c.up, BlackHeight(r))
  {
    hide *;
    ShortRules(c, t, target);
    StepRules(c, BlackHeight(t) + 1);
    LiftedRules(c.dir, t, c.node, i, s, c.tag, o, c.up, BlackHeight(t));
  }

  lemma ShortRules(c: Ctx, t: Tree, target: seq<Node>)
    requires Short(c, t, target)
    ensures c.Step? && Rb(t) && !Red(t) && RbC(c, BlackHeight(t) + 1) && Pre(c) + InOrder(t) + Post(c) == target
  {
  }

  /** What is known about the sibling's children. */
  lemma Nephews(c: Ctx, t: Tree, target: seq<Node>)
    requires Short(c, t, target) && c.dir <= 1 && c.sib.Fork? && c.sib.tag == BLACK
    ensures var i, o := Side(c.sib, c.dir), Side(c.sib, 1 - c.dir);
      Rb(i) && Rb(o) && BlackHeight(i) == BlackHeight(o) == BlackHeight(t)
  {
    StepRules(c, BlackHeight(t) + 1);
    MkSides(c.sib, c.dir);
    RbMk(c.dir, Side(c.sib, c.dir), c.sib.node, c.sib.tag, Side(c.sib, 1 - c.dir));
    hide Mk;
  }

  /** The outer nephew is red: one rotation. */
  method LiftOuter(head: Head, parent: Node, sibling: Node, leftDir: nat, parentTag: int, ghost m: Mem, ghost c: Ctx, ghost t: Tree,
                   ghost target: seq<Node>)
    returns (ghost m1: Mem, ghost t1: Tree)
    requires Mirrors(m) && Focus(m, head.root, c, t) && Short(c, t, target) && c.dir <= 1 && c.sib.Fork? && c.sib.tag == BLACK
    requires Red(Side(c.sib, 1 - c.dir)) && leftDir == c.dir && parent == c.node && sibling == c.sib.node && parentTag == c.tag
    modifies head, m.Keys
    ensures Mirrors(m1) && m1.Keys == m.Keys && Repaired(m1, head.root, t1, target, FootC(c) + Foot(t))
  {
    ghost var i, o := Side(c.sib, leftDir), Side(c.sib, 1 - leftDir);
    RedSib(o);
    hide *;
    Nephews(c, t, target);
    ShortOrder(c, t, target);
    SubRules(o);
    ParentFocus(m, head.root, c, t);
    NotStale(m, head.root, c.up, leftDir, t, parent, parentTag, i, sibling, BLACK, o);
    m1 := Lift(head, parent, sibling, leftDir, parentTag, m, c.up, t, i, BLACK, o);
    ghost var r := Lifted(leftDir, t, parent, i, sibling, parentTag, o);
    LiftDone(m1, head.root, c, t, target, i, sibling, o, r);
    t1 := Zip(c.up, r);
  }

  // ---------------------------------------------------------------- the inner nephew

  /** The sibling's subtree for a turn in direction r, seen from the parent. */
  lemma NephewFocus(m: Mem, root: Node?, c: Ctx, t: Tree)
    requires Focus(m, root, c, t) && c.Step? && c.dir <= 1 && c.sib.Fork? && Side(c.sib, c.dir).Fork?
    ensures var d, r, s := c.dir, 1 - c.dir, c.sib;
      var i, e := Side(s, d), Step(c.node, c.tag, r, t, c.up);
      Focus(m, root, e, Mk(r, Side(s, r), s.node, s.tag, Mk(r, Side(i, r), i.node, i.tag, Side(i, d))))
  {
    var d, r, s := c.dir, 1 - c.dir, c.sib;
    var p := Mk(d, t, c.node, c.tag, s);
    FocusUp(m, root, c, t);
    SidesOfMk(d, t, c.node, c.tag, s);
    MkSides(s, r);
    MkSides(Side(s, d), r);
    hide Focus, Mk;
    FocusDown(m, root, c.up, p, r);
  }

  ghost function Outside(c: Ctx): Tree
    requires c.Step? && c.dir <= 1 && c.sib.Fork? && Side(c.sib, c.dir).Fork?
  {
    var i := Side(c.sib, c.dir);
    Mk(c.dir, Side(i, 1 - c.dir), c.sib.node, c.sib.tag, Side(c.sib, 1 - c.dir))
  }

  /** After the turn, with the inner nephew's parent pointer still stale. */
  lemma NephewTurned(m: Mem, n1: Mem, n2: Mem, root: Node?, c: Ctx, t: Tree)
    requires Focus(m, root, c, t) && c.Step? && c.dir <= 1 && c.sib.Fork? && Side(c.sib, c.dir).Fork?
    requires var i := Side(c.sib, c.dir);
      i.node in m && c.sib.node in m && c.node in n1 &&
      Repointed(m, n1, 1 - c.dir, c.sib.node, i.node, Root(Side(i, 1 - c.dir))) &&
      n2 == n1[c.node := n1[c.node].WithChild(1 - c.dir, i.node)]
    ensures var d, i := c.dir, Side(c.sib, c.dir);
      i.node in n2 && n2.Keys == m.Keys &&
      Focus(Hung(n2, i.node, c.node), root, c.up, Mk(d, t, c.node, c.tag, Mk(d, Side(i, d), i.node, i.tag, Outside(c))))
    ensures var d, i := c.dir, Side(c.sib, c.dir);
      var p := Mk(d, t, c.node, c.tag, Mk(d, Side(i, d), i.node, i.tag, Outside(c)));
      Pre(c.up) + InOrder(p) + Post(c.up) == Pre(c) + InOrder(t) + Post(c) && FootC(c.up) + Foot(p) == FootC(c) + Foot(t)
  {
    var d, r, s := c.dir, 1 - c.dir, c.sib;
    var i, e := Side(s, d), Step(c.node, c.tag, r, t, c.up);
    var x, y := Mk(r, Side(s, r), s.node, s.tag, Side(i, r)), Side(i, d);
    NephewFocus(m, root, c, t);
    NephewNames(c, t);
    assert e.Step? && e.node == c.node && e.dir == r && Owner(e) == c.node;
    hide *;
    InnerLink(m, n1, n2, root, e, r, Side(s, r), s.node, s.tag, Side(i, r), i.node, i.tag, y);
    HungIs(n2, i.node, c.node);
    TurnedFocus(m, n1, root, root, e, r, Side(s, r), s.node, s.tag, Side(i, r), i.node, i.tag, y, s.tag, i.tag, n2, Hung(n2, i.node, c.node));
    FocusUp(Hung(n2, i.node, c.node), root, e, Mk(r, x, i.node, i.tag, y));
    NephewOrder(c, t);
    FocusUp(m, root, c, t);
  }

  /** The same tree, written in the two ways that are needed. */
  lemma NephewNames(c: Ctx, t: Tree)
    requires c.Step? && c.dir <= 1 && c.sib.Fork? && Side(c.sib, c.dir).Fork?
    ensures var d, r, s := c.dir, 1 - c.dir, c.sib;
      var i, e := Side(s, d), Step(c.node, c.tag, r, t, c.up);
      var x := Mk(r, Side(s, r), s.node, s.tag, Side(i, r));
      Outside(c) == x &&
      Mk(e.dir, Mk(r, x, i.node, i.tag, Side(i, d)), e.node, e.tag, e.sib) ==
        Mk(d, t, c.node, c.tag, Mk(d, Side(i, d), i.node, i.tag, Outside(c))) && e.up == c.up
  {
    var d, r, s := c.dir, 1 - c.dir, c.sib;
    var i := Side(s, d);
    var x := Mk(r, Side(s, r), s.node, s.tag, Side(i, r));
    FlipMk(r, Side(s, r), s.node, s.tag, Side(i, r));
    FlipMk(r, x, i.node, i.tag, Side(i, d));
    FlipMk(d, t, c.node, c.tag, Mk(d, Side(i, d), i.node, i.tag, Outside(c)));
  }

  lemma NephewOrder(c: Ctx, t: Tree)
    requires c.Step? && c.dir <= 1 && c.sib.Fork? && Side(c.sib, c.dir).Fork?
    ensures var d, i := c.dir, Side(c.sib, c.dir);
      Same(Mk(d, t, c.node, c.tag, c.sib), Mk(d, t, c.node, c.tag, Mk(d, Side(i, d), i.node, i.tag, Outside(c))))
    ensures var d, i := c.dir, Side(c.sib, c.dir);
      var p, q := Mk(d, t, c.node, c.tag, c.sib), Mk(d, t, c.node, c.tag, Mk(d, Side(i, d), i.node, i.tag, Outside(c)));
      InOrder(p) == InOrder(q) && Foot(p) == Foot(q)
  {
    var d, s := c.dir, c.sib;
    var i, o := Side(s, d), Side(s, 1 - d);
    MkSides(s, d);
    MkSides(i, d);
    var w := Mk(d, Side(i, d), i.node, i.tag, Outside(c));
    assert Outside(c) == Mk(d, Side(i, 1 - d), s.node, s.tag, o);
    hide Mk, Same, InOrder, Foot;
    TurnSame(d, Side(i, d), i.node, i.tag, Side(i, 1 - d), s.node, s.tag, o, i.tag, s.tag);
    SameRefl(s);
    SameTrans(w, s, s);
    SameBelow(d, t, c.node, c.tag, c.tag, s, w);
    SameParts(Mk(d, t, c.node, c.tag, s), Mk(d, t, c.node, c.tag, w));
  }

  lemma SameRefl(s: Tree)
    ensures Same(s, s)
  {
  }

  /** The inner nephew takes the sibling's place. */
  method TurnNephew(sibling: Node, inner: Node, parent: Node, leftDir: nat, ghost m: Mem, ghost root: Node?, ghost c: Ctx, ghost t: Tree)
    returns (ghost m1: Mem)
    requires Mirrors(m) && Focus(m, root, c, t) && c.Step? && c.dir <= 1 && c.sib.Fork? && Side(c.sib, c.dir).Fork?
    requires leftDir == c.dir && sibling == c.sib.node && inner == Side(c.sib, c.dir).node && parent == c.node && c.node in m
    modifies m.Keys
    ensures Mirrors(m1) && m1.Keys == m.Keys && inner in m1
    ensures var d, i := c.dir, Side(c.sib, c.dir);
      var p := Mk(d, t, c.node, c.tag, Mk(d, Side(i, d), i.node, i.tag, Outside(c)));
      Focus(Hung(m1, inner, parent), root, c.up, p) &&
      Pre(c.up) + InOrder(p) + Post(c.up) == Pre(c) + InOrder(t) + Post(c) && FootC(c.up) + Foot(p) == FootC(c) + Foot(t)
  {
    ghost var d, r, s := c.dir, 1 - c.dir, c.sib;
    ghost var i, e := Side(s, d), Step(c.node, c.tag, r, t, c.up);
    NephewFocus(m, root, c, t);
    hide *;
    TurnReady(m, root, e, r, Side(s, r), s.node, s.tag, Side(i, r), i.node, i.tag, Side(i, d));
    ghost var n1 := Turn(sibling, inner, 1 - leftDir, m);
    RepointedTag(m, n1, 1 - leftDir, sibling, inner, Root(Side(i, r)));
    m1 := SetChild(parent, 1 - leftDir, inner, n1);
    NephewTurned(m, n1, m1, root, c, t);
  }

  lemma OutsideRules(c: Ctx, t: Tree, target: seq<Node>)
    requires Short(c, t, target) && c.dir <= 1 && c.sib.Fork? && c.sib.tag == BLACK && Red(Side(c.sib, c.dir)) && !Red(Side(c.sib, 1 - c.dir))
    ensures var i := Side(c.sib, c.dir);
      i.Fork? && i.tag == RED && Rb(Side(i, c.dir)) && BlackHeight(Side(i, c.dir)) == BlackHeight(t) && Outside(c).Fork? &&
      Outside(c).tag == BLACK && Rb(Outside(c)) && BlackHeight(Outside(c)) == BlackHeight(t) + 1 && Outside(c).node == c.sib.node
  {
    var d, s := c.dir, c.sib;
    var i := Side(s, d);
    Nephews(c, t, target);
    MkSides(i, d);
    RbMk(d, Side(i, d), i.node, i.tag, Side(i, 1 - d));
    RbMk(d, Side(i, 1 - d), s.node, s.tag, Side(s, 1 - d));
    hide Mk, Short, Rb, BlackHeight;
  }

  lemma PaintBlack(t: Tree)
    requires t.Fork? && t.tag == BLACK
    ensures t.(tag := BLACK) == t
  {
  }

  /** Only the inner nephew is red: two rotations. */
  method LiftInner(head: Head, parent: Node, sibling: Node, inner: Node, leftDir: nat, parentTag: int, ghost m: Mem, ghost c: Ctx,
                   ghost t: Tree, ghost target: seq<Node>)
    returns (ghost m1: Mem, ghost t1: Tree)
    requires Mirrors(m) && Focus(m, head.root, c, t) && Short(c, t, target) && c.dir <= 1 && c.sib.Fork? && c.sib.tag == BLACK
    requires Red(Side(c.sib, c.dir)) && !Red(Side(c.sib, 1 - c.dir)) && c.node in m
    requires leftDir == c.dir && parent == c.node && sibling == c.sib.node && parentTag == c.tag
    requires inner == Root(Side(c.sib, c.dir))
    modifies head, m.Keys
    ensures Mirrors(m1) && m1.Keys == m.Keys && Repaired(m1, head.root, t1, target, FootC(c) + Foot(t))
  {
    hide *;
    OutsideRules(c, t, target);
    ShortOrder(c, t, target);
    ghost var i := Side(c.sib, leftDir);
    RootIs(i);
    PaintBlack(Outside(c));
    ghost var n := TurnNephew(sibling, inner, parent, leftDir, m, head.root, c, t);
    m1 := Lift(head, parent, inner, leftDir, parentTag, n, c.up, t, Side(i, leftDir), RED, Outside(c));
    ghost var r := Lifted(leftDir, t, parent, Side(i, leftDir), inner, parentTag, Outside(c));
    LiftDone(m1, head.root, c, t, target, Side(i, leftDir), inner, Outside(c), r);
    t1 := Zip(c.up, r);
  }

  // ---------------------------------------------------------------- the loop

  lemma NephewCells(m: Mem, root: Node?, c: Ctx, t: Tree)
    requires Focus(m, root, c, t) && c.Step? && c.dir <= 1 && c.sib.Fork?
    ensures var s := c.sib;
      s.node in m && m[s.node].Child(0) == Root(s.left) && m[s.node].Child(1) == Root(s.right) &&
      (Root(s.left) == null <==> s.left == Leaf) && (Root(s.right) == null <==> s.right == Leaf) &&
      (s.left.Fork? ==> s.left.node in m && m[s.left.node].tag == s.left.tag) &&
      (s.right.Fork? ==> s.right.node in m && m[s.right.node].tag == s.right.tag)
    ensures c.node in m && m[c.node].tag == c.tag && m[c.node].parent == Owner(c.up)
  {
    FocusFacts(m, root, c, t);
    LinkedMemory(m, c.sib.left, c.sib.node);
    LinkedMemory(m, c.sib.right, c.sib.node);
  }

  /** null counts as black. */
  method IsNullOrBlack(node: Node?, ghost m: Mem, ghost t: Tree) returns (black: bool)
    requires Mirrors(m) && node == Root(t) && (t.Fork? ==> t.node in m && m[t.node].tag == t.tag && (t.tag == RED || t.tag == BLACK))
    ensures black <==> !Red(t)
  {
    if node != null {
      Peek(m, node);
    }
    black := node == null || node.tag == BLACK;
  }

  lemma NephewColors(c: Ctx, t: Tree, target: seq<Node>)
    requires Short(c, t, target) && c.sib.Fork?
    ensures c.sib.left.Fork? ==> c.sib.left.tag == RED || c.sib.left.tag == BLACK
    ensures c.sib.right.Fork? ==> c.sib.right.tag == RED || c.sib.right.tag == BLACK
    ensures forall d :: Side(c.sib, d) == c.sib.left || Side(c.sib, d) == c.sib.right
    ensures Side(c.sib, 0) == c.sib.left && Side(c.sib, 1) == c.sib.right
  {
    StepRules(c, BlackHeight(t) + 1);
    if c.sib.left.Fork? {
      SubRules(c.sib.left);
    }
    if c.sib.right.Fork? {
      SubRules(c.sib.right);
    }
  }

  /** One round with a black sibling: the repair ends, or the problem moves one level up. */
  method RepairBlack(head: Head, parent: Node, sibling: Node, leftDir: nat, ghost m: Mem, ghost c: Ctx, ghost t: Tree, ghost target: seq<Node>)
    returns (done: bool, ghost m1: Mem, ghost t1: Tree)
    requires Mirrors(m) && Focus(m, head.root, c, t) && Short(c, t, target) && c.dir <= 1 && c.sib.Fork? && c.sib.tag == BLACK
    requires c.Step? && leftDir == c.dir && parent == c.node && sibling == c.sib.node && (c.tag == RED || c.tag == BLACK)
    modifies head, m.Keys
    ensures Mirrors(m1) && m1.Keys == m.Keys
    ensures done ==> Repaired(m1, head.root, t1, target, FootC(c) + Foot(t))
    ensures !done ==> c.tag == BLACK && c.up.Step? && Focus(m1, head.root, c.up, t1) && Short(c.up, t1, target)
    ensures !done ==> Root(t1) == parent && FootC(c.up) + Foot(t1) == FootC(c) + Foot(t)
  {
    hide *;
    NephewCells(m, head.root, c, t);
    NephewColors(c, t, target);
    PeekChild(m, sibling, 0);
    PeekChild(m, sibling, 1);
    PeekChild(m, parent, 0);
    var rightBlack := IsNullOrBlack(sibling.Child(1), m, c.sib.right);
    var leftBlack := IsNullOrBlack(sibling.Child(0), m, c.sib.left);
    if rightBlack && leftBlack {
      done, m1, t1 := Fade(head, parent, sibling, m, c, t, target);
      return;
    }
    done := true;
    PeekChild(m, sibling, leftDir);
    PeekChild(m, sibling, 1 - leftDir);
    var outerBlack := if leftDir == 0 then rightBlack else leftBlack;
    RedSib(Side(c.sib, leftDir));
    RootIs(Side(c.sib, leftDir));
    if outerBlack {
      m1, t1 := LiftInner(head, parent, sibling, sibling.Child(leftDir), leftDir, parent.tag, m, c, t, target);
    } else {
      m1, t1 := LiftOuter(head, parent, sibling, leftDir, parent.tag, m, c, t, target);
    }
  }

  /** Both nephews are black. */
  method Fade(head: Head, parent: Node, sibling: Node, ghost m: Mem, ghost c: Ctx, ghost t: Tree, ghost target: seq<Node>)
    returns (done: bool, ghost m1: Mem, ghost t1: Tree)
    requires Mirrors(m) && Focus(m, head.root, c, t) && Short(c, t, target) && c.Step? && c.dir <= 1 && c.sib.Fork? && c.sib.tag == BLACK
    requires !Red(c.sib.left) && !Red(c.sib.right) && (c.tag == RED || c.tag == BLACK)
    requires parent == c.node && sibling == c.sib.node
    modifies m.Keys
    ensures Mirrors(m1) && m1.Keys == m.Keys
    ensures done ==> Repaired(m1, head.root, t1, target, FootC(c) + Foot(t))
    ensures !done ==> c.tag == BLACK && c.up.Step? && Focus(m1, head.root, c.up, t1) && Short(c.up, t1, target)
    ensures !done ==> Root(t1) == parent && FootC(c.up) + Foot(t1) == FootC(c) + Foot(t)
  {
    hide *;
    NephewCells(m, head.root, c, t);
    ghost var n := SetTag(sibling, RED, m);
    SibNotParent(m, head.root, c, t);
    PeekChild(n, parent, 0);
    if parent.tag == RED {
      m1 := SetTag(parent, BLACK, n);
      FadedFocus(m, n, m1, head.root, c, t);
      FadedDone(m1, head.root, c, t, target);
      done, t1 := true, Zip(c.up, Faded(c, t));
    } else {
      m1 := n;
      StillBlack(m, n, head.root, c, t);
      FadedFocus(m, n, n, head.root, c, t);
      OwnerIs(c.up);
      FadedRoot(c, t);
      if parent.parent != null {
        FadedShort(c, t, target);
        done, t1 := false, Faded(c, t);
      } else {
        FadedDone(m1, head.root, c, t, target);
        done, t1 := true, Zip(c.up, Faded(c, t));
      }
    }
  }

  lemma SibNotParent(m: Mem, root: Node?, c: Ctx, t: Tree)
    requires Focus(m, root, c, t) && c.Step? && c.sib.Fork?
    ensures c.sib.node != c.node
  {
    RootIn(c.sib);
  }

  lemma FadedRoot(c: Ctx, t: Tree)
    requires c.Step? && c.sib.Fork?
    ensures Root(Faded(c, t)) == c.node
  {
  }

  /** The way up of a removal. On the first round node is null and the subtree is empty. */
  method RepairRemove(head: Head, parent0: Node, ghost m0: Mem, ghost c0: Ctx, ghost target: seq<Node>)
    returns (ghost m: Mem, ghost t1: Tree)
    requires Mirrors(m0) && Focus(m0, head.root, c0, Leaf) && Short(c0, Leaf, target) && c0.Step? && parent0 == c0.node
    modifies head, m0.Keys
    ensures Mirrors(m) && m.Keys == m0.Keys && Repaired(m, head.root, t1, target, FootC(c0) + Foot(Leaf))
  {
    hide *;
    var node: Node?, parent := null, parent0;
    m := m0;
    ghost var c, t := c0, Leaf;
    RootIs(Leaf);
    while true
      invariant Mirrors(m) && m.Keys == m0.Keys && Focus(m, head.root, c, t) && Short(c, t, target)
      invariant c.Step? && parent == c.node && node == Root(t) && FootC(c) + Foot(t) == FootC(c0) + Foot(Leaf)
      decreases c
    {
      Sibling(m, head.root, c, t, target);
      PeekChild(m, parent, 0);
      PeekChild(m, parent, 1);
      var dir := 0;
      var sibling := parent.Child(1);
      if node == sibling {
        dir := 1;
        sibling := parent.Child(0);
      }
      PeekChild(m, sibling, 0);
      ghost var c1 := c;
      if sibling.tag == RED {
        m := LowerParent(head, parent, sibling, dir, parent.tag, m, c, t, target);
        c1 := LoweredCtx(c);
        LoweredIs(c);
        Sibling(m, head.root, c1, t, target);
        PeekChild(m, parent, 1 - dir);
        sibling := parent.Child(1 - dir);
      }
      var done;
      ghost var n, u;
      done, n, u := RepairBlack(head, parent, sibling, dir, m, c1, t, target);
      m, t1 := n, u;
      if done {
        break;
      }
      Colors();
      RootIs(u);
      TreeFocus(m, head.root, c.up, u);
      OwnerIs(c.up);
      node := parent;
      PeekChild(m, parent, 0);
      parent := parent.parent;
      c, t := c.up, u;
    }
  }

  lemma Colors()
    ensures RED != BLACK
  {
  }

  lemma LoweredIs(c: Ctx)
    requires c.Step? && c.sib.Fork? && c.dir <= 1
    ensures var c1 := LoweredCtx(c); c1.Step? && c1.node == c.node && c1.dir == c.dir
  {
  }
}
