/** The red-black tree: repair after a red node has been linked in. */
module RbInsert {
  import opened BinaryTree
  import opened BinaryTurn
  import opened BinarySplice
  import opened RbRules

  /** The subtree in focus is valid and red; its parent may be red, too, and that is all that can be wrong. */
  ghost predicate RedHot(c: Ctx, t: Tree, target: seq<Node>) {
    Red(t) && Rb(t) && RbC(c, BlackHeight(t)) && Pre(c) + InOrder(t) + Post(c) == target
  }

  lemma StepRules(c: Ctx, h: int)
    requires RbC(c, h) && c.Step?
    ensures (c.tag == RED || c.tag == BLACK) && Rb(c.sib) && BlackHeight(c.sib) == h && RbC(c.up, h + c.tag)
    ensures c.tag == RED ==> !Red(c.sib) && RedFits(c.up)
  {
  }

  lemma SubRules(t: Tree)
    requires Rb(t) && t.Fork?
    ensures t.tag == RED || t.tag == BLACK
    ensures Rb(t.(tag := BLACK)) && BlackHeight(t.(tag := BLACK)) == BlackHeight(t) - t.tag + 1
  {
  }

  /** Below a red parent there is a black grandparent. */
  lemma Grandparent(m: Mem, root: Node?, c: Ctx, t: Tree, target: seq<Node>)
    requires Focus(m, root, c, t) && RedHot(c, t, target) && c.Step? && c.tag == RED
    ensures c.up.Step? && c.up.tag == BLACK && c.up.dir <= 1 && c.dir <= 1 && c.up.node in m && c.node in m
    ensures m[c.node].parent == c.up.node && m[c.up.node].parent == Owner(c.up.up)
    ensures m[c.up.node].Child(c.up.dir) == c.node && m[c.up.node].Child(1 - c.up.dir) == Root(c.up.sib)
    ensures c.node != Root(c.up.sib) && (Root(c.up.sib) == null <==> c.up.sib == Leaf)
    ensures c.up.sib.Fork? ==> c.up.sib.node in m && m[c.up.sib.node].tag == c.up.sib.tag
    ensures c.up.sib.Fork? ==> c.up.sib.tag == RED || c.up.sib.tag == BLACK
    ensures m[c.node].Child(c.dir) == Root(t) && m[c.node].Child(1 - c.dir) == Root(c.sib) && Root(t) != Root(c.sib)
  {
    FocusUp(m, root, c, t);
    FocusFacts(m, root, c, t);
    FocusFacts(m, root, c.up, Mk(c.dir, t, c.node, c.tag, c.sib));
    RootIs(t);
    StepRules(c, BlackHeight(t));
    StepRules(c.up, BlackHeight(t));
    if c.up.sib.Fork? {
      SubRules(c.up.sib);
    }
    hide Focus, Rb, RbC, Red;
  }

  lemma InHand(m: Mem, root: Node?, c: Ctx, t: Tree, target: seq<Node>)
    requires Focus(m, root, c, t) && RedHot(c, t, target) && c.Step?
    ensures c.node in m && m[c.node].tag == c.tag && (c.tag == RED || c.tag == BLACK) && t.Fork? && t.node in m
  {
    FocusFacts(m, root, c, t);
    TreeNode(m, t, Owner(c));
  }

  /** A black parent: nothing is wrong. */
  lemma Cool(m: Mem, root: Node?, c: Ctx, t: Tree, target: seq<Node>)
    requires Focus(m, root, c, t) && RedHot(c, t, target) && c.Step? && c.tag == BLACK
    ensures Repaired(m, root, Zip(c, t), target, FootC(c) + Foot(t))
  {
    ZipGood(m, root, c, t, target);
  }

  // ---------------------------------------------------------------- a red uncle

  /** Parent and uncle get black, the grandparent red. */
  ghost function PushedUp(c: Ctx, t: Tree): Tree
    requires c.Step? && c.up.Step? && c.up.sib.Fork?
  {
    Mk(c.up.dir, Mk(c.dir, t, c.node, BLACK, c.sib), c.up.node, RED, c.up.sib.(tag := BLACK))
  }

  lemma PushedUpRules(c: Ctx, t: Tree, target: seq<Node>)
    requires RedHot(c, t, target) && c.Step? && c.tag == RED && c.up.Step? && c.up.sib.Fork? && c.up.sib.tag == RED
    ensures Rb(PushedUp(c, t)) && Red(PushedUp(c, t)) && RbC(c.up.up, BlackHeight(PushedUp(c, t)))
  {
    var u := c.up;
    StepRules(c, BlackHeight(t));
    StepRules(u, BlackHeight(t));
    SubRules(u.sib);
    RbMk(c.dir, t, c.node, BLACK, c.sib);
    RbMk(u.dir, Mk(c.dir, t, c.node, BLACK, c.sib), u.node, RED, u.sib.(tag := BLACK));
    hide Mk;
  }

  lemma PushedUpFocus(m: Mem, n1: Mem, n2: Mem, n3: Mem, root: Node?, c: Ctx, t: Tree)
    requires Focus(m, root, c, t) && c.Step? && c.up.Step? && c.up.sib.Fork? && c.node in m && c.up.node in m && c.up.sib.node in m
    requires n1 == m[c.node := m[c.node].(tag := BLACK)] && n2 == n1[c.up.sib.node := n1[c.up.sib.node].(tag := BLACK)]
    requires n3 == n2[c.up.node := n2[c.up.node].(tag := RED)]
    ensures Focus(n3, root, c.up.up, PushedUp(c, t)) && n3.Keys == m.Keys
    ensures Pre(c.up.up) + InOrder(PushedUp(c, t)) + Post(c.up.up) == Pre(c) + InOrder(t) + Post(c)
    ensures FootC(c.up.up) + Foot(PushedUp(c, t)) == FootC(c) + Foot(t)
  {
    Retag(m, n1, root, c, t, BLACK);
    RetagOrder(c, BLACK);
    var c1 := c.(tag := BLACK);
    hide Focus, Pre, Post, FootC, InOrder, Foot, Mk;
    FocusUp(n1, root, c1, t);
    var p := Mk(c.dir, t, c.node, BLACK, c.sib);
    RecoloredSib(n1, n2, root, c.up, p, BLACK);
    var u1 := c.up.(sib := c.up.sib.(tag := BLACK));
    Retag(n2, n3, root, u1, p, RED);
    RetagOrder(u1, RED);
    FocusUp(n3, root, u1.(tag := RED), p);
  }

  /** Parent, uncle and grandparent change colour; the red grandparent may now be the problem. */
  method PushUp(parent: Node, uncle: Node, grandparent: Node, ghost m: Mem, ghost root: Node?, ghost c: Ctx, ghost t: Tree,
                ghost target: seq<Node>)
    returns (ghost m1: Mem)
    requires Mirrors(m) && Focus(m, root, c, t) && RedHot(c, t, target) && c.Step? && c.tag == RED
    requires c.up.Step? && c.up.sib.Fork? && c.up.sib.tag == RED
    requires {c.node, c.up.node, c.up.sib.node} <= m.Keys
    requires parent == c.node && uncle == c.up.sib.node && grandparent == c.up.node
    modifies m.Keys
    ensures Mirrors(m1) && m1.Keys == m.Keys
    ensures Focus(m1, root, c.up.up, PushedUp(c, t)) && RedHot(c.up.up, PushedUp(c, t), target)
    ensures FootC(c.up.up) + Foot(PushedUp(c, t)) == FootC(c) + Foot(t)
  {
    hide *;
    ghost var n1 := SetTag(parent, BLACK, m);
    ghost var n2 := SetTag(uncle, BLACK, n1);
    m1 := SetTag(grandparent, RED, n2);
    PushedUpFocus(m, n1, n2, m1, root, c, t);
    PushedUpHot(c, t, target);
  }

  lemma PushedUpHot(c: Ctx, t: Tree, target: seq<Node>)
    requires RedHot(c, t, target) && c.Step? && c.tag == RED && c.up.Step? && c.up.sib.Fork? && c.up.sib.tag == RED
    requires Pre(c.up.up) + InOrder(PushedUp(c, t)) + Post(c.up.up) == Pre(c) + InOrder(t) + Post(c)
    ensures RedHot(c.up.up, PushedUp(c, t), target)
  {
    PushedUpRules(c, t, target);
    hide PushedUp, Rb, RbC, BlackHeight, Pre, Post, InOrder;
  }

  lemma PushedUpRoot(c: Ctx, t: Tree)
    requires c.Step? && c.up.Step? && c.up.sib.Fork?
    ensures PushedUp(c, t).Fork? && PushedUp(c, t).node == c.up.node && Root(PushedUp(c, t)) == c.up.node
  {
  }

  /** A red root is made black. */
  lemma BlackRoot(m: Mem, m1: Mem, root: Node?, c: Ctx, t: Tree, target: seq<Node>)
    requires Focus(m, root, c, t) && RedHot(c, t, target) && Owner(c) == null
    requires t.Fork? && t.node in m && m1 == m[t.node := m[t.node].(tag := BLACK)]
    ensures Repaired(m1, root, Zip(c, t.(tag := BLACK)), target, FootC(c) + Foot(t)) && m1.Keys == m.Keys
  {
    Recolored(m, m1, root, c, t, BLACK);
    ZipGood(m1, root, c, t.(tag := BLACK), target);
  }

  // ---------------------------------------------------------------- a black uncle

  lemma FlipMk(dir: nat, a: Tree, n: Node, tag: int, b: Tree)
    requires dir <= 1
    ensures Mk(dir, a, n, tag, b) == Mk(1 - dir, b, n, tag, a)
  {
  }

  /** The grandparent's subtree, seen for a turn in the direction r away from the two red nodes. */
  lemma OuterFocus(m: Mem, root: Node?, c: Ctx, t: Tree)
    requires Focus(m, root, c, t) && c.Step? && c.up.Step? && c.up.dir <= 1 && c.dir == c.up.dir
    ensures var u, r := c.up, 1 - c.up.dir;
      Focus(m, root, u.up, Mk(r, u.sib, u.node, u.tag, Mk(r, c.sib, c.node, c.tag, t)))
    ensures var u, r := c.up, 1 - c.up.dir;
      var s := Mk(r, u.sib, u.node, u.tag, Mk(r, c.sib, c.node, c.tag, t));
      Pre(u.up) + InOrder(s) + Post(u.up) == Pre(c) + InOrder(t) + Post(c) && FootC(u.up) + Foot(s) == FootC(c) + Foot(t)
  {
    var u := c.up;
    FocusUp(m, root, c, t);
    var p := Mk(c.dir, t, c.node, c.tag, c.sib);
    FocusUp(m, root, u, p);
    FlipMk(c.dir, t, c.node, c.tag, c.sib);
    FlipMk(u.dir, p, u.node, u.tag, u.sib);
    hide Mk, Focus, Pre, Post, FootC, InOrder, Foot;
  }

  ghost function OuterResult(c: Ctx, t: Tree): Tree
    requires c.Step? && c.up.Step? && c.up.dir <= 1
  {
    var u, r := c.up, 1 - c.up.dir;
    Mk(r, Mk(r, u.sib, u.node, RED, c.sib), c.node, BLACK, t)
  }

  lemma OuterRules(c: Ctx, t: Tree, target: seq<Node>)
    requires RedHot(c, t, target) && c.Step? && c.tag == RED && c.up.Step? && c.up.dir <= 1 && c.up.tag == BLACK && !Red(c.up.sib)
    ensures Rb(OuterResult(c, t)) && !Red(OuterResult(c, t)) && RbC(c.up.up, BlackHeight(OuterResult(c, t)))
  {
    var u, r := c.up, 1 - c.up.dir;
    StepRules(c, BlackHeight(t));
    StepRules(u, BlackHeight(t));
    RbMk(r, u.sib, u.node, RED, c.sib);
    RbMk(r, Mk(r, u.sib, u.node, RED, c.sib), c.node, BLACK, t);
    hide Mk;
  }

  /** Turns the red parent to the grandparent's place. */
  method TurnOuter(head: Head, parent: Node, grandparent: Node, leftDir: nat, ghost m: Mem, ghost c: Ctx, ghost t: Tree, ghost target: seq<Node>)
    returns (ghost m1: Mem, ghost t1: Tree)
    requires Mirrors(m) && c.Step? && c.up.Step? && c.up.dir <= 1 && leftDir == c.up.dir == c.dir
    requires c.node in m && Focus(Hung(m, c.node, c.up.node), head.root, c, t)
    requires RedHot(c, t, target) && c.tag == RED && c.up.tag == BLACK && !Red(c.up.sib)
    requires parent == c.node && grandparent == c.up.node
    modifies head, m.Keys
    ensures Mirrors(m1) && m1.Keys == m.Keys && Repaired(m1, head.root, t1, target, FootC(c) + Foot(t))
  {
    hide *;
    ghost var u := c.up;
    var r := 1 - leftDir;
    OuterFocus(Hung(m, parent, grandparent), head.root, c, t);
    m1 := TurnUp(head, grandparent, parent, r, RED, BLACK, m, u.up, u.sib, BLACK, c.sib, RED, t);
    OuterRules(c, t, target);
    OuterIs(c, t);
    TurnSame(r, u.sib, grandparent, BLACK, c.sib, parent, RED, t, RED, BLACK);
    OuterDone(m1, head.root, c, t, target, Mk(r, u.sib, grandparent, BLACK, Mk(r, c.sib, parent, RED, t)));
    t1 := Zip(u.up, OuterResult(c, t));
  }

  lemma OuterIs(c: Ctx, t: Tree)
    requires c.Step? && c.up.Step? && c.up.dir <= 1
    ensures var u, r := c.up, 1 - c.up.dir;
      OuterResult(c, t) == Mk(r, Mk(r, u.sib, u.node, RED, c.sib), c.node, BLACK, t)
  {
  }

  lemma OuterDone(m: Mem, root: Node?, c: Ctx, t: Tree, target: seq<Node>, s: Tree)
    requires c.Step? && c.up.Step? && c.up.dir <= 1 && Focus(m, root, c.up.up, OuterResult(c, t)) && RedHot(c, t, target)
    requires Rb(OuterResult(c, t)) && !Red(OuterResult(c, t)) && RbC(c.up.up, BlackHeight(OuterResult(c, t)))
    requires Same(s, OuterResult(c, t)) && Pre(c.up.up) + InOrder(s) + Post(c.up.up) == Pre(c) + InOrder(t) + Post(c)
    requires FootC(c.up.up) + Foot(s) == FootC(c) + Foot(t)
    ensures Repaired(m, root, Zip(c.up.up, OuterResult(c, t)), target, FootC(c) + Foot(t))
  {
    hide OuterResult, Rb, RbC, BlackHeight, Pre, Post, FootC, Foot, Zip, Focus;
    ZipGood(m, root, c.up.up, OuterResult(c, t), target);
  }

  // ---------------------------------------------------------------- the inner grandchild

  /** The way up after the inner grandchild has been turned to its parent's place. */
  ghost function InnerCtx(c: Ctx, t: Tree): Ctx
    requires c.Step? && c.up.Step? && c.up.dir <= 1 && t.Fork?
  {
    Step(t.node, RED, c.up.dir, Side(t, 1 - c.up.dir), c.up)
  }

  /** The parent's subtree then. */
  ghost function InnerTree(c: Ctx, t: Tree): Tree
    requires c.Step? && c.up.Step? && c.up.dir <= 1 && t.Fork?
  {
    Mk(c.up.dir, c.sib, c.node, RED, Side(t, c.up.dir))
  }

  /** The parent's subtree as it is before, seen for a turn in direction l. */
  lemma InnerFocus(m: Mem, root: Node?, c: Ctx, t: Tree)
    requires Focus(m, root, c, t) && c.Step? && c.up.Step? && c.up.dir <= 1 && c.dir == 1 - c.up.dir && t.Fork? && t.tag == RED && c.tag == RED
    ensures var l := c.up.dir;
      var s := Mk(l, c.sib, c.node, RED, Mk(l, Side(t, l), t.node, RED, Side(t, 1 - l)));
      Focus(m, root, c.up, s) && Pre(c.up) + InOrder(s) + Post(c.up) == Pre(c) + InOrder(t) + Post(c) &&
      FootC(c.up) + Foot(s) == FootC(c) + Foot(t)
  {
    FocusUp(m, root, c, t);
    FlipMk(c.dir, t, c.node, c.tag, c.sib);
    MkSides(t, c.up.dir);
    hide Mk, Focus, Pre, Post, FootC, InOrder, Foot;
  }

  /** After a turn, the link from above is moved on to the child. */
  lemma InnerLink(m: Mem, n1: Mem, n2: Mem, root: Node?, u: Ctx, l: nat, a: Tree, n: Node, ntag: int, b: Tree, c: Node, ctag: int, d: Tree)
    requires l <= 1 && u.Step? && Focus(m, root, u, Mk(l, a, n, ntag, Mk(l, b, c, ctag, d)))
    requires Repointed(m, n1, l, n, c, Root(b)) && u.node in n1 && n2 == n1[u.node := n1[u.node].WithChild(u.dir, c)]
    ensures c in n2 && Turned(m, n1, l, a, n, b, c, d, ntag, ctag) && n2.Keys == n1.Keys == m.Keys
    ensures Agree(n1, n2, n1.Keys - FootC(u)) && LinkedC(n2, root, u, c)
  {
    TurnReady(m, root, u, l, a, n, ntag, b, c, ctag, d);
    TagsAre(m, root, u, l, a, n, ntag, b, c, ctag, d);
    CtxNode(u);
    hide Focus, Mk, LinkedC, FootC, ApartC;
    TurnedCells(m, n1, n1, l, a, n, b, c, d, ntag, ctag);
    TurnPath(m, n1, n1, root, u, l, n, c, Root(b));
    HoleChanged(n1, n2, root, u, n, c);
  }

  lemma TagsAre(m: Mem, root: Node?, u: Ctx, l: nat, a: Tree, n: Node, ntag: int, b: Tree, c: Node, ctag: int, d: Tree)
    requires l <= 1 && Focus(m, root, u, Mk(l, a, n, ntag, Mk(l, b, c, ctag, d)))
    ensures n in m && c in m && m[n].tag == ntag && m[c].tag == ctag
  {
    LinkedMk(m, l, a, n, ntag, Mk(l, b, c, ctag, d), Owner(u));
    LinkedMk(m, l, b, c, ctag, d, n);
  }

  lemma InnerTurned(m: Mem, n1: Mem, n2: Mem, root: Node?, c: Ctx, t: Tree, target: seq<Node>)
    requires Focus(m, root, c, t) && RedHot(c, t, target) && c.Step? && c.tag == RED && c.up.Step? && c.up.dir <= 1 && c.dir == 1 - c.up.dir
    requires t.Fork? && t.node in m && c.node in m && Repointed(m, n1, c.up.dir, c.node, t.node, Root(Side(t, c.up.dir)))
    requires c.up.node in n1 && n2 == n1[c.up.node := n1[c.up.node].WithChild(c.up.dir, t.node)]
    ensures t.node in n2 && n2.Keys == m.Keys && Focus(Hung(n2, t.node, c.up.node), root, InnerCtx(c, t), InnerTree(c, t))
    ensures Pre(InnerCtx(c, t)) + InOrder(InnerTree(c, t)) + Post(InnerCtx(c, t)) == target
    ensures FootC(InnerCtx(c, t)) + Foot(InnerTree(c, t)) == FootC(c) + Foot(t)
  {
    RedIs(c, t, target);
    InnerFocus(m, root, c, t);
    var l, u := c.up.dir, c.up;
    var s := Mk(l, c.sib, c.node, RED, Mk(l, Side(t, l), t.node, RED, Side(t, 1 - l)));
    var r := Mk(l, InnerTree(c, t), t.node, RED, Side(t, 1 - l));
    InnerSides(c, t);
    hide *;
    InnerLink(m, n1, n2, root, u, l, c.sib, c.node, RED, Side(t, l), t.node, RED, Side(t, 1 - l));
    OwnerIs(u);
    HungIs(n2, t.node, u.node);
    TurnedFocus(m, n1, root, root, u, l, c.sib, c.node, RED, Side(t, l), t.node, RED, Side(t, 1 - l), RED, RED, n2, Hung(n2, t.node, u.node));
    FocusDown(Hung(n2, t.node, u.node), root, u, r, l);
    TurnSame(l, c.sib, c.node, RED, Side(t, l), t.node, RED, Side(t, 1 - l), RED, RED);
    SameParts(s, r);
  }

  lemma HungIs(m: Mem, child: Node, n: Node)
    requires child in m
    ensures Hung(m, child, n) == m[child := m[child].(parent := n)]
  {
  }

  lemma InnerSides(c: Ctx, t: Tree)
    requires c.Step? && c.up.Step? && c.up.dir <= 1 && t.Fork?
    ensures var l := c.up.dir;
      var r := Mk(l, InnerTree(c, t), t.node, RED, Side(t, 1 - l));
      r.Fork? && r.node == t.node && r.tag == RED && Side(r, l) == InnerTree(c, t) && Side(r, 1 - l) == Side(t, 1 - l) &&
      InnerCtx(c, t) == Step(t.node, RED, l, Side(t, 1 - l), c.up) &&
      InnerTree(c, t) == Mk(l, c.sib, c.node, RED, Side(t, l))
  {
  }

  lemma RedIs(c: Ctx, t: Tree, target: seq<Node>)
    requires RedHot(c, t, target)
    ensures t.Fork? && t.tag == RED && Pre(c) + InOrder(t) + Post(c) == target
  {
  }

  lemma InnerRules(c: Ctx, t: Tree, target: seq<Node>)
    requires RedHot(c, t, target) && c.Step? && c.tag == RED && c.up.Step? && c.up.dir <= 1 && t.Fork?
    requires Pre(InnerCtx(c, t)) + InOrder(InnerTree(c, t)) + Post(InnerCtx(c, t)) == target
    ensures RedHot(InnerCtx(c, t), InnerTree(c, t), target)
  {
    var l := c.up.dir;
    MkSides(t, l);
    RbMk(l, Side(t, l), t.node, t.tag, Side(t, 1 - l));
    RbMk(l, c.sib, c.node, RED, Side(t, l));
    InnerSides(c, t);
    InnerBlack(c, t);
    hide Mk, InnerTree, InOrder, Pre, Post;
  }

  lemma InnerBlack(c: Ctx, t: Tree)
    requires c.Step? && c.tag == RED && c.up.Step? && c.up.dir <= 1 && t.Fork? && RbC(c, BlackHeight(t))
    ensures !Red(c.sib) && Rb(c.sib) && BlackHeight(c.sib) == BlackHeight(t) && RedFits(c.up) && RbC(c.up, BlackHeight(t))
    ensures InnerCtx(c, t).Step? && InnerCtx(c, t).tag == RED && InnerCtx(c, t).up == c.up
    ensures InnerCtx(c, t).sib == Side(t, 1 - c.up.dir)
  {
  }

  /** Turns the grandchild to its parent's place; its own parent pointer is left as it is for now. */
  method TurnInner(node: Node, parent: Node, grandparent: Node, leftDir: nat, ghost m: Mem, ghost root: Node?, ghost c: Ctx, ghost t: Tree,
                   ghost target: seq<Node>)
    returns (ghost m1: Mem)
    requires Mirrors(m) && Focus(m, root, c, t) && RedHot(c, t, target) && c.Step? && c.tag == RED
    requires c.up.Step? && c.up.dir <= 1 && leftDir == c.up.dir && c.dir == 1 - leftDir
    requires t.Fork? && node == t.node && parent == c.node && grandparent == c.up.node && {t.node, c.node, c.up.node} <= m.Keys
    modifies m.Keys
    ensures Mirrors(m1) && m1.Keys == m.Keys && t.node in m1
    ensures Focus(Hung(m1, node, grandparent), root, InnerCtx(c, t), InnerTree(c, t)) && RedHot(InnerCtx(c, t), InnerTree(c, t), target)
    ensures FootC(InnerCtx(c, t)) + Foot(InnerTree(c, t)) == FootC(c) + Foot(t)
  {
    hide *;
    RedIs(c, t, target);
    InnerFocus(m, root, c, t);
    TurnReady(m, root, c.up, leftDir, c.sib, parent, RED, Side(t, leftDir), node, RED, Side(t, 1 - leftDir));
    ghost var n1 := Turn(parent, node, leftDir, m);
    RepointedTag(m, n1, leftDir, parent, node, Root(Side(t, leftDir)));
    m1 := SetChild(grandparent, leftDir, node, n1);
    InnerTurned(m, n1, m1, root, c, t, target);
    InnerRules(c, t, target);
  }

  // ---------------------------------------------------------------- the loop

  /** The way up of an insertion. */
  method RepairInsert(head: Head, node0: Node, parent0: Node, ghost m0: Mem, ghost c0: Ctx, ghost t0: Tree, ghost target: seq<Node>)
    returns (ghost m: Mem, ghost t1: Tree)
    requires Mirrors(m0) && Focus(m0, head.root, c0, t0) && RedHot(c0, t0, target)
    requires c0.Step? && parent0 == c0.node && node0 == Root(t0)
    modifies head, m0.Keys
    ensures Mirrors(m) && m.Keys == m0.Keys && Repaired(m, head.root, t1, target, FootC(c0) + Foot(t0))
  {
    hide *;
    var node, parent := node0, parent0;
    m := m0;
    ghost var c, t := c0, t0;
    while true
      invariant Mirrors(m) && m.Keys == m0.Keys && Focus(m, head.root, c, t) && RedHot(c, t, target)
      invariant c.Step? && parent == c.node && node == Root(t) && FootC(c) + Foot(t) == FootC(c0) + Foot(t0)
      decreases c
    {
      InHand(m, head.root, c, t, target);
      RootIs(t);
      PeekChild(m, parent, 0);
      if parent.tag == BLACK {
        Cool(m, head.root, c, t, target);
        t1 := Zip(c, t);
        break;
      }
      Grandparent(m, head.root, c, t, target);
      var grandparent := parent.parent;
      PeekChild(m, grandparent, 0);
      PeekChild(m, grandparent, 1);
      var dir := 1;
      var uncle := grandparent.Child(0);
      if parent == uncle {
        dir := 0;
        uncle := grandparent.Child(1);
      }
      RootIs(c.up.sib);
      if uncle != null {
        PeekChild(m, uncle, 0);
      }
      RedSib(c.up.sib);
      if uncle == null || uncle.tag == BLACK {
        m, t1 := TurnAway(head, node, parent, grandparent, dir, m, c, t, target);
        break;
      }
      m := PushUp(parent, uncle, grandparent, m, head.root, c, t, target);
      node := grandparent;
      PushedUpRoot(c, t);
      c, t := c.up.up, PushedUp(c, t);
      TreeFocus(m, head.root, c, t);
      PeekChild(m, node, 0);
      OwnerIs(c);
      if node.parent == null {
        ghost var n := SetTag(node, BLACK, m);
        BlackRoot(m, n, head.root, c, t, target);
        m, t1 := n, Zip(c, t.(tag := BLACK));
        break;
      }
      parent := node.parent;
    }
  }

  lemma TreeFocus(m: Mem, root: Node?, c: Ctx, t: Tree)
    requires Focus(m, root, c, t) && t.Fork?
    ensures t.node in m && m[t.node].parent == Owner(c)
    ensures Owner(c) != null ==> c.Step?
  {
    TreeNode(m, t, Owner(c));
  }

  lemma RedSib(t: Tree)
    ensures Red(t) <==> t.Fork? && t.tag == RED
    ensures Root(t) == null <==> t == Leaf
  {
  }

  /** With a black uncle, one or two rotations end the repair. */
  method TurnAway(head: Head, node: Node, parent: Node, grandparent: Node, leftDir: nat, ghost m: Mem, ghost c: Ctx, ghost t: Tree,
                  ghost target: seq<Node>)
    returns (ghost m1: Mem, ghost t1: Tree)
    requires Mirrors(m) && Focus(m, head.root, c, t) && RedHot(c, t, target) && c.Step? && c.tag == RED
    requires c.up.Step? && c.up.dir <= 1 && c.dir <= 1 && leftDir == c.up.dir && c.up.tag == BLACK && !Red(c.up.sib)
    requires t.Fork? && node == t.node && parent == c.node && grandparent == c.up.node && {t.node, c.node, c.up.node} <= m.Keys
    requires m[c.node].Child(c.dir) == node && m[c.node].Child(1 - c.dir) != node && m[c.node].parent == grandparent
    modifies head, m.Keys
    ensures Mirrors(m1) && m1.Keys == m.Keys && Repaired(m1, head.root, t1, target, FootC(c) + Foot(t))
  {
    hide *;
    PeekChild(m, parent, 1 - leftDir);
    if node == parent.Child(1 - leftDir) {
      ghost var n := TurnInner(node, parent, grandparent, leftDir, m, head.root, c, t, target);
      InnerCtxIs(c, t);
      m1, t1 := TurnOuter(head, node, grandparent, leftDir, n, InnerCtx(c, t), InnerTree(c, t), target);
    } else {
      HungSame(m, parent, grandparent);
      m1, t1 := TurnOuter(head, parent, grandparent, leftDir, m, c, t, target);
    }
  }

  lemma InnerCtxIs(c: Ctx, t: Tree)
    requires c.Step? && c.up.Step? && c.up.dir <= 1 && t.Fork?
    ensures var i := InnerCtx(c, t); i.Step? && i.up == c.up && i.dir == c.up.dir && i.node == t.node && i.tag == RED
  {
  }

  lemma HungSame(m: Mem, child: Node, n: Node)
    requires child in m && m[child].parent == n
    ensures Hung(m, child, n) == m
  {
  }
}
