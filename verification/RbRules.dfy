/** Red-black rules: no red node with a red child, and the same number of black nodes on all paths down. */
module RbRules {
  import opened BinaryTree
  import opened BinaryTurn
  import opened BinarySplice

  const RED: int := 0
  const BLACK: int := 1

  ghost predicate Red(t: Tree) {
    t.Fork? && t.tag == RED
  }

  /** The number of black nodes on the way down to a leaf. */
  ghost function BlackHeight(t: Tree): int {
    if t == Leaf then 0 else BlackHeight(t.left) + t.tag
  }

  ghost predicate Rb(t: Tree) {
    t == Leaf ||
    ((t.tag == RED || t.tag == BLACK) && (t.tag == RED ==> !Red(t.left) && !Red(t.right)) &&
     BlackHeight(t.left) == BlackHeight(t.right) && Rb(t.left) && Rb(t.right))
  }

  /** A whole tree: its root is black, too. */
  ghost predicate RbTree(t: Tree) {
    Rb(t) && !Red(t)
  }

  /** The way up from a hole for a subtree of this black height, red only if a red one is allowed. */
  ghost predicate RbC(c: Ctx, h: int) {
    c == Top ||
    ((c.tag == RED || c.tag == BLACK) && Rb(c.sib) && BlackHeight(c.sib) == h &&
     (c.tag == RED ==> !Red(c.sib) && RedFits(c.up)) && RbC(c.up, h + c.tag))
  }

  /** A red subtree may hang here. */
  ghost predicate RedFits(c: Ctx) {
    c.Step? && c.tag == BLACK
  }

  lemma RbMk(dir: nat, a: Tree, n: Node, tag: int, b: Tree)
    ensures Rb(Mk(dir, a, n, tag, b)) <==>
      (tag == RED || tag == BLACK) && (tag == RED ==> !Red(a) && !Red(b)) &&
      BlackHeight(a) == BlackHeight(b) && Rb(a) && Rb(b)
    ensures BlackHeight(a) == BlackHeight(b) ==> BlackHeight(Mk(dir, a, n, tag, b)) == BlackHeight(a) + tag
    ensures Red(Mk(dir, a, n, tag, b)) <==> tag == RED
  {
  }

  lemma {:induction false} ZipRb(c: Ctx, t: Tree)
    ensures RbTree(Zip(c, t)) <==> RbC(c, BlackHeight(t)) && Rb(t) && (Red(t) ==> RedFits(c))
  {
    if c.Step? {
      ZipRb(c.up, Mk(c.dir, t, c.node, c.tag, c.sib));
      RbMk(c.dir, t, c.node, c.tag, c.sib);
    }
  }

  /** A valid red-black tree in memory that reads target. */
  ghost predicate Good(m: Mem, root: Node?, t: Tree, target: seq<Node>) {
    Linked(m, t, null) && Root(t) == root && Apart(t) && RbTree(t) && InOrder(t) == target
  }

  ghost predicate Repaired(m: Mem, root: Node?, t: Tree, target: seq<Node>, foot: set<Node>) {
    Good(m, root, t, target) && Foot(t) == foot
  }

  lemma ZipGood(m: Mem, root: Node?, c: Ctx, t: Tree, target: seq<Node>)
    requires Focus(m, root, c, t) && RbC(c, BlackHeight(t)) && Rb(t) && (Red(t) ==> RedFits(c))
    requires Pre(c) + InOrder(t) + Post(c) == target
    ensures Repaired(m, root, Zip(c, t), target, FootC(c) + Foot(t))
  {
    ZipLinked(m, root, c, t);
    ZipApart(c, t);
    ZipRb(c, t);
    ZipInOrder(c, t);
  }

  // ---------------------------------------------------------------- recolouring

  /** The root of the focus changes its colour. */
  lemma Recolored(m: Mem, m1: Mem, root: Node?, c: Ctx, t: Tree, tag: int)
    requires Focus(m, root, c, t) && t.Fork? && t.node in m && m1 == m[t.node := m[t.node].(tag := tag)]
    ensures Focus(m1, root, c, t.(tag := tag)) && m1.Keys == m.Keys
    ensures InOrder(t.(tag := tag)) == InOrder(t) && Foot(t.(tag := tag)) == Foot(t)
  {
    LinkedFrame(m, m1, t.left, t.node);
    LinkedFrame(m, m1, t.right, t.node);
    LinkedCFrame(m, m1, root, c, t.node);
  }

  /** The root of the sibling changes its colour. */
  lemma RecoloredSib(m: Mem, m1: Mem, root: Node?, c: Ctx, t: Tree, tag: int)
    requires Focus(m, root, c, t) && c.Step? && c.sib.Fork? && c.sib.node in m
    requires m1 == m[c.sib.node := m[c.sib.node].(tag := tag)]
    ensures var c1 := c.(sib := c.sib.(tag := tag));
      Focus(m1, root, c1, t) && Pre(c1) == Pre(c) && Post(c1) == Post(c) && FootC(c1) == FootC(c)
    ensures m1.Keys == m.Keys
  {
    var s := c.sib;
    RootIn(s);
    LinkedFrame(m, m1, t, Owner(c));
    LinkedFrame(m, m1, s.left, s.node);
    LinkedFrame(m, m1, s.right, s.node);
    LinkedCFrame(m, m1, root, c.up, c.node);
  }

  // ---------------------------------------------------------------- turning at a node

  /** A turn with its link from above: c takes the place of n, with new colours for both. */
  lemma TurnedFocus(m: Mem, m1: Mem, root: Node?, root1: Node?, up: Ctx, dir: nat, a: Tree, n: Node, tag: int, b: Tree, c: Node,
                    ctag: int, d: Tree, tag1: int, ctag1: int, m2: Mem, m3: Mem)
    requires dir <= 1 && Focus(m, root, up, Mk(dir, a, n, tag, Mk(dir, b, c, ctag, d)))
    requires Turned(m, m1, dir, a, n, b, c, d, tag1, ctag1)
    requires m2.Keys == m1.Keys && Agree(m1, m2, m1.Keys - FootC(up)) && LinkedC(m2, root1, up, c)
    requires c in m2 && m3 == m2[c := m2[c].(parent := Owner(up))]
    ensures Focus(m3, root1, up, Mk(dir, Mk(dir, a, n, tag1, b), c, ctag1, d)) && m3.Keys == m.Keys
  {
    var s, r := Mk(dir, a, n, tag, Mk(dir, b, c, ctag, d)), Mk(dir, Mk(dir, a, n, tag1, b), c, ctag1, d);
    FocusParts(m, root, up, s);
    TurnSame(dir, a, n, tag, b, c, ctag, d, tag1, ctag1);
    SameParts(s, r);
    RootInMk(dir, Mk(dir, a, n, tag1, b), c, ctag1, d);
    hide Focus, Mk, Linked, LinkedC, Apart, ApartC, InOrder, Turned, Same, Foot, FootC;
    TurnLinked(m, m1, dir, a, n, tag, b, c, ctag, d, Owner(up), tag1, ctag1);
    LinkedFrame(m1, m2, r, n);
    Reparent(m2, m3, r, n, Owner(up));
    LinkedCFrame(m2, m3, root1, up, c);
    FoldFocus(m3, root1, up, r);
  }

  lemma SameParts(s: Tree, t: Tree)
    requires Same(s, t)
    ensures InOrder(s) == InOrder(t) && Foot(s) == Foot(t) && (Apart(s) <==> Apart(t))
  {
  }

  lemma RootInMk(dir: nat, a: Tree, n: Node, tag: int, b: Tree)
    ensures n in Foot(Mk(dir, a, n, tag, b)) && Root(Mk(dir, a, n, tag, b)) == n
  {
  }

  lemma FoldFocus(m: Mem, root: Node?, c: Ctx, t: Tree)
    requires LinkedC(m, root, c, Root(t)) && Linked(m, t, Owner(c)) && ApartC(c) && Apart(t) && FootC(c) !! Foot(t)
    ensures Focus(m, root, c, t)
  {
  }

  lemma TurnReady(m: Mem, root: Node?, up: Ctx, dir: nat, a: Tree, n: Node, tag: int, b: Tree, c: Node, ctag: int, d: Tree)
    requires dir <= 1 && Focus(m, root, up, Mk(dir, a, n, tag, Mk(dir, b, c, ctag, d)))
    ensures n in m && c in m && n != c && m[c].Child(dir) == Root(b) && m[n].parent == Owner(up)
    ensures Root(b) != null ==> Root(b) in m && Root(b) != n && Root(b) != c
    ensures b.Fork? ==> b.node != n && b.node != c
    ensures m[n].Child(dir) == Root(a) && m[n].Child(1 - dir) == c && m[c].Child(1 - dir) == Root(d)
    ensures LinkedC(m, root, up, n) && ApartC(up) && n !in FootC(up) && c !in FootC(up)
    ensures Root(b) != null ==> Root(b) !in FootC(up)
  {
    var s := Mk(dir, a, n, tag, Mk(dir, b, c, ctag, d));
    TurnNodes(m, dir, a, n, tag, b, c, ctag, d, Owner(up));
    LinkedMk(m, dir, a, n, tag, Mk(dir, b, c, ctag, d), Owner(up));
    MkParts(dir, a, n, tag, Mk(dir, b, c, ctag, d));
    MkParts(dir, b, c, ctag, d);
    RootInFoot(b);
    hide Linked, Apart, Mk, Foot, LinkedC, ApartC, FootC;
  }

  /** The memory as if child's parent pointer were n; a turn does not look at it, and sets it in the end. */
  ghost function Hung(m: Mem, child: Node, n: Node): Mem
    requires child in m
  {
    m[child := m[child].(parent := n)]
  }

  lemma HungTurned(m: Mem, n1: Mem, n2: Mem, dir: nat, a: Tree, n: Node, b: Tree, c: Node, d: Tree, tag1: int, ctag1: int)
    requires dir <= 1 && n in m && c in m && n != c && Repointed(m, n1, dir, n, c, Root(b)) && n2.Keys == n1.Keys
    requires b.Fork? ==> b.node != n && b.node != c
    requires m[n].Child(dir) == Root(a) && m[c].Child(1 - dir) == Root(d)
    requires n2[n] == n1[n].(tag := tag1) && n2[c] == n1[c].(tag := ctag1)
    requires forall x :: x in n1 && x != n && x != c ==> n2[x] == n1[x]
    ensures c in n2 && Turned(Hung(m, c, n), Hung(n2, c, n), dir, a, n, b, c, d, tag1, ctag1) && n2.Keys == m.Keys
  {
  }

  lemma HungPath(m: Mem, n2: Mem, n3: Mem, m1: Mem, root: Node?, root1: Node?, up: Ctx, n: Node, c: Node)
    requires c in n2 && c !in FootC(up) && n3.Keys == n2.Keys && Agree(n2, n3, n2.Keys - FootC(up)) && LinkedC(n3, root1, up, c)
    requires m1 == n3[c := n3[c].(parent := Owner(up))]
    ensures Hung(n3, c, n).Keys == Hung(n2, c, n).Keys
    ensures Agree(Hung(n2, c, n), Hung(n3, c, n), Hung(n2, c, n).Keys - FootC(up)) && LinkedC(Hung(n3, c, n), root1, up, c)
    ensures m1 == Hung(n3, c, n)[c := Hung(n3, c, n)[c].(parent := Owner(up))]
  {
    LinkedCFrame(n3, Hung(n3, c, n), root1, up, c);
  }

  lemma HungReady(m: Mem, root: Node?, up: Ctx, n: Node, c: Node)
    requires n in m && c in m && n != c && c !in FootC(up)
    ensures Hung(m, c, n).Keys == m.Keys && Hung(m, c, n)[n] == m[n]
    ensures forall d :: Hung(m, c, n)[c].Child(d) == m[c].Child(d)
    ensures LinkedC(Hung(m, c, n), root, up, n) ==> LinkedC(m, root, up, n)
  {
    if LinkedC(Hung(m, c, n), root, up, n) {
      LinkedCFrame(Hung(m, c, n), m, root, up, n);
    }
  }

  lemma TurnPath(m: Mem, n1: Mem, n2: Mem, root: Node?, up: Ctx, dir: nat, n: Node, c: Node, b: Node?)
    requires dir <= 1 && Repointed(m, n1, dir, n, c, b) && n2.Keys == n1.Keys
    requires forall x :: x in n1 && x != n && x != c ==> n2[x] == n1[x]
    requires LinkedC(m, root, up, n) && n !in FootC(up) && c !in FootC(up) && (b != null ==> b !in FootC(up))
    ensures LinkedC(n2, root, up, n) && n2.Keys == m.Keys
  {
    LinkedCFrame(m, n2, root, up, n);
  }

  /** Turns node's child to node's place in the whole tree, and recolours both. The child's parent pointer may be stale. */
  method TurnUp(head: Head, node: Node, child: Node, dir: nat, tag1: int, ctag1: int, ghost m: Mem, ghost up: Ctx,
                ghost a: Tree, ghost tag: int, ghost b: Tree, ghost ctag: int, ghost d: Tree)
    returns (ghost m1: Mem)
    requires dir <= 1 && Mirrors(m) && child in m
    requires Focus(Hung(m, child, node), head.root, up, Mk(dir, a, node, tag, Mk(dir, b, child, ctag, d)))
    modifies head, m.Keys
    ensures Mirrors(m1) && m1.Keys == m.Keys
    ensures Focus(m1, head.root, up, Mk(dir, Mk(dir, a, node, tag1, b), child, ctag1, d))
  {
    hide *;
    ghost var root, mv := head.root, Hung(m, child, node);
    assert mv.Keys == m.Keys by {
      HungKeys(m, child, node);
    }
    TurnReady(mv, root, up, dir, a, node, tag, b, child, ctag, d);
    HungReady(m, root, up, node, child);
    PeekChild(m, node, dir);
    var above := node.parent;
    ghost var n1 := Turn(node, child, dir, m);
    RepointedTag(m, n1, dir, node, child, Root(b));
    ghost var n2 := SetTags(node, tag1, child, ctag1, n1);
    HungTurned(m, n1, n2, dir, a, node, b, child, d, tag1, ctag1);
    TurnPath(m, n1, n2, root, up, dir, node, child, Root(b));
    OwnerIn(n2, root, up, node);
    ghost var n3 := ChangeChild(node, child, above, head, n2, up);
    m1 := SetParent(child, above, n3);
    HungPath(m, n2, n3, m1, root, head.root, up, node, child);
    TurnedFocus(mv, Hung(n2, child, node), root, head.root, up, dir, a, node, tag, b, child, ctag, d, tag1, ctag1,
                Hung(n3, child, node), m1);
  }

  lemma HungKeys(m: Mem, child: Node, n: Node)
    requires child in m
    ensures Hung(m, child, n).Keys == m.Keys
  {
  }

  /** Nothing is stale. */
  lemma NotStale(m: Mem, root: Node?, up: Ctx, dir: nat, a: Tree, n: Node, tag: int, b: Tree, c: Node, ctag: int, d: Tree)
    requires dir <= 1 && Focus(m, root, up, Mk(dir, a, n, tag, Mk(dir, b, c, ctag, d)))
    ensures c in m && Hung(m, c, n) == m
  {
    LinkedMk(m, dir, a, n, tag, Mk(dir, b, c, ctag, d), Owner(up));
    LinkedMk(m, dir, b, c, ctag, d, n);
  }
}
