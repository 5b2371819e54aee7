/** Intrusive binary trees with parent pointers, shared by the AVL tree and the red-black tree. */
module BinaryTree {

  /** A node; the tag is its balance or its colour, which the source packs into the parent pointer. */
  class Node {
    var left: Node?
    var right: Node?
    var parent: Node?
    var tag: int

    constructor ()
    {
      left, right, parent, tag := null, null, null, 0;
    }

    /** children[dir] */
    function Child(dir: nat): Node?
      reads this
    {
      if dir == 0 then left else right
    }
  }

  /** The fields of one node. */
  datatype Cell = Cell(left: Node?, right: Node?, parent: Node?, tag: int) {
    ghost function Child(dir: nat): Node? {
      if dir == 0 then left else right
    }

    ghost function WithChild(dir: nat, x: Node?): Cell {
      if dir == 0 then this.(left := x) else this.(right := x)
    }
  }

  /** What the fields of the nodes are. */
  type Mem = map<Node, Cell>

  ghost predicate Mirrors(m: Mem)
    reads m.Keys
  {
    forall n :: n in m ==> Cell(n.left, n.right, n.parent, n.tag) == m[n]
  }

  lemma Peek(m: Mem, n: Node)
    requires Mirrors(m) && n in m
    ensures Cell(n.left, n.right, n.parent, n.tag) == m[n] && n.Child(0) == m[n].Child(0) && n.Child(1) == m[n].Child(1)
  {
  }

  method SetChild(n: Node, dir: nat, x: Node?, ghost m: Mem) returns (ghost m1: Mem)
    requires Mirrors(m) && n in m
    modifies n
    ensures Mirrors(m1) && m1 == m[n := m[n].WithChild(dir, x)]
  {
    m1 := m[n := m[n].WithChild(dir, x)];
    if dir == 0 {
      n.left := x;
    } else {
      n.right := x;
    }
  }

  method SetParent(n: Node, p: Node?, ghost m: Mem) returns (ghost m1: Mem)
    requires Mirrors(m) && n in m
    modifies n
    ensures Mirrors(m1) && m1 == m[n := m[n].(parent := p)]
  {
    m1 := m[n := m[n].(parent := p)];
    n.parent := p;
  }

  method SetTag(n: Node, tag: int, ghost m: Mem) returns (ghost m1: Mem)
    requires Mirrors(m) && n in m
    modifies n
    ensures Mirrors(m1) && m1 == m[n := m[n].(tag := tag)]
  {
    m1 := m[n := m[n].(tag := tag)];
    n.tag := tag;
  }

  // ---------------------------------------------------------------- trees

  datatype Tree = Leaf | Fork(left: Tree, node: Node, tag: int, right: Tree)

  ghost function Root(t: Tree): Node? {
    if t == Leaf then null else t.node
  }

  ghost function InOrder(t: Tree): seq<Node> {
    if t == Leaf then [] else InOrder(t.left) + [t.node] + InOrder(t.right)
  }

  ghost function Foot(t: Tree): set<Node> {
    if t == Leaf then {} else {t.node} + Foot(t.left) + Foot(t.right)
  }

  /** No node occurs twice. */
  ghost predicate Apart(t: Tree) {
    t == Leaf || (t.node !in Foot(t.left) && t.node !in Foot(t.right) && Foot(t.left) !! Foot(t.right) &&
                  Apart(t.left) && Apart(t.right))
  }

  /** The cells form this tree, and its root has this parent. */
  ghost predicate Linked(m: Mem, t: Tree, up: Node?) {
    t == Leaf ||
    (t.node in m && m[t.node] == Cell(Root(t.left), Root(t.right), up, t.tag) &&
     Linked(m, t.left, t.node) && Linked(m, t.right, t.node))
  }

  /** A fork whose child in direction dir is a, and whose other child is b. */
  ghost function Mk(dir: nat, a: Tree, node: Node, tag: int, b: Tree): (t: Tree)
    ensures t.Fork? && t.node == node && t.tag == tag
  {
    if dir == 0 then Fork(a, node, tag, b) else Fork(b, node, tag, a)
  }

  /** The child of a tree in direction dir. */
  ghost function Side(t: Tree, dir: nat): Tree
    requires t.Fork?
  {
    if dir == 0 then t.left else t.right
  }

  lemma MkSides(t: Tree, dir: nat)
    requires t.Fork? && dir <= 1
    ensures t == Mk(dir, Side(t, dir), t.node, t.tag, Side(t, 1 - dir))
  {
  }

  lemma MkParts(dir: nat, a: Tree, n: Node, tag: int, b: Tree)
    ensures Foot(Mk(dir, a, n, tag, b)) == {n} + Foot(a) + Foot(b)
    ensures Apart(Mk(dir, a, n, tag, b)) <==>
      n !in Foot(a) && n !in Foot(b) && Foot(a) !! Foot(b) && Apart(a) && Apart(b)
    ensures InOrder(Mk(dir, a, n, tag, b)) ==
      if dir == 0 then InOrder(a) + [n] + InOrder(b) else InOrder(b) + [n] + InOrder(a)
  {
  }

  /** The same nodes in the same order. */
  ghost predicate Same(s: Tree, t: Tree) {
    InOrder(s) == InOrder(t) && Foot(s) == Foot(t) && (Apart(s) <==> Apart(t))
  }

  lemma SameBelow(dir: nat, a: Tree, n: Node, tag: int, tag1: int, x: Tree, y: Tree)
    requires Same(x, y)
    ensures Same(Mk(dir, a, n, tag, x), Mk(dir, a, n, tag1, y)) && Same(Mk(dir, x, n, tag, a), Mk(dir, y, n, tag1, a))
  {
    MkParts(dir, a, n, tag, x);
    MkParts(dir, a, n, tag1, y);
    MkParts(dir, x, n, tag, a);
    MkParts(dir, y, n, tag1, a);
    hide InOrder, Foot, Apart, Mk;
  }

  /** A rotation keeps the order. */
  lemma TurnSame(dir: nat, a: Tree, n: Node, ntag: int, b: Tree, c: Node, ctag: int, d: Tree, ntag1: int, ctag1: int)
    ensures Same(Mk(dir, a, n, ntag, Mk(dir, b, c, ctag, d)), Mk(dir, Mk(dir, a, n, ntag1, b), c, ctag1, d))
  {
    var s, t := Mk(dir, b, c, ctag, d), Mk(dir, a, n, ntag1, b);
    MkParts(dir, b, c, ctag, d);
    MkParts(dir, a, n, ntag, s);
    MkParts(dir, a, n, ntag1, b);
    MkParts(dir, t, c, ctag1, d);
    hide InOrder, Foot, Apart, Mk;
    TurnSeqs(InOrder(a), n, InOrder(b), c, InOrder(d));
    TurnSeqs(InOrder(d), c, InOrder(b), n, InOrder(a));
    assert Foot(Mk(dir, a, n, ntag, s)) == Foot(Mk(dir, t, c, ctag1, d));
  }

  lemma TurnSeqs<T>(x: seq<T>, n: T, y: seq<T>, c: T, z: seq<T>)
    ensures x + [n] + (y + [c] + z) == (x + [n] + y) + [c] + z
  {
  }

  lemma SameTrans(s: Tree, t: Tree, u: Tree)
    requires Same(s, t) && Same(t, u)
    ensures Same(s, u) && Same(u, s)
  {
  }

  /** The same nodes have the same fields. */
  ghost predicate Agree(m: Mem, m1: Mem, s: set<Node>) {
    forall n :: n in s && n in m ==> n in m1 && m1[n] == m[n]
  }

  lemma AgreeAt(m: Mem, m1: Mem, s: set<Node>, n: Node)
    requires Agree(m, m1, s) && n in s && n in m
    ensures n in m1 && m1[n] == m[n]
  {
  }

  lemma {:induction false} LinkedFrame(m: Mem, m1: Mem, t: Tree, up: Node?)
    requires Linked(m, t, up) && Agree(m, m1, Foot(t))
    ensures Linked(m1, t, up)
  {
    if t != Leaf {
      LinkedFrame(m, m1, t.left, t.node);
      LinkedFrame(m, m1, t.right, t.node);
    }
  }

  /** Only the parent pointer of the root changes. */
  lemma Reparent(m: Mem, m1: Mem, t: Tree, up: Node?, up1: Node?)
    requires Linked(m, t, up) && Apart(t) && t.Fork?
    requires t.node in m1 && m1[t.node] == m[t.node].(parent := up1)
    requires forall n :: n in Foot(t) && n != t.node && n in m ==> n in m1 && m1[n] == m[n]
    ensures Linked(m1, t, up1)
  {
    LinkedFrame(m, m1, t.left, t.node);
    LinkedFrame(m, m1, t.right, t.node);
  }

  lemma {:induction false} FootLinked(m: Mem, t: Tree, up: Node?)
    requires Linked(m, t, up)
    ensures Foot(t) <= m.Keys
  {
    if t != Leaf {
      FootLinked(m, t.left, t.node);
      FootLinked(m, t.right, t.node);
    }
  }

  // ---------------------------------------------------------------- what is around a subtree

  /** The way up from a subtree: it is the child dir of node, whose other child is sib. */
  datatype Ctx = Top | Step(node: Node, tag: int, dir: nat, sib: Tree, up: Ctx)

  ghost function Owner(c: Ctx): Node? {
    if c == Top then null else c.node
  }

  /** The whole tree with t in the hole. */
  ghost function Zip(c: Ctx, t: Tree): Tree {
    if c == Top then t else Zip(c.up, Mk(c.dir, t, c.node, c.tag, c.sib))
  }

  ghost function Pre(c: Ctx): seq<Node> {
    if c == Top then [] else if c.dir == 0 then Pre(c.up) else Pre(c.up) + InOrder(c.sib) + [c.node]
  }

  ghost function Post(c: Ctx): seq<Node> {
    if c == Top then [] else if c.dir == 0 then [c.node] + InOrder(c.sib) + Post(c.up) else Post(c.up)
  }

  lemma Assoc<T>(a: seq<T>, b: seq<T>, c: seq<T>)
    ensures a + b + c == a + (b + c)
  {
  }

  lemma {:induction false} ZipInOrder(c: Ctx, t: Tree)
    ensures InOrder(Zip(c, t)) == Pre(c) + InOrder(t) + Post(c)
  {
    if c.Step? {
      ZipInOrder(c.up, Mk(c.dir, t, c.node, c.tag, c.sib));
      var x := InOrder(t);
      if c.dir == 0 {
        Assoc(Pre(c.up), x + [c.node] + InOrder(c.sib), Post(c.up));
        Regroup(Pre(c.up), x, [c.node], InOrder(c.sib), Post(c.up));
      } else {
        Regroup(Pre(c.up), InOrder(c.sib), [c.node], x, Post(c.up));
      }
    }
  }

  lemma Regroup<T>(a: seq<T>, x: seq<T>, y: seq<T>, z: seq<T>, b: seq<T>)
    ensures a + (x + y + z) + b == a + x + (y + z + b)
    ensures a + (x + y + z) + b == (a + x + y) + z + b
  {
  }

  ghost function FootC(c: Ctx): set<Node> {
    if c == Top then {} else {c.node} + Foot(c.sib) + FootC(c.up)
  }

  ghost predicate ApartC(c: Ctx) {
    c == Top || (c.node !in Foot(c.sib) && c.node !in FootC(c.up) && Foot(c.sib) !! FootC(c.up) &&
                 Apart(c.sib) && ApartC(c.up))
  }

  /** The cells form the way up; root is the tree's root pointer, hole what the last link points to. */
  ghost predicate LinkedC(m: Mem, root: Node?, c: Ctx, hole: Node?) {
    if c == Top then root == hole
    else
      c.dir <= 1 && c.node in m && m[c.node].Child(c.dir) == hole && m[c.node].Child(1 - c.dir) == Root(c.sib) &&
      m[c.node].parent == Owner(c.up) && m[c.node].tag == c.tag &&
      Linked(m, c.sib, c.node) && LinkedC(m, root, c.up, c.node)
  }

  lemma {:induction false} LinkedCFrame(m: Mem, m1: Mem, root: Node?, c: Ctx, hole: Node?)
    requires LinkedC(m, root, c, hole) && Agree(m, m1, FootC(c))
    ensures LinkedC(m1, root, c, hole)
  {
    if c.Step? {
      LinkedFrame(m, m1, c.sib, c.node);
      LinkedCFrame(m, m1, root, c.up, c.node);
    }
  }

  lemma {:induction false} ZipLinked(m: Mem, root: Node?, c: Ctx, t: Tree)
    requires LinkedC(m, root, c, Root(t)) && Linked(m, t, Owner(c))
    ensures Linked(m, Zip(c, t), null) && Root(Zip(c, t)) == root
  {
    if c.Step? {
      ZipLinked(m, root, c.up, Mk(c.dir, t, c.node, c.tag, c.sib));
    }
  }

  lemma {:induction false} ZipApart(c: Ctx, t: Tree)
    ensures Foot(Zip(c, t)) == FootC(c) + Foot(t)
    ensures Apart(Zip(c, t)) <==> ApartC(c) && Apart(t) && FootC(c) !! Foot(t)
  {
    if c.Step? {
      ZipApart(c.up, Mk(c.dir, t, c.node, c.tag, c.sib));
    }
  }

  /** One level up. */
  lemma UnzipUp(m: Mem, root: Node?, c: Ctx, t: Tree)
    requires c.Step? && LinkedC(m, root, c, Root(t)) && Linked(m, t, Owner(c))
    ensures Linked(m, Mk(c.dir, t, c.node, c.tag, c.sib), Owner(c.up)) && LinkedC(m, root, c.up, c.node)
  {
  }

  /** One level down. */
  lemma UnzipDown(m: Mem, root: Node?, c: Ctx, t: Tree, dir: nat)
    requires t.Fork? && dir <= 1 && LinkedC(m, root, c, Root(t)) && Linked(m, t, Owner(c))
    ensures var d := Step(t.node, t.tag, dir, Side(t, 1 - dir), c);
      LinkedC(m, root, d, Root(Side(t, dir))) && Linked(m, Side(t, dir), t.node) && Zip(d, Side(t, dir)) == Zip(c, t)
  {
    MkSides(t, dir);
  }

  /** All nodes in order but the one in focus. */
  ghost function NodesWithout(c: Ctx, t: Tree): seq<Node>
    requires t.Fork?
  {
    Pre(c) + (InOrder(t.left) + InOrder(t.right)) + Post(c)
  }

  /** A tree in memory, with a subtree in focus. */
  ghost predicate Focus(m: Mem, root: Node?, c: Ctx, t: Tree) {
    LinkedC(m, root, c, Root(t)) && Linked(m, t, Owner(c)) && ApartC(c) && Apart(t) && FootC(c) !! Foot(t)
  }

  /** The tree's root pointer. */
  class Head {
    var root: Node?

    constructor ()
      ensures root == null
    {
      root := null;
    }
  }

  lemma LinkedMk(m: Mem, dir: nat, a: Tree, n: Node, tag: int, b: Tree, up: Node?)
    requires dir <= 1
    ensures Linked(m, Mk(dir, a, n, tag, b), up) <==>
      n in m && m[n].Child(dir) == Root(a) && m[n].Child(1 - dir) == Root(b) && m[n].parent == up && m[n].tag == tag &&
      Linked(m, a, n) && Linked(m, b, n)
    ensures Root(Mk(dir, a, n, tag, b)) == n
  {
  }

  lemma LinkedMemory(m: Mem, t: Tree, up: Node?)
    requires Linked(m, t, up)
    ensures t.Fork? ==> t.node in m && t.node in Foot(t)
  {
  }

  lemma RootIn(t: Tree)
    requires t.Fork?
    ensures t.node in Foot(t)
  {
  }

  lemma RootInFoot(t: Tree)
    ensures Root(t) != null ==> Root(t) in Foot(t)
    ensures Root(t) == null <==> t == Leaf
  {
  }

  lemma LinkedLeaf(m: Mem, up: Node?)
    ensures Linked(m, Leaf, up)
  {
  }

  /** A subtree gets another parent. */
  lemma MovedChild(m: Mem, m1: Mem, t: Tree, up: Node?, up1: Node?)
    requires Linked(m, t, up) && Apart(t)
    requires t.Fork? ==> t.node in m && t.node in m1 && m1[t.node] == m[t.node].(parent := up1)
    requires forall x :: x in Foot(t) && x in m && x != Root(t) ==> x in m1 && m1[x] == m[x]
    ensures Linked(m1, t, up1)
  {
    if t.Fork? {
      Reparent(m, m1, t, up, up1);
    }
  }

  lemma PeekChild(m: Mem, n: Node, dir: nat)
    requires Mirrors(m) && n in m
    ensures n.Child(dir) == m[n].Child(dir) && n.parent == m[n].parent && n.tag == m[n].tag
  {
  }

  lemma PutChild(c: Cell, dir: nat, x: Node?)
    ensures c.WithChild(dir, x).Child(dir) == x
  {
  }

  lemma RootIs(t: Tree)
    ensures t.Fork? ==> Root(t) == t.node
    ensures t == Leaf ==> Root(t) == null
  {
  }

  lemma CtxNode(c: Ctx)
    ensures c.Step? ==> c.node in FootC(c)
  {
  }

  lemma SameRefl(s: Tree)
    ensures Same(s, s)
  {
  }

  ghost predicate CtxOk(c: Ctx) {
    c == Top || (c.dir <= 1 && CtxOk(c.up))
  }

  lemma {:induction false} UnzipLinked(m: Mem, root: Node?, c: Ctx, t: Tree)
    requires Linked(m, Zip(c, t), null) && Root(Zip(c, t)) == root && CtxOk(c)
    ensures LinkedC(m, root, c, Root(t)) && Linked(m, t, Owner(c))
  {
    if c.Step? {
      UnzipLinked(m, root, c.up, Mk(c.dir, t, c.node, c.tag, c.sib));
      LinkedMk(m, c.dir, t, c.node, c.tag, c.sib, Owner(c.up));
    }
  }

  /** The tag of the parent changes. */
  lemma Retag(m: Mem, m1: Mem, root: Node?, c: Ctx, t: Tree, tag: int)
    requires Focus(m, root, c, t) && c.Step? && c.node in m && m1 == m[c.node := m[c.node].(tag := tag)]
    ensures Focus(m1, root, c.(tag := tag), t) && m1.Keys == m.Keys
  {
    LinkedFrame(m, m1, t, Owner(c));
    LinkedFrame(m, m1, c.sib, c.node);
    LinkedCFrame(m, m1, root, c.up, c.node);
  }

  lemma RetagOrder(c: Ctx, tag: int)
    requires c.Step?
    ensures Pre(c.(tag := tag)) == Pre(c) && Post(c.(tag := tag)) == Post(c) && FootC(c.(tag := tag)) == FootC(c)
  {
  }

  lemma FocusUp(m: Mem, root: Node?, c: Ctx, t: Tree)
    requires Focus(m, root, c, t) && c.Step?
    ensures Focus(m, root, c.up, Mk(c.dir, t, c.node, c.tag, c.sib))
    ensures Pre(c) + InOrder(t) + Post(c) == Pre(c.up) + InOrder(Mk(c.dir, t, c.node, c.tag, c.sib)) + Post(c.up)
    ensures FootC(c) + Foot(t) == FootC(c.up) + Foot(Mk(c.dir, t, c.node, c.tag, c.sib))
  {
    UnzipUp(m, root, c, t);
    MkParts(c.dir, t, c.node, c.tag, c.sib);
    var x := InOrder(t);
    if c.dir == 0 {
      Regroup(Pre(c.up), x, [c.node], InOrder(c.sib), Post(c.up));
    } else {
      Regroup(Pre(c.up), InOrder(c.sib), [c.node], x, Post(c.up));
    }
    hide Linked, Apart, Mk;
  }

  /** Into the child in direction dir. */
  lemma FocusDown(m: Mem, root: Node?, c: Ctx, t: Tree, dir: nat)
    requires Focus(m, root, c, t) && t.Fork? && dir <= 1
    ensures var d := Step(t.node, t.tag, dir, Side(t, 1 - dir), c);
      Focus(m, root, d, Side(t, dir)) && FootC(d) + Foot(Side(t, dir)) == FootC(c) + Foot(t) &&
      Pre(d) + InOrder(Side(t, dir)) + Post(d) == Pre(c) + InOrder(t) + Post(c)
  {
    MkSides(t, dir);
    var d := Step(t.node, t.tag, dir, Side(t, 1 - dir), c);
    UnzipDown(m, root, c, t, dir);
    MkParts(dir, Side(t, dir), t.node, t.tag, Side(t, 1 - dir));
    var x := InOrder(Side(t, dir));
    if dir == 0 {
      Regroup(Pre(c), x, [t.node], InOrder(d.sib), Post(c));
    } else {
      Regroup(Pre(c), InOrder(d.sib), [t.node], x, Post(c));
    }
    hide Linked, Apart, Mk, LinkedC;
  }

  /** What the loops need to know about the parent. */
  lemma FocusFacts(m: Mem, root: Node?, c: Ctx, t: Tree)
    requires Focus(m, root, c, t) && c.Step?
    ensures c.dir <= 1 && c.node in m && m[c.node].tag == c.tag && m[c.node].parent == Owner(c.up)
    ensures m[c.node].Child(c.dir) == Root(t) && m[c.node].Child(1 - c.dir) == Root(c.sib)
    ensures t.Fork? ==> t.node != Root(c.sib)
    ensures c.sib.Fork? ==> c.sib.node in m && m[c.sib.node].tag == c.sib.tag
  {
    RootInFoot(c.sib);
    RootInFoot(t);
  }

  lemma TreeNode(m: Mem, t: Tree, up: Node?)
    requires Linked(m, t, up) && t.Fork?
    ensures t.node in m && m[t.node].parent == up
  {
  }

  lemma OwnerIn(m: Mem, root: Node?, c: Ctx, hole: Node?)
    requires LinkedC(m, root, c, hole)
    ensures Owner(c) != null ==> Owner(c) in m
    ensures c == Top <==> Owner(c) == null
  {
  }

  lemma FocusParts(m: Mem, root: Node?, c: Ctx, s: Tree)
    requires Focus(m, root, c, s)
    ensures LinkedC(m, root, c, Root(s)) && Linked(m, s, Owner(c)) && ApartC(c) && Apart(s) && FootC(c) !! Foot(s)
  {
  }

  lemma OwnerIs(c: Ctx)
    ensures c.Step? ==> Owner(c) == c.node
    ensures c == Top ==> Owner(c) == null
  {
  }

  /** Which child of its parent a node is. */
  method DirOfChild(child: Node, parent: Node, ghost m: Mem, ghost c: Ctx) returns (dir: nat)
    requires Mirrors(m) && c.Step? && parent == c.node && c.node in m && c.dir <= 1
    requires m[c.node].Child(c.dir) == child != m[c.node].Child(1 - c.dir)
    ensures dir == c.dir
  {
    Peek(m, parent);
    dir := if child == parent.left then 0 else 1;
  }

  /** The parent's link has been redirected. */
  lemma Redirected(m: Mem, m1: Mem, root: Node?, c: Ctx, hole: Node?, x: Node?, dir: nat)
    requires LinkedC(m, root, c, hole) && c.Step? && ApartC(c) && hole != null && hole !in FootC(c)
    requires c.node in m && dir == (if hole == m[c.node].left then 0 else 1) && m1 == m[c.node := m[c.node].WithChild(dir, x)]
    ensures LinkedC(m1, root, c, x) && m1.Keys == m.Keys && Agree(m, m1, m.Keys - FootC(c)) && dir == c.dir
  {
    RootInFoot(c.sib);
    LinkedFrame(m, m1, c.sib, c.node);
    LinkedCFrame(m, m1, root, c.up, c.node);
  }

  lemma TopLink(m: Mem, root: Node?, c: Ctx, hole: Node?, x: Node?)
    requires LinkedC(m, root, c, hole) && Owner(c) == null
    ensures c == Top && LinkedC(m, x, c, x) && Agree(m, m, m.Keys - FootC(c))
  {
    OwnerIn(m, root, c, hole);
  }

  /** Makes the link that points to oldChild point to newChild instead. */
  method ChangeChild(oldChild: Node, newChild: Node?, parent: Node?, head: Head, ghost m: Mem, ghost c: Ctx)
    returns (ghost m1: Mem)
    requires Mirrors(m) && LinkedC(m, head.root, c, oldChild) && parent == Owner(c)
    requires ApartC(c) && oldChild !in FootC(c)
    modifies head, parent
    ensures Mirrors(m1) && LinkedC(m1, head.root, c, newChild)
    ensures m1.Keys == m.Keys && Agree(m, m1, m.Keys - FootC(c))
    ensures c.Step? ==> m1[c.node] == m[c.node].WithChild(c.dir, newChild)
  {
    hide *;
    m1 := m;
    OwnerIs(c);
    OwnerIn(m, head.root, c, oldChild);
    if parent != null {
      Peek(m, parent);
      if oldChild == parent.left {
        m1 := SetChild(parent, 0, newChild, m);
        Redirected(m, m1, head.root, c, oldChild, newChild, 0);
      } else {
        m1 := SetChild(parent, 1, newChild, m);
        Redirected(m, m1, head.root, c, oldChild, newChild, 1);
      }
    } else {
      TopLink(m, head.root, c, oldChild, newChild);
      head.root := newChild;
    }
  }
}
