/** Linking a new node in below an existing one, and finding nodes and free places of a tree. */
module BinaryLink {
  import opened BinaryTree
  import opened BinaryWalk

  /** A fresh node in the hole, not linked from above yet. */
  lemma NewLeaf(m: Mem, m1: Mem, root: Node?, c: Ctx, node: Node, tag: int)
    requires Focus(m, root, c, Leaf) && node !in m && m1 == m[node := Cell(null, null, Owner(c), tag)]
    ensures Linked(m1, Fork(Leaf, node, tag, Leaf), Owner(c)) && LinkedC(m1, root, c, null)
    ensures node !in FootC(c) && ApartC(c) && m1.Keys == m.Keys + {node}
  {
    FootCLinked(m, root, c, null);
    LinkedCFrame(m, m1, root, c, null);
  }

  lemma {:induction false} FootCLinked(m: Mem, root: Node?, c: Ctx, hole: Node?)
    requires LinkedC(m, root, c, hole)
    ensures FootC(c) <= m.Keys
  {
    if c.Step? {
      FootLinked(m, c.sib, c.node);
      FootCLinked(m, root, c.up, c.node);
    }
  }

  lemma Hooked(m: Mem, m1: Mem, root: Node?, c: Ctx, node: Node, tag: int)
    requires c.Step? && LinkedC(m, root, c, null) && ApartC(c) && node !in FootC(c)
    requires Linked(m, Fork(Leaf, node, tag, Leaf), Owner(c)) && m1 == m[c.node := m[c.node].WithChild(c.dir, node)]
    ensures Focus(m1, root, c, Fork(Leaf, node, tag, Leaf)) && m1.Keys == m.Keys
  {
    LinkedFrame(m, m1, c.sib, c.node);
    LinkedCFrame(m, m1, root, c.up, c.node);
  }

  lemma HookedTop(m: Mem, c: Ctx, node: Node, tag: int)
    requires c == Top && Linked(m, Fork(Leaf, node, tag, Leaf), Owner(c))
    ensures Focus(m, node, c, Fork(Leaf, node, tag, Leaf))
  {
  }

  lemma CtxIn(m: Mem, root: Node?, c: Ctx)
    requires LinkedC(m, root, c, null)
    ensures c.Step? ==> c.node in m && c.dir <= 1
    ensures Owner(c) == null <==> c == Top
    ensures Owner(c) != null ==> Owner(c) == c.node
  {
  }

  lemma FocusCtx(m: Mem, root: Node?, c: Ctx, t: Tree)
    requires Focus(m, root, c, t)
    ensures c.Step? ==> c.node in m && c.dir <= 1
    ensures Owner(c) == null <==> c == Top
    ensures Owner(c) != null ==> Owner(c) == c.node
  {
  }

  /** Puts a node without children into the hole. */
  method HookLeaf(head: Head, node: Node, parent: Node?, dir: nat, tag: int, ghost m: Mem, ghost c: Ctx) returns (ghost m1: Mem)
    requires Mirrors(m) && Focus(m, head.root, c, Leaf) && node !in m
    requires parent == Owner(c) && (c.Step? ==> dir == c.dir)
    modifies head, m.Keys, node
    ensures Mirrors(m1) && m1.Keys == m.Keys + {node} && Focus(m1, head.root, c, Fork(Leaf, node, tag, Leaf))
  {
    node.parent := parent;
    node.tag := tag;
    node.left, node.right := null, null;
    ghost var n := m[node := Cell(null, null, Owner(c), tag)];
    assert Mirrors(n);
    hide *;
    NewLeaf(m, n, head.root, c, node, tag);
    CtxIn(n, head.root, c);
    if parent == null {
      head.root := node;
      HookedTop(n, c, node, tag);
      m1 := n;
    } else {
      m1 := SetChild(parent, dir, node, n);
      Hooked(n, m1, head.root, c, node, tag);
    }
  }

  /** A new leaf in order. */
  lemma LeafInOrder(c: Ctx, node: Node, tag: int)
    ensures var t := Fork(Leaf, node, tag, Leaf);
      Pre(c) + InOrder(t) + Post(c) == Pre(c) + [node] + Post(c) && Foot(t) == {node} && Root(t) == node
  {
    assert InOrder(Fork(Leaf, node, tag, Leaf)) == [] + [node] + [] == [node];
  }

  /** The tree is in memory. */
  ghost predicate Stands(m: Mem, root: Node?, t: Tree) {
    Linked(m, t, null) && Root(t) == root && Apart(t)
  }

  lemma SideEmpty(m: Mem, root: Node?, c: Ctx, t: Tree, dir: nat)
    requires Focus(m, root, c, t) && t.Fork? && dir <= 1 && t.node in m && m[t.node].Child(dir) == null
    ensures Side(t, dir) == Leaf
  {
  }

  lemma FocusIn(m: Mem, root: Node?, t: Tree, c: Ctx, u: Tree)
    requires Stands(m, root, t) && Zip(c, u) == t && CtxOk(c)
    ensures Focus(m, root, c, u) && FootC(c) + Foot(u) == Foot(t)
  {
    UnzipLinked(m, root, c, u);
    ZipApart(c, u);
  }

  /** Where a new child of parent goes. */
  lemma FreePlace(m: Mem, root: Node?, t: Tree, parent: Node, dir: nat) returns (i: nat, c: Ctx)
    requires Stands(m, root, t) && parent in Foot(t) && dir <= 1 && parent in m && m[parent].Child(dir) == null
    ensures Focus(m, root, c, Leaf) && c.Step? && c.node == parent && c.dir == dir && Zip(c, Leaf) == t && CtxOk(c)
    ensures var s := InOrder(t); i < |s| && s[i] == parent && Pre(c) == s[..i + dir] && Post(c) == s[i + dir..]
    ensures FootC(c) == Foot(t)
  {
    var d, u := Locate(Top, t, parent);
    assert Zip(Top, t) == t;
    FocusIn(m, root, t, d, u);
    SideEmpty(m, root, d, u, dir);
    i, c := NewChild(d, u, dir);
    assert Foot(Leaf) == {};
    hide Zip, Focus, Stands;
    FocusIn(m, root, t, c, Leaf);
  }

  /** A node of the tree in focus. */
  lemma NodeAt(m: Mem, root: Node?, t: Tree, node: Node) returns (c: Ctx, u: Tree)
    requires Stands(m, root, t) && node in Foot(t)
    ensures Focus(m, root, c, u) && u.Fork? && u.node == node && Zip(c, u) == t && CtxOk(c) && FootC(c) + Foot(u) == Foot(t)
  {
    c, u := Locate(Top, t, node);
    assert Zip(Top, t) == t;
    FocusIn(m, root, t, c, u);
  }

  /** A removed node is let go. */
  lemma LetGo(m: Mem, root: Node?, t: Tree, node: Node)
    requires Stands(m, root, t) && node !in Foot(t)
    ensures Stands(m - {node}, root, t)
  {
    FootLinked(m, t, null);
    LinkedFrame(m, m - {node}, t, null);
  }
}
