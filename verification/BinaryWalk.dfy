/** Walking a binary tree in order by its parent pointers; the AVL tree and the red-black tree share this code. */
module BinaryWalk {
  import opened BinaryTree

  lemma LeftmostFirst(t: Tree)
    requires t.Fork?
    ensures InOrder(t) != [] && InOrder(t)[0] == if t.left == Leaf then t.node else InOrder(t.left)[0]
  {
    if t.left.Fork? {
      LeftmostFirst(t.left);
    }
  }

  lemma ChildOf(m: Mem, t: Tree, up: Node?)
    requires Linked(m, t, up) && t.Fork?
    ensures t.node in m && m[t.node].left == Root(t.left) && m[t.node].right == Root(t.right) && m[t.node].parent == up
    ensures Linked(m, t.left, t.node) && Linked(m, t.right, t.node)
    ensures (Root(t.left) == null <==> t.left == Leaf) && (Root(t.right) == null <==> t.right == Leaf)
  {
  }

  lemma Fields(m: Mem, n: Node)
    requires Mirrors(m) && n in m
    ensures n.left == m[n].left && n.right == m[n].right && n.parent == m[n].parent
  {
  }

  /** The leftmost node below node. */
  method Leftmost(node0: Node, ghost m: Mem, ghost t0: Tree, ghost up0: Node?) returns (node: Node)
    requires Mirrors(m) && Linked(m, t0, up0) && t0.Fork? && t0.node == node0
    ensures InOrder(t0) != [] && node == InOrder(t0)[0]
  {
    hide *;
    node := node0;
    ghost var t, up := t0, up0;
    ChildOf(m, t, up);
    LeftmostFirst(t);
    Fields(m, node);
    while node.left != null
      invariant Linked(m, t, up) && t.Fork? && t.node == node && node in m && node.left == Root(t.left)
      invariant Root(t.left) == null <==> t.left == Leaf
      invariant InOrder(t0) != [] && InOrder(t) != [] && InOrder(t)[0] == InOrder(t0)[0]
      decreases t
    {
      LeftmostFirst(t);
      ChildOf(m, t, up);
      RootIs(t.left);
      node := node.left;
      up, t := t.node, t.left;
      ChildOf(m, t, up);
      LeftmostFirst(t);
      Fields(m, node);
    }
    LeftmostFirst(t);
  }

  /** The first node in order. */
  method First(head: Head, ghost m: Mem, ghost t: Tree) returns (node: Node?)
    requires Mirrors(m) && Linked(m, t, null) && head.root == Root(t)
    ensures if InOrder(t) == [] then node == null else node == InOrder(t)[0]
  {
    if head.root == null {
      return null;
    }
    node := Leftmost(head.root, m, t, null);
  }

  lemma PostStep(c: Ctx)
    ensures c == Top ==> Post(c) == []
    ensures c.Step? && c.dir != 0 ==> Post(c) == Post(c.up)
    ensures c.Step? && c.dir == 0 ==> Post(c) != [] && Post(c)[0] == c.node
  {
  }

  lemma ParentOf(m: Mem, root: Node?, c: Ctx, t: Tree)
    requires Focus(m, root, c, t) && t.Fork?
    ensures t.node in m && m[t.node].parent == Owner(c)
    ensures c.Step? ==> c.node in m && c.dir <= 1 && (m[c.node].right == t.node <==> c.dir == 1) && Owner(c) == c.node
    ensures c == Top <==> Owner(c) == null
  {
    TreeNode(m, t, Owner(c));
    if c.Step? {
      FocusFacts(m, root, c, t);
    }
  }

  /** The subtree one level up. */
  ghost function Above(c: Ctx, t: Tree): Tree
    requires c.Step?
  {
    Mk(c.dir, t, c.node, c.tag, c.sib)
  }

  lemma Climb(m: Mem, root: Node?, c: Ctx, t: Tree)
    requires Focus(m, root, c, t) && c.Step? && c.dir == 1
    ensures Focus(m, root, c.up, Above(c, t)) && Above(c, t).Fork? && Above(c, t).node == c.node && Post(c.up) == Post(c)
    ensures c.node in m && m[c.node].parent == Owner(c.up) && (c.up == Top <==> Owner(c.up) == null)
  {
    PostStep(c);
    FocusUp(m, root, c, t);
    hide Focus, Post;
    ParentOf(m, root, c.up, Above(c, t));
  }

  /** The next node in order: the first one of what is behind the node, or null if there is nothing. */
  method Next(node0: Node, ghost m: Mem, ghost root: Node?, ghost c0: Ctx, ghost t0: Tree) returns (next: Node?)
    requires Mirrors(m) && Focus(m, root, c0, t0) && t0.Fork? && t0.node == node0
    ensures var rest := InOrder(t0.right) + Post(c0); if rest == [] then next == null else next == rest[0]
  {
    hide *;
    FocusParts(m, root, c0, t0);
    ChildOf(m, t0, Owner(c0));
    Fields(m, node0);
    if node0.right != null {
      RootIs(t0.right);
      next := Leftmost(node0.right, m, t0.right, node0);
      return;
    }
    LeafOrder();
    var node := node0;
    ghost var c, t := c0, t0;
    ParentOf(m, root, c, t);
    var parent := node.parent;
    while parent != null && node == parent.right
      invariant Focus(m, root, c, t) && t.Fork? && t.node == node && parent == Owner(c) && Post(c) == Post(c0)
      invariant c == Top <==> parent == null
      decreases c
    {
      ParentOf(m, root, c, t);
      Fields(m, parent);
      Climb(m, root, c, t);
      t, c, node := Above(c, t), c.up, parent;
      parent := node.parent;
    }
    ParentOf(m, root, c, t);
    PostStep(c);
    if parent != null {
      Fields(m, parent);
    }
    assert [] + Post(c0) == Post(c0);
    next := parent;
  }

  lemma LeafOrder()
    ensures InOrder(Leaf) == []
  {
  }

  // ---------------------------------------------------------------- positions in order

  /** Finds a node of the tree. */
  lemma {:induction false} Locate(c: Ctx, t: Tree, n: Node) returns (d: Ctx, u: Tree)
    requires n in Foot(t) && CtxOk(c)
    ensures Zip(d, u) == Zip(c, t) && u.Fork? && u.node == n && CtxOk(d)
    decreases t
  {
    if t.node == n {
      d, u := c, t;
    } else {
      var dir := if n in Foot(t.left) then 0 else 1;
      d, u := Locate(Step(t.node, t.tag, dir, Side(t, 1 - dir), c), Side(t, dir), n);
    }
  }

  /** The sequence without its element i. */
  ghost function Removed<T>(s: seq<T>, i: nat): seq<T>
    requires i < |s|
  {
    s[..i] + s[i + 1..]
  }

  /** The position of a node in order. */
  ghost function PlaceIn(c: Ctx, t: Tree): nat
    requires t.Fork?
  {
    |Pre(c)| + |InOrder(t.left)|
  }

  lemma WithoutNode(c: Ctx, t: Tree)
    requires t.Fork?
    ensures PlaceIn(c, t) < |InOrder(Zip(c, t))| && InOrder(Zip(c, t))[PlaceIn(c, t)] == t.node
    ensures NodesWithout(c, t) == Removed(InOrder(Zip(c, t)), PlaceIn(c, t))
  {
    ZipInOrder(c, t);
    OrderOf(t);
    assert PlaceIn(c, t) == |Pre(c)| + |InOrder(t.left)|;
    hide *;
    MiddleOut(Pre(c), InOrder(t.left), t.node, InOrder(t.right), Post(c));
    WithoutIs(c, t);
  }

  lemma OrderOf(t: Tree)
    requires t.Fork?
    ensures InOrder(t) == InOrder(t.left) + [t.node] + InOrder(t.right)
  {
  }

  lemma WithoutIs(c: Ctx, t: Tree)
    requires t.Fork?
    ensures NodesWithout(c, t) == Pre(c) + (InOrder(t.left) + InOrder(t.right)) + Post(c)
  {
  }

  lemma MiddleOut<T>(a: seq<T>, l: seq<T>, n: T, r: seq<T>, b: seq<T>)
    ensures |a| + |l| < |a + (l + [n] + r) + b| && (a + (l + [n] + r) + b)[|a| + |l|] == n
    ensures a + (l + r) + b == Removed(a + (l + [n] + r) + b, |a| + |l|)
  {
    Join(a, l, [n], r, b);
    Join(a, l, [], r, b);
    assert l + [] + r == l + r;
    var s, k := (a + l) + [n] + (r + b), |a| + |l|;
    assert s[..k] == a + l && s[k + 1..] == r + b;
    assert (a + l) + [] + (r + b) == (a + l) + (r + b);
  }

  lemma Join<T>(a: seq<T>, l: seq<T>, m: seq<T>, r: seq<T>, b: seq<T>)
    ensures a + (l + m + r) + b == (a + l) + m + (r + b)
  {
  }

  /** Where a new child dir of a node comes in order. */
  lemma NewChild(c: Ctx, t: Tree, dir: nat) returns (i: nat, d: Ctx)
    requires t.Fork? && dir <= 1 && Side(t, dir) == Leaf && CtxOk(c)
    ensures CtxOk(d) && d.Step? && d.node == t.node && d.dir == dir && Zip(d, Leaf) == Zip(c, t)
    ensures i < |InOrder(Zip(c, t))| && InOrder(Zip(c, t))[i] == t.node
    ensures Pre(d) == InOrder(Zip(c, t))[..i + dir] && Post(d) == InOrder(Zip(c, t))[i + dir..]
  {
    d := Step(t.node, t.tag, dir, Side(t, 1 - dir), c);
    MkSides(t, dir);
    ZipStep(d, Leaf);
    ZipInOrder(c, t);
    StepOrder(c, t, dir);
    var o := InOrder(Side(t, 1 - dir));
    hide *;
    if dir == 0 {
      i := |Pre(c)|;
      FrontChild(Pre(c), t.node, o, Post(c), InOrder(t));
    } else {
      i := |Pre(c)| + |o|;
      BackChild(Pre(c), o, t.node, Post(c), InOrder(t));
    }
  }

  lemma ZipStep(d: Ctx, t: Tree)
    requires d.Step?
    ensures Zip(d, t) == Zip(d.up, Mk(d.dir, t, d.node, d.tag, d.sib)) && (CtxOk(d.up) && d.dir <= 1 ==> CtxOk(d))
  {
  }

  lemma StepOrder(c: Ctx, t: Tree, dir: nat)
    requires t.Fork? && dir <= 1 && Side(t, dir) == Leaf
    ensures var d, o := Step(t.node, t.tag, dir, Side(t, 1 - dir), c), InOrder(Side(t, 1 - dir));
      if dir == 0 then Pre(d) == Pre(c) && Post(d) == [t.node] + o + Post(c) && InOrder(t) == [t.node] + o
      else Pre(d) == Pre(c) + o + [t.node] && Post(d) == Post(c) && InOrder(t) == o + [t.node]
  {
    OrderOf(t);
    LeafOrder();
  }

  lemma FrontChild<T>(a: seq<T>, n: T, o: seq<T>, b: seq<T>, s: seq<T>)
    requires s == [n] + o
    ensures |a| < |a + s + b| && (a + s + b)[|a|] == n && a == (a + s + b)[..|a|] && [n] + o + b == (a + s + b)[|a|..]
  {
  }

  lemma BackChild<T>(a: seq<T>, o: seq<T>, n: T, b: seq<T>, s: seq<T>)
    requires s == o + [n]
    ensures |a| + |o| < |a + s + b| && (a + s + b)[|a| + |o|] == n
    ensures a + o + [n] == (a + s + b)[..|a| + |o| + 1] && b == (a + s + b)[|a| + |o| + 1..]
  {
    assert a + s + b == (a + o + [n]) + b;
  }

  /** What follows a node in order. */
  lemma NextIs(c: Ctx, u: Tree, s: seq<Node>)
    requires u.Fork? && s == InOrder(Zip(c, u))
    ensures var rest, i := InOrder(u.right) + Post(c), PlaceIn(c, u);
      i < |s| && s[i] == u.node && (if rest == [] then null else rest[0]) == (if i + 1 < |s| then s[i + 1] else null)
  {
    ZipInOrder(c, u);
    OrderOf(u);
    assert PlaceIn(c, u) == |Pre(c)| + |InOrder(u.left)|;
    hide *;
    Join(Pre(c), InOrder(u.left), [u.node], InOrder(u.right), Post(c));
    Behind(Pre(c) + InOrder(u.left), u.node, InOrder(u.right) + Post(c));
  }

  lemma Behind<T>(a: seq<T>, n: T, b: seq<T>)
    ensures |a + [n] + b| == |a| + 1 + |b|
    ensures b != [] ==> (a + [n] + b)[|a| + 1] == b[0]
  {
  }

  // ---------------------------------------------------------------- each node once

  lemma {:induction false} FootOrder(t: Tree, n: Node)
    ensures n in InOrder(t) <==> n in Foot(t)
  {
    if t.Fork? {
      FootOrder(t.left, n);
      FootOrder(t.right, n);
    }
  }

  lemma JoinOnce<T>(a: seq<T>, n: T, b: seq<T>)
    requires Once(a) && Once(b) && n !in a && n !in b && forall x :: x in a ==> x !in b
    ensures Once(a + [n] + b)
  {
    var s := a + [n] + b;
    forall i, j | 0 <= i < j < |s| ensures s[i] != s[j] {
      assert i < |a| ==> s[i] == a[i] && s[i] in a;
      assert j > |a| ==> s[j] == b[j - |a| - 1] && s[j] in b;
      assert j < |a| ==> s[j] == a[j];
      assert i > |a| ==> s[i] == b[i - |a| - 1];
    }
  }

  /** No element comes twice. */
  ghost predicate Once<T>(s: seq<T>) {
    forall i, j :: 0 <= i < j < |s| ==> s[i] != s[j]
  }

  /** The nodes of a tree come once each. */
  lemma {:induction false} OrderOnce(t: Tree)
    requires Apart(t)
    ensures Once(InOrder(t))
  {
    if t.Fork? {
      OrderOnce(t.left);
      OrderOnce(t.right);
      FootOrder(t.left, t.node);
      FootOrder(t.right, t.node);
      forall n | n in InOrder(t.left) ensures n !in InOrder(t.right) {
        FootOrder(t.left, n);
        FootOrder(t.right, n);
      }
      JoinOnce(InOrder(t.left), t.node, InOrder(t.right));
    }
  }
}
