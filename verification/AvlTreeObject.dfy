/** The AVL tree object. */
module AvlTreeObject {
  import opened BinaryTree
  import opened BinaryWalk
  import opened BinaryLink
  import opened AvlRotate
  import opened AvlInsert
  import opened AvlDeletion

  lemma NewGrowing(c: Ctx, node: Node)
    requires AvlC(c, 0)
    ensures Growing(c, Fork(Leaf, node, 0, Leaf), Pre(c) + [node] + Post(c))
  {
    assert InOrder(Fork(Leaf, node, 0, Leaf)) == [] + [node] + [] == [node];
  }

  /** The first node of an empty tree. */
  lemma NewRoot(m: Mem, root: Node?, c: Ctx, node: Node)
    requires Focus(m, root, c, Fork(Leaf, node, 0, Leaf)) && c == Top
    ensures Rebalanced(m, root, Fork(Leaf, node, 0, Leaf), Pre(c) + [node] + Post(c), FootC(c) + {node})
  {
    LeafInOrder(c, node, 0);
    assert Pre(Top) + [node] + Post(Top) == [node] && [] + [node] + [] == [node];
  }

  /** Links a node in as child dir of parent, where there is no child yet, and rebalances. */
  method InsertNode(head: Head, node: Node, parent: Node?, dir: nat, ghost m: Mem, ghost c: Ctx)
    returns (ghost m1: Mem, ghost t1: Tree)
    requires Mirrors(m) && Focus(m, head.root, c, Leaf) && AvlC(c, 0) && node !in m
    requires parent == Owner(c) && (c.Step? ==> dir == c.dir)
    modifies head, m.Keys, node
    ensures Mirrors(m1) && m1.Keys == m.Keys + {node}
    ensures Rebalanced(m1, head.root, t1, Pre(c) + [node] + Post(c), FootC(c) + {node})
  {
    hide *;
    ghost var leaf := Fork(Leaf, node, 0, Leaf);
    ghost var n := HookLeaf(head, node, parent, dir, 0, m, c);
    LeafInOrder(c, node, 0);
    FocusCtx(n, head.root, c, leaf);
    if parent == null {
      NewRoot(n, head.root, c, node);
      m1, t1 := n, leaf;
    } else {
      NewGrowing(c, node);
      m1, t1 := RebalanceInsert(head, node, parent, dir, n, c, leaf, Pre(c) + [node] + Post(c));
    }
  }

  class AvlTree {
    const head: Head
    /** The fields of the nodes, and the tree they form. */
    ghost var mem: Mem
    ghost var tree: Tree

    constructor ()
      ensures Valid() && Nodes() == [] && mem == map[] && fresh(head)
    {
      head := new Head();
      mem, tree := map[], Leaf;
    }

    /** The nodes in order. */
    ghost function Nodes(): seq<Node>
      reads this
    {
      InOrder(tree)
    }

    /** Every stored balance is the difference of heights and within -1..1, and all links agree. */
    ghost predicate Valid()
      reads this, head, mem.Keys
    {
      Mirrors(mem) && Good(mem, head.root, tree, Nodes())
    }

    lemma Parts()
      requires Valid()
      ensures Mirrors(mem) && Good(mem, head.root, tree, Nodes()) && Linked(mem, tree, null) && head.root == Root(tree)
      ensures Stands(mem, head.root, tree) && Avl(tree)
      ensures Nodes() == InOrder(tree)
    {
    }

    /** The tree has been changed. */
    ghost method Install(m: Mem, t: Tree, target: seq<Node>, foot: set<Node>)
      requires Mirrors(m) && Rebalanced(m, head.root, t, target, foot)
      modifies this
      ensures Valid() && Nodes() == target && Foot(tree) == foot && mem == m
    {
      mem, tree := m, t;
    }

    /** The first node goes into an empty tree. */
    method InsertFirst(node: Node)
      requires Valid() && tree == Leaf && node !in mem
      modifies this, head, mem.Keys, node
      ensures Valid() && Nodes() == [node] && mem.Keys == old(mem.Keys) + {node} && Foot(tree) == {node}
    {
      Parts();
      EmptyZip(mem, head.root, tree);
      assert FootC(Top) + {node} == {node};
      assert Pre(Top) + [node] + Post(Top) == [node] && Owner(Top) == null;
      hide *;
      ghost var m, t := InsertNode(head, node, null, 0, mem, Top);
      Install(m, t, [node], FootC(Top) + {node});
    }

    /** The node becomes child dir of parent: directly before it in order, or directly behind it. */
    method Insert(node: Node, parent: Node, dir: nat) returns (ghost i: nat)
      requires Valid() && node !in mem && parent in Foot(tree) && dir <= 1
      requires parent in mem && mem[parent].Child(dir) == null
      modifies this, head, mem.Keys, node
      ensures Valid() && mem.Keys == old(mem.Keys) + {node} && Foot(tree) == old(Foot(tree)) + {node}
      ensures i < |old(Nodes())| && old(Nodes())[i] == parent
      ensures Nodes() == old(Nodes())[..i + dir] + [node] + old(Nodes())[i + dir..]
    {
      hide *;
      ghost var c;
      Parts();
      i, c := FreePlace(mem, head.root, tree, parent, dir);
      BalancedHole(tree, c);
      OwnerIs(c);
      ghost var m, t := InsertNode(head, node, parent, dir, mem, c);
      Install(m, t, Pre(c) + [node] + Post(c), FootC(c) + {node});
    }

    /** Takes a node out of the tree, which has nothing to do with it any more. */
    method Remove(node: Node) returns (ghost i: nat)
      requires Valid() && node in Foot(tree)
      modifies this, head, mem.Keys
      ensures Valid() && Foot(tree) == old(Foot(tree)) - {node} && mem.Keys == old(mem.Keys) - {node}
      ensures i < |old(Nodes())| && old(Nodes())[i] == node && Nodes() == Removed(old(Nodes()), i)
    {
      hide *;
      Parts();
      ghost var c, u := NodeAt(mem, head.root, tree, node);
      BalancedAt(tree, c, u);
      WithoutNode(c, u);
      i := PlaceIn(c, u);
      ghost var m, t := RemoveNode(head, node, mem, c, u);
      Released(m, head.root, t, NodesWithout(c, u), FootC(c) + Foot(u) - {node}, node);
      Install(m - {node}, t, NodesWithout(c, u), FootC(c) + Foot(u) - {node});
    }

    method First() returns (node: Node?)
      requires Valid()
      ensures if Nodes() == [] then node == null else node == Nodes()[0]
    {
      Parts();
      hide *;
      node := BinaryWalk.First(head, mem, tree);
    }

    /** The node that follows in order. */
    method Next(node: Node) returns (next: Node?, ghost i: nat)
      requires Valid() && node in Foot(tree)
      ensures i < |Nodes()| && Nodes()[i] == node
      ensures next == if i + 1 < |Nodes()| then Nodes()[i + 1] else null
    {
      hide *;
      Parts();
      ghost var c, u := NodeAt(mem, head.root, tree, node);
      NextIs(c, u, Nodes());
      i := PlaceIn(c, u);
      next := BinaryWalk.Next(node, mem, head.root, c, u);
    }

    lemma NodesOnce()
      requires Valid()
      ensures Once(Nodes()) && forall n :: n in Nodes() <==> n in Foot(tree)
    {
      OrderOnce(tree);
      forall n ensures n in Nodes() <==> n in Foot(tree) {
        FootOrder(tree, n);
      }
    }

    /** From the first node on, going to the next one meets every node once and then ends. */
    method Walk() returns (nodes: seq<Node>)
      requires Valid()
      ensures nodes == Nodes() && Once(nodes)
    {
      NodesOnce();
      var node := First();
      nodes := [];
      while node != null
        invariant |nodes| <= |Nodes()| && nodes == Nodes()[..|nodes|]
        invariant node == if |nodes| < |Nodes()| then Nodes()[|nodes|] else null
        decreases |Nodes()| - |nodes|
      {
        NodesOnce();
        assert node in Nodes();
        FootOrder(tree, node);
        var next, i := Next(node);
        assert i == |nodes|;
        nodes := nodes + [node];
        node := next;
      }
    }
  }

  lemma Released(m: Mem, root: Node?, t: Tree, target: seq<Node>, foot: set<Node>, node: Node)
    requires Mirrors(m) && Rebalanced(m, root, t, target, foot) && node !in foot
    ensures Mirrors(m - {node}) && Rebalanced(m - {node}, root, t, target, foot) && (m - {node}).Keys == m.Keys - {node}
  {
    LetGo(m, root, t, node);
  }

  lemma EmptyZip(m: Mem, root: Node?, t: Tree)
    requires Good(m, root, t, InOrder(t)) && t == Leaf
    ensures Focus(m, root, Top, Leaf) && AvlC(Top, 0)
  {
  }

  lemma BalancedAt(t: Tree, c: Ctx, u: Tree)
    requires Avl(t) && Zip(c, u) == t
    ensures Balanced(c, u)
  {
    ZipAvl(c, u);
  }

  lemma BalancedHole(t: Tree, c: Ctx)
    requires Avl(t) && Zip(c, Leaf) == t
    ensures AvlC(c, 0)
  {
    ZipAvl(c, Leaf);
  }

  // ---------------------------------------------------------------- the tree is shallow

  ghost function Fib(n: nat): nat {
    if n < 2 then n else Fib(n - 1) + Fib(n - 2)
  }

  lemma {:induction false} FibGrows(a: nat, b: nat)
    requires a <= b
    ensures Fib(a) <= Fib(b)
    decreases b
  {
    if a < b {
      FibGrows(a, b - 1);
      if a == 0 && b == 1 {
        assert Fib(0) <= Fib(1);
      }
    }
  }

  lemma FibStep(h: nat, a: nat, b: nat)
    requires h == 1 + Max(a, b) && a <= b + 1 && b <= a + 1
    ensures Fib(h + 2) <= Fib(a + 2) + Fib(b + 2)
  {
    FibGrows(h, if a < b then a + 2 else b + 2);
    assert Fib(h + 2) == Fib(h + 1) + Fib(h);
  }

  lemma HeightOf(t: Tree)
    requires Avl(t) && t.Fork?
    ensures Height(t) == 1 + Max(Height(t.left), Height(t.right)) && Avl(t.left) && Avl(t.right)
    ensures Height(t.left) <= Height(t.right) + 1 && Height(t.right) <= Height(t.left) + 1
    ensures |InOrder(t)| == |InOrder(t.left)| + 1 + |InOrder(t.right)|
  {
  }

  lemma NoHeight()
    ensures Fib(Height(Leaf) + 2) == 1
  {
    assert Fib(2) == Fib(1) + Fib(0);
  }

  /** A tree of height h has at least Fib(h + 2) - 1 nodes. */
  lemma {:induction false} Shallow(t: Tree)
    requires Avl(t)
    ensures Fib(Height(t) + 2) <= |InOrder(t)| + 1
  {
    hide *;
    if t == Leaf {
      NoHeight();
    } else {
      HeightOf(t);
      Shallow(t.left);
      Shallow(t.right);
      FibStep(Height(t), Height(t.left), Height(t.right));
    }
  }
}
