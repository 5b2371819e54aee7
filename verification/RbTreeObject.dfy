/** The red-black tree object. */
module RbTreeObject {
  import opened BinaryTree
  import opened BinaryWalk
  import opened BinaryLink
  import opened RbRules
  import opened RbInsert
  import opened RbDeletion

  /** The first node of an empty tree is black. */
  lemma NewRoot(m: Mem, root: Node?, c: Ctx, node: Node)
    requires Focus(m, root, c, Fork(Leaf, node, BLACK, Leaf)) && c == Top
    ensures Repaired(m, root, Zip(c, Fork(Leaf, node, BLACK, Leaf)), Pre(c) + [node] + Post(c), FootC(c) + {node})
  {
    LeafInOrder(c, node, BLACK);
    ZipGood(m, root, c, Fork(Leaf, node, BLACK, Leaf), Pre(c) + [node] + Post(c));
  }

  lemma NewRed(c: Ctx, node: Node)
    requires RbC(c, 0)
    ensures RedHot(c, Fork(Leaf, node, RED, Leaf), Pre(c) + [node] + Post(c))
  {
    LeafInOrder(c, node, RED);
  }

  /** Links a node in as child dir of parent, where there is no child yet, and repairs the colours. */
  method InsertNode(head: Head, node: Node, parent: Node?, dir: nat, ghost m: Mem, ghost c: Ctx)
    returns (ghost m1: Mem, ghost t1: Tree)
    requires Mirrors(m) && Focus(m, head.root, c, Leaf) && RbC(c, 0) && node !in m
    requires parent == Owner(c) && (c.Step? ==> dir == c.dir)
    modifies head, m.Keys, node
    ensures Mirrors(m1) && m1.Keys == m.Keys + {node}
    ensures Repaired(m1, head.root, t1, Pre(c) + [node] + Post(c), FootC(c) + {node})
  {
    hide *;
    FocusCtx(m, head.root, c, Leaf);
    if parent == null {
      m1 := HookLeaf(head, node, parent, dir, BLACK, m, c);
      NewRoot(m1, head.root, c, node);
      t1 := Zip(c, Fork(Leaf, node, BLACK, Leaf));
    } else {
      ghost var n := HookLeaf(head, node, parent, dir, RED, m, c);
      LeafInOrder(c, node, RED);
      NewRed(c, node);
      m1, t1 := RepairInsert(head, node, parent, n, c, Fork(Leaf, node, RED, Leaf), Pre(c) + [node] + Post(c));
    }
  }

  class RbTree {
    const head: Head
    /** The fields of the nodes, and the tree they form. */
    ghost var mem: Mem
    ghost var tree: Tree

    constructor ()
      ensures Valid() && Nodes() == [] && mem == map[] && fresh(head)
    {
      head := new Head();
      mem, tree := map[], Leaf;
    }

    /** The nodes in order. */
    ghost function Nodes(): seq<Node>
      reads this
    {
      InOrder(tree)
    }

    /** The root is black, no red node has a red child, all paths have the same number of black nodes, and all links agree. */
    ghost predicate Valid()
      reads this, head, mem.Keys
    {
      Mirrors(mem) && Good(mem, head.root, tree, Nodes())
    }

    lemma Parts()
      requires Valid()
      ensures Mirrors(mem) && Good(mem, head.root, tree, Nodes()) && Linked(mem, tree, null) && head.root == Root(tree)
      ensures Stands(mem, head.root, tree) && RbRules.RbTree(tree) && Nodes() == InOrder(tree)
    {
    }

    /** The tree has been changed. */
    ghost method Install(m: Mem, t: Tree, target: seq<Node>, foot: set<Node>)
      requires Mirrors(m) && Repaired(m, head.root, t, target, foot)
      modifies this
      ensures Valid() && Nodes() == target && Foot(tree) == foot && mem == m
    {
      mem, tree := m, t;
    }

    /** The first node goes into an empty tree. */
    method InsertFirst(node: Node)
      requires Valid() && tree == Leaf && node !in mem
      modifies this, head, mem.Keys, node
      ensures Valid() && Nodes() == [node] && mem.Keys == old(mem.Keys) + {node} && Foot(tree) == {node}
    {
      Parts();
      EmptyTop(mem, head.root, tree);
      assert FootC(Top) + {node} == {node};
      assert Pre(Top) + [node] + Post(Top) == [node] && Owner(Top) == null;
      hide *;
      ghost var m, t := InsertNode(head, node, null, 0, mem, Top);
      Install(m, t, [node], FootC(Top) + {node});
    }

    /** The node becomes child dir of parent: directly before it in order, or directly behind it. */
    method Insert(node: Node, parent: Node, dir: nat) returns (ghost i: nat)
      requires Valid() && node !in mem && parent in Foot(tree) && dir <= 1
      requires parent in mem && mem[parent].Child(dir) == null
      modifies this, head, mem.Keys, node
      ensures Valid() && mem.Keys == old(mem.Keys) + {node} && Foot(tree) == old(Foot(tree)) + {node}
      ensures i < |old(Nodes())| && old(Nodes())[i] == parent
      ensures Nodes() == old(Nodes())[..i + dir] + [node] + old(Nodes())[i + dir..]
    {
      hide *;
      Parts();
      ghost var c;
      i, c := FreePlace(mem, head.root, tree, parent, dir);
      SoundHole(tree, c);
      OwnerIs(c);
      ghost var m, t := InsertNode(head, node, parent, dir, mem, c);
      Install(m, t, Pre(c) + [node] + Post(c), FootC(c) + {node});
    }

    /** Takes a node out of the tree, which has nothing to do with it any more. */
    method Remove(node: Node) returns (ghost i: nat)
      requires Valid() && node in Foot(tree)
      modifies this, head, mem.Keys
      ensures Valid() && Foot(tree) == old(Foot(tree)) - {node} && mem.Keys == old(mem.Keys) - {node}
      ensures i < |old(Nodes())| && old(Nodes())[i] == node && Nodes() == Removed(old(Nodes()), i)
    {
      hide *;
      Parts();
      ghost var c, u := NodeAt(mem, head.root, tree, node);
      SoundAt(tree, c, u);
      WithoutNode(c, u);
      i := PlaceIn(c, u);
      ghost var m, t := RemoveNode(head, node, mem, c, u);
      Released(m, head.root, t, NodesWithout(c, u), FootC(c) + Foot(u) - {node}, node);
      Install(m - {node}, t, NodesWithout(c, u), FootC(c) + Foot(u) - {node});
    }

    method First() returns (node: Node?)
      requires Valid()
      ensures if Nodes() == [] then node == null else node == Nodes()[0]
    {
      Parts();
      hide *;
      node := BinaryWalk.First(head, mem, tree);
    }

    /** The node that follows in order. */
    method Next(node: Node) returns (next: Node?, ghost i: nat)
      requires Valid() && node in Foot(tree)
      ensures i < |Nodes()| && Nodes()[i] == node
      ensures next == if i + 1 < |Nodes()| then Nodes()[i + 1] else null
    {
      hide *;
      Parts();
      ghost var c, u := NodeAt(mem, head.root, tree, node);
      NextIs(c, u, Nodes());
      i := PlaceIn(c, u);
      next := BinaryWalk.Next(node, mem, head.root, c, u);
    }

    lemma NodesOnce()
      requires Valid()
      ensures Once(Nodes()) && forall n :: n in Nodes() <==> n in Foot(tree)
    {
      OrderOnce(tree);
      forall n ensures n in Nodes() <==> n in Foot(tree) {
        FootOrder(tree, n);
      }
    }

    /** From the first node on, going to the next one meets every node once and then ends. */
    method Walk() returns (nodes: seq<Node>)
      requires Valid()
      ensures nodes == Nodes() && Once(nodes)
    {
      NodesOnce();
      var node := First();
      nodes := [];
      while node != null
        invariant |nodes| <= |Nodes()| && nodes == Nodes()[..|nodes|]
        invariant node == if |nodes| < |Nodes()| then Nodes()[|nodes|] else null
        decreases |Nodes()| - |nodes|
      {
        NodesOnce();
        assert node in Nodes();
        FootOrder(tree, node);
        var next, i := Next(node);
        assert i == |nodes|;
        nodes := nodes + [node];
        node := next;
      }
    }
  }

  // ---------------------------------------------------------------- the tree is shallow

  ghost function Depth(t: Tree): nat {
    if t == Leaf then 0 else 1 + if Depth(t.left) > Depth(t.right) then Depth(t.left) else Depth(t.right)
  }

  ghost function Pow2(n: nat): nat {
    if n == 0 then 1 else 2 * Pow2(n - 1)
  }

  lemma {:induction false} Pow2Monotone(a: nat, b: nat)
    requires a <= b
    ensures 1 <= Pow2(a) <= Pow2(b)
    decreases b
  {
    if a < b {
      Pow2Monotone(a, b - 1);
    } else if a > 0 {
      Pow2Monotone(a - 1, b - 1);
    }
  }

  lemma {:induction false} DepthBound(t: Tree)
    requires Rb(t)
    ensures 0 <= BlackHeight(t) && Depth(t) <= 2 * BlackHeight(t) + (if Red(t) then 1 else 0)
    ensures Pow2(BlackHeight(t)) <= |InOrder(t)| + 1
  {
    if t.Fork? {
      DepthBound(t.left);
      DepthBound(t.right);
      assert |InOrder(t)| == |InOrder(t.left)| + 1 + |InOrder(t.right)|;
    }
  }

  /** A tree that is d deep has at least 2^(d/2) - 1 nodes. */
  lemma Shallow(t: Tree)
    requires RbRules.RbTree(t)
    ensures Pow2((Depth(t) + 1) / 2) <= |InOrder(t)| + 1
  {
    DepthBound(t);
    Pow2Monotone((Depth(t) + 1) / 2, BlackHeight(t));
  }

  lemma Released(m: Mem, root: Node?, t: Tree, target: seq<Node>, foot: set<Node>, node: Node)
    requires Mirrors(m) && Repaired(m, root, t, target, foot) && node !in foot
    ensures Mirrors(m - {node}) && Repaired(m - {node}, root, t, target, foot) && (m - {node}).Keys == m.Keys - {node}
  {
    LetGo(m, root, t, node);
  }

  lemma EmptyTop(m: Mem, root: Node?, t: Tree)
    requires Good(m, root, t, InOrder(t)) && t == Leaf
    ensures Focus(m, root, Top, Leaf) && RbC(Top, 0)
  {
  }

  lemma SoundAt(t: Tree, c: Ctx, u: Tree)
    requires RbRules.RbTree(t) && Zip(c, u) == t
    ensures Sound(c, u)
  {
    ZipRb(c, u);
  }

  lemma SoundHole(t: Tree, c: Ctx)
    requires RbRules.RbTree(t) && Zip(c, Leaf) == t
    ensures RbC(c, 0)
  {
    ZipRb(c, Leaf);
  }
}
