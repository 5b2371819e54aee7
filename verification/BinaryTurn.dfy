/** Turning a node and its child in memory; every rotation of both kinds of trees is made of these pointer updates. */
module BinaryTurn {
  import opened BinaryTree

  /** The nodes of a and b have kept their fields, b's root has a new parent. */
  lemma TurnLinked(m: Mem, m1: Mem, dir: nat, a: Tree, n: Node, tag: int, b: Tree, c: Node, ctag: int, d: Tree,
                   up: Node?, tag1: int, ctag1: int)
    requires dir <= 1 && Linked(m, Mk(dir, a, n, tag, Mk(dir, b, c, ctag, d)), up)
    requires Apart(Mk(dir, a, n, tag, Mk(dir, b, c, ctag, d)))
    requires Turned(m, m1, dir, a, n, b, c, d, tag1, ctag1)
    ensures Linked(m1, Mk(dir, Mk(dir, a, n, tag1, b), c, ctag1, d), n)
  {
    MkParts(dir, b, c, ctag, d);
    MkParts(dir, a, n, tag, Mk(dir, b, c, ctag, d));
    LinkedMk(m, dir, a, n, tag, Mk(dir, b, c, ctag, d), up);
    LinkedMk(m, dir, b, c, ctag, d, n);
    hide Linked, Foot, Apart, Mk;
    LinkedFrame(m, m1, a, n);
    LinkedFrame(m, m1, d, c);
    if b.Fork? {
      RootIn(b);
      Reparent(m, m1, b, c, n);
    } else {
      LinkedLeaf(m1, n);
    }
    LinkedMk(m1, dir, a, n, tag1, b, c);
    LinkedMk(m1, dir, Mk(dir, a, n, tag1, b), c, ctag1, d, n);
  }

  /** What a rotation of n's other child c to n's place writes. */
  ghost predicate Turned(m: Mem, m1: Mem, dir: nat, a: Tree, n: Node, b: Tree, c: Node, d: Tree, tag1: int, ctag1: int)
    requires dir <= 1
  {
    m1.Keys == m.Keys && n in m && c in m && (b.Fork? ==> b.node in m) &&
    m1[n].Child(dir) == Root(a) && m1[n].Child(1 - dir) == Root(b) && m1[n].parent == c && m1[n].tag == tag1 &&
    m1[c].Child(dir) == n && m1[c].Child(1 - dir) == Root(d) && m1[c].parent == m[c].parent && m1[c].tag == ctag1 &&
    (b.Fork? ==> m1[b.node] == m[b.node].(parent := n)) &&
    forall x :: x in m && x != n && x != c && x != Root(b) ==> m1[x] == m[x]
  }

  /** The cells of node, child and the subtree between them after the pointers have been turned. */
  ghost predicate Repointed(m: Mem, m1: Mem, dir: nat, node: Node, child: Node, b: Node?)
    requires dir <= 1
  {
    m1.Keys == m.Keys && node in m && child in m && (b != null ==> b in m) &&
    m1[node] == m[node].WithChild(1 - dir, b).(parent := child) && m1[child] == m[child].WithChild(dir, node) &&
    (b != null ==> m1[b] == m[b].(parent := node)) &&
    forall x :: x in m && x != node && x != child && x != b ==> m1[x] == m[x]
  }

  lemma Compose(m: Mem, m1: Mem, m2: Mem, m3: Mem, m4: Mem, dir: nat, node: Node, child: Node, b: Node?)
    requires dir <= 1 && node in m && child in m && node != child && (b != null ==> b in m && b != node && b != child)
    requires m1 == m[node := m[node].WithChild(1 - dir, b)]
    requires if b == null then m2 == m1 else m2 == m1[b := m1[b].(parent := node)]
    requires m3 == m2[child := m2[child].WithChild(dir, node)] && m4 == m3[node := m3[node].(parent := child)]
    ensures Repointed(m, m4, dir, node, child, b)
  {
    assert m3[node] == m2[node] == m1[node];
    assert m4[child] == m3[child] && m2[child] == m1[child] == m[child];
    if b != null {
      assert m4[b] == m3[b] == m2[b] && m1[b] == m[b];
    }
  }

  /** Node's other child takes its place, except for the link from above. */
  method Turn(node: Node, child: Node, dir: nat, ghost m: Mem) returns (ghost m1: Mem)
    requires dir <= 1 && Mirrors(m) && node in m && child in m && node != child
    requires var b := m[child].Child(dir); b != null ==> b in m && b != node && b != child
    modifies m.Keys
    ensures Mirrors(m1) && Repointed(m, m1, dir, node, child, m[child].Child(dir))
  {
    PeekChild(m, child, dir);
    hide *;
    var b := child.Child(dir);
    ghost var n1 := SetChild(node, 1 - dir, b, m);
    PutChild(m[node], 1 - dir, b);
    PeekChild(n1, node, 1 - dir);
    ghost var n2 := n1;
    if node.Child(1 - dir) != null {
      n2 := SetParent(node.Child(1 - dir), node, n1);
    }
    ghost var n3 := SetChild(child, dir, node, n2);
    m1 := SetParent(node, child, n3);
    Compose(m, n1, n2, n3, m1, dir, node, child, b);
  }

  /** The tags of two nodes are set. */
  method SetTags(node: Node, tag: int, child: Node, childTag: int, ghost m: Mem) returns (ghost m1: Mem)
    requires Mirrors(m) && node in m && child in m && node != child
    modifies m.Keys
    ensures Mirrors(m1) && m1.Keys == m.Keys
    ensures m1[node] == m[node].(tag := tag) && m1[child] == m[child].(tag := childTag)
    ensures forall x :: x in m && x != node && x != child ==> m1[x] == m[x]
  {
    hide Mirrors;
    m1 := SetTag(node, tag, m);
    m1 := SetTag(child, childTag, m1);
  }

  lemma TurnNodes(m: Mem, dir: nat, a: Tree, node: Node, tag: int, b: Tree, child: Node, ctag: int, c: Tree, up: Node?)
    requires dir <= 1 && Linked(m, Mk(dir, a, node, tag, Mk(dir, b, child, ctag, c)), up)
    requires Apart(Mk(dir, a, node, tag, Mk(dir, b, child, ctag, c)))
    ensures node in m && child in m && node != child && m[node].Child(1 - dir) == child && m[child].Child(dir) == Root(b)
    ensures b.Fork? ==> b.node in m && b.node != node && b.node != child
    ensures m[node].Child(dir) == Root(a) && m[child].Child(1 - dir) == Root(c) && m[child].tag == ctag
  {
    LinkedMk(m, dir, a, node, tag, Mk(dir, b, child, ctag, c), up);
    LinkedMk(m, dir, b, child, ctag, c, node);
    MkParts(dir, a, node, tag, Mk(dir, b, child, ctag, c));
    MkParts(dir, b, child, ctag, c);
    LinkedMemory(m, b, child);
  }

  lemma TurnedCells(m: Mem, m1: Mem, m2: Mem, dir: nat, a: Tree, node: Node, b: Tree, child: Node, c: Tree, tag1: int, ctag1: int)
    requires dir <= 1 && node != child && Repointed(m, m1, dir, node, child, Root(b)) && m2.Keys == m1.Keys
    requires b.Fork? ==> b.node != node && b.node != child
    requires m[node].Child(dir) == Root(a) && m[child].Child(1 - dir) == Root(c)
    requires m2[node] == m1[node].(tag := tag1) && m2[child] == m1[child].(tag := ctag1)
    requires forall x :: x in m1 && x != node && x != child ==> m2[x] == m1[x]
    ensures Turned(m, m2, dir, a, node, b, child, c, tag1, ctag1)
  {
  }

  lemma RepointedTag(m: Mem, m1: Mem, dir: nat, node: Node, child: Node, b: Node?)
    requires dir <= 1 && Repointed(m, m1, dir, node, child, b)
    ensures m1.Keys == m.Keys && node in m1 && child in m1
    ensures m1[child].tag == m[child].tag && m1[child].parent == m[child].parent
  {
  }
}
