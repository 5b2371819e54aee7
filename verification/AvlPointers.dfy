/** AVL rotations in memory: the order of pointer updates of the source, and the tree they leave. */
module AvlPointers {
  import opened BinaryTree
  import opened BinaryTurn
  import opened AvlRotate

  method SingleRotate(node: Node, dir: nat, ghost m: Mem, ghost a: Tree, ghost tag: int, ghost b: Tree, ghost child0: Node,
                      ghost ctag: int, ghost c: Tree, ghost up: Node?)
    returns (child: Node, ghost m1: Mem)
    requires dir <= 1 && Mirrors(m) && Linked(m, Mk(dir, a, node, tag, Mk(dir, b, child0, ctag, c)), up)
    requires Apart(Mk(dir, a, node, tag, Mk(dir, b, child0, ctag, c)))
    modifies m.Keys
    ensures child == child0 && Mirrors(m1) && m1.Keys == m.Keys
    ensures Turned(m, m1, dir, a, node, b, child, c, SingleBalance(ctag, dir), -SingleBalance(ctag, dir))
  {
    TurnNodes(m, dir, a, node, tag, b, child0, ctag, c, up);
    hide *;
    PeekChild(m, node, 1 - dir);
    var rightDir := 1 - dir;
    child := node.Child(rightDir);
    ghost var m2 := Turn(node, child, dir, m);
    RepointedTag(m, m2, dir, node, child, Root(b));
    PeekChild(m2, child, dir);
    var balance := LowBit(Complement(child.tag)) * D2B(rightDir);
    m1 := SetTags(node, balance, child, -balance, m2);
    SingleBalanceIs(ctag, dir);
    TurnedCells(m, m2, m1, dir, a, node, b, child, c, balance, -balance);
  }

  lemma SingleBalanceIs(tag: int, dir: nat)
    requires dir <= 1
    ensures SingleBalance(tag, dir) == LowBit(Complement(tag)) * D2B(1 - dir)
  {
  }

  // ---------------------------------------------------------------- double rotation

  /** The cells after a double rotation's pointer updates: left is between node and child from now on. */
  ghost predicate Repointed2(m: Mem, m1: Mem, dir: nat, node: Node, child: Node, left: Node, b: Node?, c: Node?)
    requires dir <= 1
  {
    m1.Keys == m.Keys && {node, child, left} <= m.Keys && (b != null ==> b in m) && (c != null ==> c in m) &&
    m1[node] == m[node].WithChild(1 - dir, b).(parent := left) &&
    m1[child] == m[child].WithChild(dir, c).(parent := left) &&
    m1[left] == m[left].WithChild(dir, node).WithChild(1 - dir, child) &&
    (b != null ==> m1[b] == m[b].(parent := node)) && (c != null ==> m1[c] == m[c].(parent := child)) &&
    forall x :: x in m && x != node && x != child && x != left && x != b && x != c ==> m1[x] == m[x]
  }

  ghost predicate Distinct(node: Node, child: Node, left: Node, b: Node?, c: Node?) {
    node != child && node != left && child != left && b !in {node, child, left} && c !in {node, child, left} &&
    (b != null ==> b != c)
  }

  lemma Compose2(m: Mem, m1: Mem, m2: Mem, m3: Mem, m4: Mem, m5: Mem, m6: Mem, m7: Mem, m8: Mem,
                 dir: nat, node: Node, child: Node, left: Node, b: Node?, c: Node?)
    requires dir <= 1 && {node, child, left} <= m.Keys && (b != null ==> b in m) && (c != null ==> c in m)
    requires Distinct(node, child, left, b, c)
    requires m1 == m[node := m[node].WithChild(1 - dir, b)]
    requires if b == null then m2 == m1 else m2 == m1[b := m1[b].(parent := node)]
    requires m3 == m2[child := m2[child].WithChild(dir, c)]
    requires if c == null then m4 == m3 else m4 == m3[c := m3[c].(parent := child)]
    requires m5 == m4[left := m4[left].WithChild(dir, node)] && m6 == m5[node := m5[node].(parent := left)]
    requires m7 == m6[left := m6[left].WithChild(1 - dir, child)] && m8 == m7[child := m7[child].(parent := left)]
    ensures Repointed2(m, m8, dir, node, child, left, b, c)
  {
    assert m8[node] == m7[node] == m6[node] && m5[node] == m4[node] == m3[node] == m2[node] == m1[node];
    assert m7[child] == m6[child] == m5[child] == m4[child] == m3[child] && m2[child] == m1[child] == m[child];
    assert m8[left] == m7[left] && m6[left] == m5[left] && m4[left] == m3[left] == m2[left] == m1[left] == m[left];
    if b != null {
      assert m8[b] == m7[b] == m6[b] == m5[b] == m4[b] == m3[b] == m2[b] && m1[b] == m[b];
    }
    if c != null {
      assert m8[c] == m7[c] == m6[c] == m5[c] == m4[c] && m3[c] == m2[c] == m1[c] == m[c];
    }
  }

  method TurnTwice(node: Node, child: Node, left: Node, dir: nat, ghost m: Mem) returns (ghost m1: Mem)
    requires dir <= 1 && Mirrors(m) && {node, child, left} <= m.Keys
    requires Distinct(node, child, left, m[left].Child(dir), m[left].Child(1 - dir))
    requires m[left].Child(dir) != null ==> m[left].Child(dir) in m
    requires m[left].Child(1 - dir) != null ==> m[left].Child(1 - dir) in m
    modifies m.Keys
    ensures Mirrors(m1) && Repointed2(m, m1, dir, node, child, left, m[left].Child(dir), m[left].Child(1 - dir))
  {
    hide *;
    var rightDir := 1 - dir;
    ghost var b, c := m[left].Child(dir), m[left].Child(rightDir);
    PeekChild(m, left, dir);
    ghost var n1 := SetChild(node, rightDir, left.Child(dir), m);
    PutChild(m[node], rightDir, b);
    PeekChild(n1, node, rightDir);
    ghost var n2 := n1;
    if node.Child(rightDir) != null {
      n2 := SetParent(node.Child(rightDir), node, n1);
    }
    DistinctFacts(node, child, left, b, c);
    assert n2[left] == m[left] && n2[child] == m[child];
    PeekChild(n2, left, rightDir);
    ghost var n3 := SetChild(child, dir, left.Child(rightDir), n2);
    PutChild(m[child], dir, c);
    PeekChild(n3, child, dir);
    ghost var n4 := n3;
    if child.Child(dir) != null {
      n4 := SetParent(child.Child(dir), child, n3);
    }
    ghost var n5 := SetChild(left, dir, node, n4);
    ghost var n6 := SetParent(node, left, n5);
    ghost var n7 := SetChild(left, rightDir, child, n6);
    m1 := SetParent(child, left, n7);
    Compose2(m, n1, n2, n3, n4, n5, n6, n7, m1, dir, node, child, left, b, c);
  }

  lemma DistinctFacts(node: Node, child: Node, left: Node, b: Node?, c: Node?)
    requires Distinct(node, child, left, b, c)
    ensures node != child && node != left && child != left && b !in {node, child, left} && c !in {node, child, left}
  {
  }

  /** The subtree of a double rotation: a node ((b left c) child d), to side dir. */
  datatype Parts = Parts(dir: nat, a: Tree, node: Node, tag: int, b: Tree, left: Node, ltag: int, c: Tree, child: Node, ctag: int, d: Tree)

  ghost function Inner(p: Parts): Tree {
    Mk(p.dir, p.b, p.left, p.ltag, p.c)
  }

  ghost function Whole(p: Parts): Tree {
    Mk(p.dir, p.a, p.node, p.tag, Mk(p.dir, Inner(p), p.child, p.ctag, p.d))
  }

  ghost function Doubled(p: Parts): Tree
    requires p.dir <= 1
  {
    Double(p.dir, p.a, p.node, p.b, p.left, p.ltag, p.c, p.child, p.d)
  }

  /** What the cells say before a double rotation. */
  ghost predicate Before(m: Mem, p: Parts)
    requires p.dir <= 1
  {
    {p.node, p.child, p.left} <= m.Keys && Distinct(p.node, p.child, p.left, Root(p.b), Root(p.c)) &&
    (p.b.Fork? ==> p.b.node in m) && (p.c.Fork? ==> p.c.node in m) &&
    m[p.node].Child(p.dir) == Root(p.a) && m[p.node].Child(1 - p.dir) == p.child &&
    m[p.child].Child(p.dir) == p.left && m[p.child].Child(1 - p.dir) == Root(p.d) &&
    m[p.left].Child(p.dir) == Root(p.b) && m[p.left].Child(1 - p.dir) == Root(p.c) && m[p.left].parent == p.child &&
    m[p.left].tag == p.ltag && m[p.child].tag == p.ctag &&
    Linked(m, p.a, p.node) && Linked(m, p.b, p.left) && Linked(m, p.c, p.left) && Linked(m, p.d, p.child)
  }

  /** The subtrees and the three nodes are apart. */
  ghost predicate PartsApart(p: Parts) {
    Foot(p.a) !! Foot(p.b) !! Foot(p.c) !! Foot(p.d) !! {p.node, p.child, p.left} &&
    p.node != p.child && p.node != p.left && p.child != p.left && Apart(p.b) && Apart(p.c)
  }

  lemma PartsOfWhole(p: Parts)
    requires Apart(Whole(p))
    ensures PartsApart(p) && Foot(Whole(p)) == {p.node, p.child, p.left} + Foot(p.a) + Foot(p.b) + Foot(p.c) + Foot(p.d)
  {
    MkParts(p.dir, p.b, p.left, p.ltag, p.c);
    MkParts(p.dir, Inner(p), p.child, p.ctag, p.d);
    MkParts(p.dir, p.a, p.node, p.tag, Mk(p.dir, Inner(p), p.child, p.ctag, p.d));
    hide Foot, Apart, Mk;
  }

  lemma DoubleNodes(m: Mem, p: Parts, up: Node?)
    requires p.dir <= 1 && Linked(m, Whole(p), up) && PartsApart(p)
    ensures Before(m, p)
  {
    LinkedMk(m, p.dir, p.a, p.node, p.tag, Mk(p.dir, Inner(p), p.child, p.ctag, p.d), up);
    LinkedMk(m, p.dir, Inner(p), p.child, p.ctag, p.d, p.node);
    LinkedMk(m, p.dir, p.b, p.left, p.ltag, p.c, p.child);
    LinkedMemory(m, p.b, p.left);
    LinkedMemory(m, p.c, p.left);
    RootInFoot(p.b);
    RootInFoot(p.c);
    hide Linked, Foot, Apart, Mk;
  }

  /** What the cells say after it, with the new balances in place. */
  ghost predicate After(m: Mem, m1: Mem, p: Parts)
    requires p.dir <= 1
  {
    var bs := DoubleBalances(p.ltag, p.dir);
    m1.Keys == m.Keys && {p.node, p.child, p.left} <= m1.Keys &&
    m1[p.node].Child(p.dir) == Root(p.a) && m1[p.node].Child(1 - p.dir) == Root(p.b) &&
    m1[p.node].parent == p.left && m1[p.node].tag == bs.0 &&
    m1[p.child].Child(p.dir) == Root(p.c) && m1[p.child].Child(1 - p.dir) == Root(p.d) &&
    m1[p.child].parent == p.left && m1[p.child].tag == bs.1 &&
    m1[p.left].Child(p.dir) == p.node && m1[p.left].Child(1 - p.dir) == p.child &&
    m1[p.left].parent == p.child && m1[p.left].tag == 0 &&
    (p.b.Fork? ==> p.b.node in m && m1[p.b.node] == m[p.b.node].(parent := p.node)) &&
    (p.c.Fork? ==> p.c.node in m && m1[p.c.node] == m[p.c.node].(parent := p.child)) &&
    forall x :: x in m && x !in {p.node, p.child, p.left} && x != Root(p.b) && x != Root(p.c) ==> m1[x] == m[x]
  }

  lemma DoubleLinked(m: Mem, m1: Mem, p: Parts)
    requires p.dir <= 1 && Before(m, p) && PartsApart(p) && After(m, m1, p)
    ensures Linked(m1, Doubled(p), p.child)
  {
    var bs := DoubleBalances(p.ltag, p.dir);
    hide Linked, Apart, Mk, DoubleBalances, Double;
    RootInFoot(p.b);
    RootInFoot(p.c);
    hide Foot;
    LinkedFrame(m, m1, p.a, p.node);
    LinkedFrame(m, m1, p.d, p.child);
    MovedChild(m, m1, p.b, p.left, p.node);
    MovedChild(m, m1, p.c, p.left, p.child);
    LinkedMk(m1, p.dir, p.a, p.node, bs.0, p.b, p.left);
    LinkedMk(m1, p.dir, p.c, p.child, bs.1, p.d, p.left);
    LinkedMk(m1, p.dir, Mk(p.dir, p.a, p.node, bs.0, p.b), p.left, 0, Mk(p.dir, p.c, p.child, bs.1, p.d), p.child);
    DoubledIs(p);
  }

  lemma DoubledIs(p: Parts)
    requires p.dir <= 1
    ensures var bs := DoubleBalances(p.ltag, p.dir);
      Doubled(p) == Mk(p.dir, Mk(p.dir, p.a, p.node, bs.0, p.b), p.left, 0, Mk(p.dir, p.c, p.child, bs.1, p.d))
  {
  }

  lemma AfterCells(m: Mem, m1: Mem, m2: Mem, m3: Mem, p: Parts)
    requires p.dir <= 1 && Before(m, p) && Repointed2(m, m1, p.dir, p.node, p.child, p.left, Root(p.b), Root(p.c))
    requires var bs := DoubleBalances(p.ltag, p.dir);
      m2.Keys == m1.Keys && m2[p.node] == m1[p.node].(tag := bs.0) && m2[p.child] == m1[p.child].(tag := bs.1)
    requires forall x :: x in m1 && x != p.node && x != p.child ==> m2[x] == m1[x]
    requires m3 == m2[p.left := m2[p.left].(tag := 0)]
    ensures After(m, m3, p)
  {
    hide Linked, DoubleBalances;
  }

  method DoubleRotate(node: Node, dir: nat, ghost m: Mem, ghost p: Parts) returns (left: Node, ghost m1: Mem)
    requires dir <= 1 && Mirrors(m) && p.dir == dir && p.node == node && Before(m, p)
    modifies m.Keys
    ensures left == p.left && Mirrors(m1) && After(m, m1, p)
  {
    BeforeFacts(m, p);
    hide *;
    var rightDir := 1 - dir;
    PeekChild(m, node, rightDir);
    var child := node.Child(rightDir);
    PeekChild(m, child, dir);
    left := child.Child(dir);
    ghost var n1 := TurnTwice(node, child, left, dir, m);
    Repointed2Tag(m, n1, dir, node, child, left, Root(p.b), Root(p.c));
    PeekChild(n1, left, dir);
    var nodeBalance, childBalance := NewBalances(left.tag, dir);
    ghost var n2 := SetTags(node, nodeBalance, child, childBalance, n1);
    m1 := SetTag(left, 0, n2);
    AfterCells(m, n1, n2, m1, p);
  }

  lemma BeforeFacts(m: Mem, p: Parts)
    requires p.dir <= 1 && Before(m, p)
    ensures {p.node, p.child, p.left} <= m.Keys && Distinct(p.node, p.child, p.left, Root(p.b), Root(p.c))
    ensures p.node != p.child && p.node != p.left && p.child != p.left
    ensures m[p.node].Child(1 - p.dir) == p.child && m[p.child].Child(p.dir) == p.left
    ensures m[p.left].Child(p.dir) == Root(p.b) && m[p.left].Child(1 - p.dir) == Root(p.c) && m[p.left].tag == p.ltag
    ensures (Root(p.b) != null ==> Root(p.b) in m) && (Root(p.c) != null ==> Root(p.c) in m)
  {
    hide Linked;
  }

  lemma Repointed2Tag(m: Mem, m1: Mem, dir: nat, node: Node, child: Node, left: Node, b: Node?, c: Node?)
    requires dir <= 1 && Repointed2(m, m1, dir, node, child, left, b, c) && node != child && node != left && child != left
    ensures m1.Keys == m.Keys && {node, child, left} <= m1.Keys && m1[left].tag == m[left].tag
  {
  }

  /** The branch-free arithmetic of a double rotation. */
  method NewBalances(leftBalance: int, dir: nat) returns (nodeBalance: int, childBalance: int)
    requires dir <= 1
    ensures DoubleBalances(leftBalance, dir) == (nodeBalance, childBalance)
  {
    var rightDir := 1 - dir;
    var d := leftBalance - D2B(rightDir);
    d := LowBitOfOr(d, ShiftRight(d));
    var x := D2B(d * rightDir + (1 - d) * dir);
    var b := LowBit(leftBalance);
    nodeBalance := b * ((1 - d) * x);
    childBalance := b * (d * x);
  }
}
