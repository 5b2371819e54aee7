/** Unlinking a node: its only child moves up, or its neighbour in order takes its place. */
module BinaryUnlink {
  import opened BinaryTree
  import opened BinarySplice

  /** The only child of the unlinked node has moved up. */
  lemma MovedUp(m: Mem, m1: Mem, root1: Node?, c: Ctx, t: Tree, child: Tree, dir: nat)
    requires dir <= 1 && t.Fork? && t == Mk(dir, child, t.node, t.tag, Leaf)
    requires Linked(m, t, Owner(c)) && Apart(t) && ApartC(c) && FootC(c) !! Foot(t)
    requires LinkedC(m1, root1, c, Root(child))
    requires child.Fork? ==> child.node in m && child.node in m1 && m1[child.node] == m[child.node].(parent := Owner(c))
    requires Agree(m, m1, Foot(child) - {Root(child)})
    ensures Focus(m1, root1, c, child) && FootC(c) + Foot(child) == FootC(c) + Foot(t) - {t.node}
  {
    MkParts(dir, child, t.node, t.tag, Leaf);
    LinkedMk(m, dir, child, t.node, t.tag, Leaf, Owner(c));
    MovedChild(m, m1, child, t.node, Owner(c));
  }

  /** The link to node is made to point to its only child. */
  method Bypass(head: Head, node: Node, child: Node?, parent: Node?, ghost m: Mem, ghost c: Ctx, ghost t: Tree, ghost ct: Tree, ghost side: nat)
    returns (dir: nat, ghost m1: Mem)
    requires Mirrors(m) && Focus(m, head.root, c, t) && side <= 1 && t.Fork? && t.node == node && t == Mk(side, ct, node, t.tag, Leaf)
    requires child == Root(ct) && parent == Owner(c)
    modifies head, m.Keys
    ensures Mirrors(m1) && m1.Keys == m.Keys && Focus(m1, head.root, c, ct)
    ensures FootC(c) + Foot(ct) == FootC(c) + Foot(t) - {node}
    ensures c.Step? ==> dir == c.dir
  {
    hide *;
    FocusParts(m, head.root, c, t);
    RootIs(t);
    RootIn(t);
    OwnerIn(m, head.root, c, node);
    RootIs(ct);
    ghost var n := m;
    if parent == null {
      dir := 0;
      if child != null {
        OnlyChild(m, side, ct, node, t.tag, Owner(c));
        n := SetParent(child, null, m);
      }
      head.root := child;
      TopLinked(n, child);
      m1 := n;
      BypassedTop(m, m1, head.root, c, t, ct, side);
    } else {
      FocusFactsAt(m, head.root, c, t);
      dir := DirOfChild(node, parent, m, c);
      n := SetChild(parent, dir, child, m);
      if child != null {
        OnlyChild(m, side, ct, node, t.tag, Owner(c));
        n := SetParent(child, parent, n);
      }
      m1 := n;
      Bypassed(m, m1, head.root, c, t, ct, side);
    }
  }

  lemma FocusFactsAt(m: Mem, root: Node?, c: Ctx, t: Tree)
    requires Focus(m, root, c, t) && t.Fork? && Owner(c) != null
    ensures c.Step? && Owner(c) == c.node && c.dir <= 1 && c.node in m
    ensures m[c.node].Child(c.dir) == t.node != m[c.node].Child(1 - c.dir)
  {
    FocusFacts(m, root, c, t);
  }

  lemma OnlyChild(m: Mem, side: nat, ct: Tree, node: Node, tag: int, up: Node?)
    requires side <= 1 && Linked(m, Mk(side, ct, node, tag, Leaf), up) && ct.Fork?
    ensures ct.node in m
  {
    LinkedMk(m, side, ct, node, tag, Leaf, up);
  }

  lemma TopLinked(m: Mem, root: Node?)
    ensures LinkedC(m, root, Top, root)
  {
  }

  lemma BypassedTop(m: Mem, m1: Mem, root1: Node?, c: Ctx, t: Tree, ct: Tree, side: nat)
    requires c == Top && side <= 1 && t.Fork? && t == Mk(side, ct, t.node, t.tag, Leaf)
    requires Linked(m, t, Owner(c)) && Apart(t) && ApartC(c) && FootC(c) !! Foot(t) && root1 == Root(ct)
    requires if ct == Leaf then m1 == m else ct.node in m && m1 == m[ct.node := m[ct.node].(parent := null)]
    ensures Focus(m1, root1, c, ct) && m1.Keys == m.Keys && FootC(c) + Foot(ct) == FootC(c) + Foot(t) - {t.node}
  {
    MovedUp(m, m1, root1, c, t, ct, side);
  }

  lemma Bypassed(m: Mem, m1: Mem, root: Node?, c: Ctx, t: Tree, ct: Tree, side: nat)
    requires c.Step? && side <= 1 && t.Fork? && t == Mk(side, ct, t.node, t.tag, Leaf) && Focus(m, root, c, t) && c.node in m
    requires var n := m[c.node := m[c.node].WithChild(c.dir, Root(ct))];
      if ct == Leaf then m1 == n else ct.node in m && m1 == n[ct.node := n[ct.node].(parent := c.node)]
    ensures Focus(m1, root, c, ct) && m1.Keys == m.Keys && FootC(c) + Foot(ct) == FootC(c) + Foot(t) - {t.node}
  {
    MkParts(side, ct, t.node, t.tag, Leaf);
    RootInFoot(ct);
    CtxNode(c);
    hide Linked, Apart, Mk, Foot, ApartC, FootC, LinkedC;
    HoleChanged(m, m1, root, c, t.node, Root(ct));
    MovedUp(m, m1, root, c, t, ct, side);
  }

  // ---------------------------------------------------------------- a node with two children

  /** Child has got node's place: the link from above, the parent and the tag. */
  ghost predicate PlaceTaken(m: Mem, m1: Mem, root1: Node?, up: Ctx, node: Node, child: Node) {
    m1.Keys == m.Keys && node in m && child in m && LinkedC(m1, root1, up, child) &&
    m1[child] == m[child].(parent := Owner(up), tag := m[node].tag) &&
    forall x :: x in m && x !in FootC(up) && x != child ==> m1[x] == m[x]
  }

  method TakePlace(head: Head, node: Node, child: Node, ghost m: Mem, ghost up: Ctx) returns (ghost m1: Mem)
    requires Mirrors(m) && LinkedC(m, head.root, up, node) && ApartC(up) && node !in FootC(up) && child !in FootC(up)
    requires node in m && child in m && node != child && m[node].parent == Owner(up)
    modifies head, m.Keys
    ensures Mirrors(m1) && PlaceTaken(m, m1, head.root, up, node, child)
  {
    hide *;
    OwnerIn(m, head.root, up, node);
    PeekChild(m, node, 0);
    ghost var n := ChangeChild(node, child, node.parent, head, m, up);
    CtxNode(up);
    AgreeAt(m, n, m.Keys - FootC(up), node);
    AgreeAt(m, n, m.Keys - FootC(up), child);
    PeekChild(n, node, 0);
    ghost var n1 := SetParent(child, node.parent, n);
    PeekChild(n1, node, 0);
    m1 := SetTag(child, node.tag, n1);
    TakenCells(m, n, n1, m1, head.root, up, node, child);
  }

  lemma TakenCells(m: Mem, n: Mem, n1: Mem, m1: Mem, root1: Node?, up: Ctx, node: Node, child: Node)
    requires n.Keys == m.Keys && Agree(m, n, m.Keys - FootC(up)) && LinkedC(n, root1, up, child)
    requires node in m && child in m && node != child && child !in FootC(up) && node !in FootC(up)
    requires n1 == n[child := n[child].(parent := Owner(up))] && m1 == n1[child := n1[child].(tag := m[node].tag)]
    ensures PlaceTaken(m, m1, root1, up, node, child)
  {
    LinkedCFrame(n, m1, root1, up, child);
  }

  lemma NearApart(m: Mem, root: Node?, p: Place, child: Node, ctag: int, r: Tree)
    requires p.d <= 1 && p.o.Fork? && Focus(m, root, At(p), Mk(p.d, r, child, ctag, Leaf))
    ensures Foot(r) !! Foot(p.o) !! FootC(p.up) !! {child} && p.o.node in Foot(p.o) && p.o.node in m
    ensures child in m && m[child].Child(p.d) == Root(r) && p.node in m && m[p.node].tag == p.tag
    ensures Foot(r) <= m.Keys && Foot(p.o) <= m.Keys
  {
    MkParts(p.d, r, child, ctag, Leaf);
    LinkedMk(m, p.d, r, child, ctag, Leaf, p.node);
    RootIn(p.o);
    FootLinked(m, r, child);
    FootLinked(m, p.o, p.node);
    hide Linked, Apart, Mk, Foot;
  }

  /** The other subtree of the place goes over to child. */
  lemma NearWritten(m: Mem, n: Mem, n1: Mem, m1: Mem, root: Node?, root1: Node?, p: Place, child: Node, ctag: int, r: Tree)
    requires p.d <= 1 && p.o.Fork? && Focus(m, root, At(p), Mk(p.d, r, child, ctag, Leaf))
    requires PlaceTaken(m, n, root1, p.up, p.node, child) && p.o.node in n
    requires n1 == n[child := n[child].WithChild(1 - p.d, p.o.node)] && m1 == n1[p.o.node := n1[p.o.node].(parent := child)]
    ensures TookOver(m, m1, root1, p, child, Root(r)) && Agree(m, m1, Foot(r) + (Foot(p.o) - {Root(p.o)}))
    ensures m1.Keys == m.Keys
  {
    NearApart(m, root, p, child, ctag, r);
    PlaceParts(m, n, root1, p.up, p.node, child);
    RootIs(p.o);
    hide *;
    TwoWrites(m, n, n1, m1, FootC(p.up), child, p.o.node, p.d);
    LinkedCFrame(n, m1, root1, p.up, child);
    FoldTookOver(m, m1, root1, p, child, Root(r));
    AgreeOn(m, m1, FootC(p.up), child, p.o.node, Foot(r) + (Foot(p.o) - {Root(p.o)}));
  }

  lemma TwoWrites(m: Mem, n: Mem, n1: Mem, m1: Mem, path: set<Node>, child: Node, o: Node, d: nat)
    requires d <= 1 && n.Keys == m.Keys && child in n && o in n && child != o && child !in path && o !in path
    requires forall x :: x in m && x !in path && x != child ==> n[x] == m[x]
    requires n1 == n[child := n[child].WithChild(1 - d, o)] && m1 == n1[o := n1[o].(parent := child)]
    ensures m1.Keys == m.Keys && m1[o] == m[o].(parent := child)
    ensures m1[child].Child(d) == n[child].Child(d) && m1[child].Child(1 - d) == o
    ensures m1[child].parent == n[child].parent && m1[child].tag == n[child].tag
    ensures forall x :: x in m && x !in path && x != child && x != o ==> m1[x] == m[x]
    ensures Agree(n, m1, path)
  {
    assert n1[o] == n[o] && m1[child] == n1[child];
  }

  lemma FoldTookOver(m: Mem, m1: Mem, root1: Node?, p: Place, child: Node, hole: Node?)
    requires p.d <= 1 && child in m1 && p.o.Fork? && p.o.node in m && p.o.node in m1
    requires m1[child].Child(p.d) == hole && m1[child].Child(1 - p.d) == p.o.node && m1[child].parent == Owner(p.up)
    requires m1[child].tag == p.tag && m1[p.o.node] == m[p.o.node].(parent := child)
    requires LinkedC(m1, root1, p.up, child)
    ensures TookOver(m, m1, root1, p, child, hole)
  {
  }

  lemma AgreeOn(m: Mem, m1: Mem, path: set<Node>, child: Node, o: Node, s: set<Node?>)
    requires m1.Keys == m.Keys && (forall x :: x in m && x !in path && x != child && x != o ==> m1[x] == m[x])
    requires s !! path && child !in s && o !in s
    ensures Agree(m, m1, set x: Node | x in s)
  {
  }

  lemma PlaceParts(m: Mem, m1: Mem, root1: Node?, up: Ctx, node: Node, child: Node)
    requires PlaceTaken(m, m1, root1, up, node, child)
    ensures m1.Keys == m.Keys && LinkedC(m1, root1, up, child) && child in m && node in m
    ensures m1[child].parent == Owner(up) && m1[child].tag == m[node].tag
    ensures forall d :: m1[child].Child(d) == m[child].Child(d)
    ensures forall x :: x in m && x !in FootC(up) && x != child ==> m1[x] == m[x]
  {
  }

  lemma NearNodes(m: Mem, root: Node?, p: Place, child: Node, ctag: int, r: Tree)
    requires p.d <= 1 && p.o.Fork? && Focus(m, root, At(p), Mk(p.d, r, child, ctag, Leaf))
    ensures p.node in m && child in m && p.node != child && m[p.node].parent == Owner(p.up) && m[p.node].tag == p.tag
    ensures LinkedC(m, root, p.up, p.node) && ApartC(p.up) && p.node !in FootC(p.up) && child !in FootC(p.up)
    ensures m[p.node].Child(1 - p.d) == p.o.node && p.o.node in m && p.o.node != child && p.o.node !in FootC(p.up)
    ensures p.o.node != p.node
  {
    MkParts(p.d, r, child, ctag, Leaf);
    LinkedMk(m, p.d, r, child, ctag, Leaf, p.node);
    RootIn(p.o);
    hide Apart, Mk;
  }

  /** The child itself takes the place of node. */
  method TakeNear(head: Head, node: Node, child: Node, dir: nat, ghost m: Mem, ghost p: Place, ghost ctag: int, ghost r: Tree)
    returns (ghost m1: Mem)
    requires Mirrors(m) && dir == p.d <= 1 && node == p.node && p.o.Fork?
    requires Focus(m, head.root, At(p), Mk(p.d, r, child, ctag, Leaf))
    modifies head, m.Keys
    ensures Mirrors(m1) && m1.Keys == m.Keys && Focus(m1, head.root, Taken(p, child), r)
  {
    hide *;
    ghost var root := head.root;
    NearNodes(m, root, p, child, ctag, r);
    var rightDir := 1 - dir;
    ghost var n := TakePlace(head, node, child, m, p.up);
    PlaceKept(m, n, head.root, p.up, node, child, p.o.node);
    PeekChild(n, node, rightDir);
    ghost var n1 := SetChild(child, rightDir, node.Child(rightDir), n);
    PutChild(n[child], rightDir, p.o.node);
    PeekChild(n1, child, rightDir);
    m1 := SetParent(child.Child(rightDir), child, n1);
    NearWritten(m, n, n1, m1, root, head.root, p, child, ctag, r);
    SpliceNear(m, m1, root, head.root, p, child, ctag, r);
  }

  lemma PlaceKept(m: Mem, m1: Mem, root1: Node?, up: Ctx, node: Node, child: Node, o: Node)
    requires PlaceTaken(m, m1, root1, up, node, child) && node !in FootC(up) && node != child
    requires o in m && o !in FootC(up) && o != child
    ensures m1.Keys == m.Keys && m1[node] == m[node] && m1[o] == m[o] && child in m1 && node in m1 && o in m1
  {
  }

  // ---------------------------------------------------------------- the neighbour is farther down

  ghost predicate FarDistinct(path: set<Node>, child: Node, s: Node, par: Node, r: Node?, o: Node) {
    child !in path && s !in path && par !in path && r !in path && o !in path &&
    child != s && child != par && child != o && s != o && par != o && r != child && r != s && r != par && r != o
  }

  /** The six writes after the place has been taken. */
  lemma SixWrites(m: Mem, n: Mem, n1: Mem, n2: Mem, n3: Mem, n4: Mem, n5: Mem, n6: Mem, path: set<Node>,
                  child: Node, s: Node, par: Node, r: Node?, o: Node, d: nat)
    requires d <= 1 && n.Keys == m.Keys && {child, s, par, o} <= m.Keys && (r != null ==> r in m)
    requires FarDistinct(path, child, s, par, r, o)
    requires forall x :: x in m && x !in path && x != child ==> n[x] == m[x]
    requires n1 == n[child := n[child].WithChild(d, s)] && n2 == n1[s := n1[s].(parent := child)]
    requires n3 == n2[par := n2[par].WithChild(1 - d, r)]
    requires if r == null then n4 == n3 else n4 == n3[r := n3[r].(parent := par)]
    requires n5 == n4[child := n4[child].WithChild(1 - d, o)] && n6 == n5[o := n5[o].(parent := child)]
    ensures n6.Keys == m.Keys && n6[o] == m[o].(parent := child)
    ensures n6[child] == n[child].WithChild(d, s).WithChild(1 - d, o)
    ensures s != par ==> n6[s] == m[s].(parent := child) && n6[par] == m[par].WithChild(1 - d, r)
    ensures s == par ==> n6[s] == m[s].(parent := child).WithChild(1 - d, r)
    ensures r != null ==> n6[r] == m[r].(parent := par)
    ensures forall x :: x in m && x !in path && x !in {child, s, par, o} && x != r ==> n6[x] == m[x]
    ensures Agree(n, n6, path)
  {
    assert n6[child] == n5[child] && n4[child] == n3[child] == n2[child] == n1[child];
    assert n6[s] == n5[s] == n4[s] == n3[s] || s == par;
    assert n6[par] == n5[par] == n4[par] == n3[par];
    assert n5[o] == n4[o] == n3[o] == n2[o] == n1[o] == n[o];
    if r != null {
      assert n6[r] == n5[r] == n4[r] && n3[r] == n2[r] == n1[r] == n[r];
    }
  }

  lemma FarNodes(m: Mem, root: Node?, f: Far)
    requires FarOk(m, root, f) && f.c.Step?
    ensures FarDistinct(FootC(f.p.up), f.child, f.s, f.c.node, Root(f.r), f.p.o.node)
    ensures {f.child, f.s, f.c.node, f.p.o.node, f.p.node} <= m.Keys && (Root(f.r) != null ==> Root(f.r) in m)
    ensures LinkedC(m, root, f.p.up, f.p.node) && ApartC(f.p.up) && f.p.node !in FootC(f.p.up)
    ensures f.p.node !in {f.child, f.s, f.c.node, f.p.o.node} && f.p.node != Root(f.r)
    ensures m[f.p.node].parent == Owner(f.p.up) && m[f.p.node].tag == f.p.tag
    ensures m[f.p.node].Child(f.p.d) == f.s && m[f.p.node].Child(1 - f.p.d) == f.p.o.node
    ensures m[f.child].Child(f.p.d) == Root(f.r)
  {
    FarApart(m, root, f);
    FarLinks(m, root, f);
    BaseLinked(m, root, f.c, First(f), E(f), f.child);
    RootInFoot(f.r);
    RootIn(f.p.o);
    FarSets(f);
    hide Over, Rebase, Spine, Foot, Apart;
    LinkedMemory(m, f.r, f.child);
  }

  lemma FarSets(f: Far)
    requires f.p.d <= 1
    ensures FootC(First(f)) == {f.s, f.p.node} + Foot(f.outer) + Foot(f.p.o) + FootC(f.p.up)
    ensures ApartC(First(f)) ==> f.s !in Foot(f.outer) + {f.p.node} + Foot(f.p.o) + FootC(f.p.up)
    ensures ApartC(First(f)) ==> f.p.node !in Foot(f.p.o) + FootC(f.p.up) && Foot(f.p.o) !! FootC(f.p.up) && ApartC(f.p.up)
    ensures ApartC(First(f)) ==> Foot(f.outer) !! FootC(At(f.p)) && Apart(f.p.o) && Apart(f.outer)
  {
    hide Foot;
    assert ApartC(First(f)) ==> ApartC(At(f.p));
  }

  /** All that FarWritten asks for. */
  lemma FarCells(m: Mem, n: Mem, m1: Mem, root: Node?, root1: Node?, f: Far)
    requires FarOk(m, root, f) && f.c.Step? && f.c.dir == 1 - f.p.d && PlaceTaken(m, n, root1, f.p.up, f.p.node, f.child)
    requires var o, par, r, d := f.p.o.node, f.c.node, Root(f.r), f.p.d;
      {f.child, f.s, par, o, f.p.node} <= m.Keys && (r != null ==> r in m) && m[f.p.node].tag == f.p.tag &&
      FarDistinct(FootC(f.p.up), f.child, f.s, par, r, o) && m1.Keys == m.Keys && m1[o] == m[o].(parent := f.child) &&
      m1[f.child] == n[f.child].WithChild(d, f.s).WithChild(1 - d, o) &&
      (f.s != par ==> m1[f.s] == m[f.s].(parent := f.child) && m1[par] == m[par].WithChild(1 - d, r)) &&
      (f.s == par ==> m1[f.s] == m[f.s].(parent := f.child).WithChild(1 - d, r)) &&
      (r != null ==> m1[r] == m[r].(parent := par)) &&
      (forall x :: x in m && x !in FootC(f.p.up) && x !in {f.child, f.s, par, o} && x != r ==> m1[x] == m[x]) &&
      Agree(n, m1, FootC(f.p.up))
    ensures FarWritten(m, m1, root1, f)
  {
    PlaceParts(m, n, root1, f.p.up, f.p.node, f.child);
    RootIs(f.p.o);
    RootIs(f.r);
    FarUntouched(m, m1, root, f);
    hide Over, Rebase, Spine, Foot, Apart, Focus, FootC, ApartC, Linked, LinkedC, FarOk, PlaceTaken, Agree;
    LinkedCFrame(n, m1, root1, f.p.up, f.child);
    FoldTookOver(m, m1, root1, f.p, f.child, f.s);
    hide TookOver;
  }

  lemma FarUntouched(m: Mem, m1: Mem, root: Node?, f: Far)
    requires FarOk(m, root, f) && f.c.Step? && m1.Keys == m.Keys
    requires forall x :: x in m && x !in FootC(f.p.up) && x !in {f.child, f.s, f.c.node, f.p.o.node} && x != Root(f.r) ==> m1[x] == m[x]
    ensures Agree(m, m1, (Spine(f.c, First(f), E(f)) - {f.c.node}) + Foot(f.outer) + (Foot(f.r) - {Root(f.r)}) + (Foot(f.p.o) - {Root(f.p.o)}))
  {
    FarApart(m, root, f);
    FarSets(f);
    RootInFoot(f.r);
    RootIs(f.p.o);
    hide Over, Rebase, Spine, Foot, Apart, Focus, FootC, ApartC, Linked, LinkedC;
  }

  /** The neighbour gets node's child s; what it leaves behind goes to its parent. */
  method LeaveBehind(node: Node, child: Node, parent: Node, leftDir: nat, ghost n: Mem, ghost s: Node, ghost r: Node?)
    returns (ghost n1: Mem, ghost n2: Mem, ghost n3: Mem, ghost n4: Mem)
    requires leftDir <= 1 && Mirrors(n) && {node, child, parent, s} <= n.Keys && (r != null ==> r in n) && node != child
    requires n[child].Child(1 - leftDir) == r && n[node].Child(1 - leftDir) == s
    modifies n.Keys
    ensures Mirrors(n4) && n1 == n[child := n[child].WithChild(1 - leftDir, s)] && n2 == n1[s := n1[s].(parent := child)]
    ensures n3 == n2[parent := n2[parent].WithChild(leftDir, r)]
    ensures if r == null then n4 == n3 else n4 == n3[r := n3[r].(parent := parent)]
  {
    hide *;
    var rightDir := 1 - leftDir;
    PeekChild(n, child, rightDir);
    var right := child.Child(rightDir);
    PeekChild(n, node, rightDir);
    n1 := SetChild(child, rightDir, node.Child(rightDir), n);
    PutChild(n[child], rightDir, s);
    PeekChild(n1, child, rightDir);
    n2 := SetParent(child.Child(rightDir), child, n1);
    n3 := SetChild(parent, leftDir, right, n2);
    PutChild(n2[parent], leftDir, right);
    PeekChild(n3, parent, leftDir);
    n4 := n3;
    if parent.Child(leftDir) != null {
      n4 := SetParent(parent.Child(leftDir), parent, n3);
    }
  }

  /** The neighbour gets node's other child o. */
  method TakeOther(node: Node, child: Node, leftDir: nat, ghost n4: Mem, ghost o: Node) returns (ghost n5: Mem, ghost n6: Mem)
    requires Mirrors(n4) && {node, child, o} <= n4.Keys && n4[node].Child(leftDir) == o
    modifies n4.Keys
    ensures Mirrors(n6) && n5 == n4[child := n4[child].WithChild(leftDir, o)] && n6 == n5[o := n5[o].(parent := child)]
  {
    hide *;
    PeekChild(n4, node, leftDir);
    n5 := SetChild(child, leftDir, node.Child(leftDir), n4);
    PutChild(n4[child], leftDir, o);
    PeekChild(n5, child, leftDir);
    n6 := SetParent(child.Child(leftDir), child, n5);
  }

  lemma NodeKept(m: Mem, n: Mem, n1: Mem, n2: Mem, n3: Mem, n4: Mem, path: set<Node>, child: Node, s: Node, par: Node, r: Node?,
                 node: Node, d: nat)
    requires d <= 1 && n.Keys == m.Keys && {child, s, par, node} <= m.Keys && (r != null ==> r in m)
    requires node !in path && node !in {child, s, par} && node != r
    requires forall x :: x in m && x !in path && x != child ==> n[x] == m[x]
    requires n1 == n[child := n[child].WithChild(d, s)] && n2 == n1[s := n1[s].(parent := child)]
    requires n3 == n2[par := n2[par].WithChild(1 - d, r)]
    requires if r == null then n4 == n3 else n4 == n3[r := n3[r].(parent := par)]
    ensures n4.Keys == m.Keys && n4[node] == m[node] && n[node] == m[node]
  {
  }

  /** The neighbour, at the end of the inner children below child s, takes the place of node. */
  method TakeFar(head: Head, node: Node, child: Node, parent: Node, dir: nat, ghost m: Mem, ghost f: Far)
    returns (ghost m1: Mem)
    requires Mirrors(m) && f.p.d <= 1 && dir == 1 - f.p.d && FarOk(m, head.root, f) && f.c.Step? && f.c.dir == dir
    requires node == f.p.node && child == f.child && parent == f.c.node && f.p.o.Fork?
    modifies head, m.Keys
    ensures Mirrors(m1) && m1.Keys == m.Keys && FarWritten(m, m1, head.root, f)
  {
    hide *;
    ghost var root, o, r := head.root, f.p.o.node, Root(f.r);
    FarNodes(m, root, f);
    DistinctNodes(FootC(f.p.up), child, f.s, parent, r, o);
    ghost var n := TakePlace(head, node, child, m, f.p.up);
    PlaceParts(m, n, head.root, f.p.up, node, child);
    ghost var n1, n2, n3, n4 := LeaveBehind(node, child, parent, dir, n, f.s, r);
    NodeKept(m, n, n1, n2, n3, n4, FootC(f.p.up), child, f.s, parent, r, node, f.p.d);
    ghost var n5;
    n5, m1 := TakeOther(node, child, dir, n4, o);
    FarFinished(m, n, n1, n2, n3, n4, n5, m1, root, head.root, f);
  }

  lemma FarFinished(m: Mem, n: Mem, n1: Mem, n2: Mem, n3: Mem, n4: Mem, n5: Mem, n6: Mem, root: Node?, root1: Node?, f: Far)
    requires FarOk(m, root, f) && f.c.Step? && f.c.dir == 1 - f.p.d && f.p.o.Fork?
    requires PlaceTaken(m, n, root1, f.p.up, f.p.node, f.child) && {f.child, f.s, f.c.node, f.p.o.node} <= n.Keys
    requires Root(f.r) != null ==> Root(f.r) in n
    requires n1 == n[f.child := n[f.child].WithChild(f.p.d, f.s)] && n2 == n1[f.s := n1[f.s].(parent := f.child)]
    requires n3 == n2[f.c.node := n2[f.c.node].WithChild(1 - f.p.d, Root(f.r))]
    requires if Root(f.r) == null then n4 == n3 else n4 == n3[Root(f.r) := n3[Root(f.r)].(parent := f.c.node)]
    requires n5 == n4[f.child := n4[f.child].WithChild(1 - f.p.d, f.p.o.node)]
    requires n6 == n5[f.p.o.node := n5[f.p.o.node].(parent := f.child)]
    ensures FarWritten(m, n6, root1, f) && n6.Keys == m.Keys
  {
    hide *;
    FarNodes(m, root, f);
    PlaceParts(m, n, root1, f.p.up, f.p.node, f.child);
    SixWrites(m, n, n1, n2, n3, n4, n5, n6, FootC(f.p.up), f.child, f.s, f.c.node, Root(f.r), f.p.o.node, f.p.d);
    FarCells(m, n, n6, root, root1, f);
  }

  lemma DistinctNodes(path: set<Node>, child: Node, s: Node, par: Node, r: Node?, o: Node)
    requires FarDistinct(path, child, s, par, r, o)
    ensures child !in path && s !in path && par !in path && o !in path && child != s && child != par && child != o
    ensures s != o && par != o && r != child && r != s && r != par && r != o
  {
  }
}
