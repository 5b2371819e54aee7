/** Taking a whole B-tree down: every node is freed once, and none is looked at afterwards. */
module BTreeDestroy {
  import opened BTreeNode
  import opened BTreeTree
  import opened BTreePath
  import opened BTreeWalk
  import opened BTreeIter
  import opened BTreeIterators
  import opened BTrees

  /** A freed node, with the items that were destroyed before. */
  datatype Grave = Grave(node: Node, items: seq<Item>)

  ghost predicate Freed(freed: seq<Grave>, node: Node) {
    exists i :: 0 <= i < |freed| && freed[i].node == node
  }

  /** No node is freed twice. */
  ghost predicate Once(freed: seq<Grave>) {
    forall i, j :: 0 <= i < j < |freed| ==> freed[i].node != freed[j].node
  }

  /** All objects that have been freed. */
  ghost function FootG(freed: seq<Grave>): set<object> {
    if freed == [] then {} else FootG(freed[..|freed| - 1]) + Own(freed[|freed| - 1].node)
  }

  /** All items that have been destroyed. */
  ghost function ItemsG(freed: seq<Grave>): seq<Item> {
    if freed == [] then [] else ItemsG(freed[..|freed| - 1]) + freed[|freed| - 1].items
  }

  lemma {:induction false} JoinG(a: seq<Grave>, b: seq<Grave>)
    ensures FootG(a + b) == FootG(a) + FootG(b) && ItemsG(a + b) == ItemsG(a) + ItemsG(b)
  {
    if b == [] {
      assert a + b == a;
    } else {
      var n := |b| - 1;
      JoinG(a, b[..n]);
      assert (a + b)[..|a + b| - 1] == a + b[..n];
    }
  }

  lemma OneG(g: Grave)
    ensures FootG([g]) == Own(g.node) && ItemsG([g]) == g.items
  {
    assert [g][..0] == [];
  }

  lemma {:induction false} InFootG(freed: seq<Grave>, i: nat)
    requires i < |freed|
    ensures freed[i].node in FootG(freed)
  {
    if i < |freed| - 1 {
      InFootG(freed[..|freed| - 1], i);
    }
  }

  lemma OnceJoin(a: seq<Grave>, b: seq<Grave>)
    requires Once(a) && Once(b) && FootG(a) !! FootG(b)
    ensures Once(a + b)
  {
    forall i, j | 0 <= i < j < |a + b| ensures (a + b)[i].node != (a + b)[j].node {
      if i < |a| <= j {
        InFootG(a, i);
        InFootG(b, j - |a|);
      }
    }
  }

  // ---------------------------------------------------------------- the order of freeing

  /** Children first, from left to right. */
  ghost function Graves(t: Tree): seq<Grave>
    decreases t, 1
  {
    GravesK(t.kids) + [Grave(t.node, t.items)]
  }

  ghost function GravesK(kids: seq<Tree>): seq<Grave>
    decreases kids, 0
  {
    if kids == [] then [] else Graves(kids[0]) + GravesK(kids[1..])
  }

  lemma {:induction false} GravesAppend(a: seq<Tree>, b: seq<Tree>)
    ensures GravesK(a + b) == GravesK(a) + GravesK(b)
  {
    if a == [] {
      assert a + b == b;
    } else {
      assert (a + b)[0] == a[0] && (a + b)[1..] == a[1..] + b;
      GravesAppend(a[1..], b);
    }
  }

  lemma GravesOne(t: Tree)
    ensures GravesK([t]) == Graves(t)
  {
    assert [t][1..] == [];
  }

  lemma {:induction false} GravesFoot(t: Tree, maxItems: nat)
    ensures FootG(Graves(t)) == Foot(t) && (Rep(t, maxItems) ==> Once(Graves(t)))
    decreases t, 1
  {
    GravesKFoot(t.kids, maxItems);
    JoinG(GravesK(t.kids), [Grave(t.node, t.items)]);
    OneG(Grave(t.node, t.items));
    if Rep(t, maxItems) {
      OnceJoin(GravesK(t.kids), [Grave(t.node, t.items)]);
    }
  }

  lemma {:induction false} GravesKFoot(kids: seq<Tree>, maxItems: nat)
    ensures FootG(GravesK(kids)) == FootK(kids) && (RepK(kids, maxItems) ==> Once(GravesK(kids)))
    decreases kids, 0
  {
    if kids != [] {
      GravesFoot(kids[0], maxItems);
      GravesKFoot(kids[1..], maxItems);
      JoinG(Graves(kids[0]), GravesK(kids[1..]));
      if RepK(kids, maxItems) {
        OnceJoin(Graves(kids[0]), GravesK(kids[1..]));
      }
    }
  }

  lemma WeaveOpen(kids: seq<Tree>, items: seq<Item>)
    requires |kids| == |items| + 1
    ensures GravesK(kids) == Graves(kids[0]) + GravesK(kids[1..])
    ensures if items == [] then Weave(kids, items) == Flat(kids[0]) && GravesK(kids[1..]) == []
      else Weave(kids, items) == Flat(kids[0]) + [items[0]] + Weave(kids[1..], items[1..])
    ensures items != [] ==> multiset(items) == multiset{items[0]} + multiset(items[1..])
  {
    if items != [] {
      assert items == [items[0]] + items[1..];
    }
  }

  lemma RestShapes(kids: seq<Tree>, h: nat, maxItems: nat)
    requires kids != [] && Shapes(kids, h, maxItems)
    ensures Shape(kids[0], h, maxItems / 2, maxItems) && Shapes(kids[1..], h, maxItems)
  {
  }

  lemma NoItemsG()
    ensures ItemsG([]) == []
  {
  }

  lemma {:induction false} WeaveMulti(kids: seq<Tree>, items: seq<Item>, h: nat, maxItems: nat)
    requires |kids| == |items| + 1 && Shapes(kids, h, maxItems) && 1 <= h
    ensures multiset(Weave(kids, items)) == multiset(ItemsG(GravesK(kids))) + multiset(items)
    decreases h, |kids|
  {
    hide *;
    RestShapes(kids, h, maxItems);
    WeaveOpen(kids, items);
    GravesItems(kids[0], h, maxItems / 2, maxItems);
    JoinG(Graves(kids[0]), GravesK(kids[1..]));
    if items == [] {
      NoItemsG();
    } else {
      WeaveMulti(kids[1..], items[1..], h, maxItems);
    }
  }

  /** All items of the tree are destroyed, each of them once. */
  lemma {:induction false} GravesItems(t: Tree, h: nat, lo: nat, maxItems: nat)
    requires Shape(t, h, lo, maxItems)
    ensures multiset(ItemsG(Graves(t))) == multiset(Flat(t))
    decreases h, 0
  {
    JoinG(GravesK(t.kids), [Grave(t.node, t.items)]);
    OneG(Grave(t.node, t.items));
    if h > 1 {
      WeaveMulti(t.kids, t.items, h - 1, maxItems);
    } else {
      assert [] + t.items == t.items;
    }
  }

  // ---------------------------------------------------------------- where the loop is

  /** What has been freed before the subtree at the end of the path. */
  ghost function Gone(fs: seq<Frame>): seq<Grave> {
    if fs == [] then [] else Gone(Init(fs)) + GravesK(Last(fs).left)
  }

  lemma PlugGraves(f: Frame, t: Tree)
    ensures Graves(Plug(f, t)) == GravesK(f.left) + Graves(t) + (GravesK(f.right) + [Grave(f.node, f.items)])
  {
    GravesAppend(f.left + [t], f.right);
    GravesAppend(f.left, [t]);
    GravesOne(t);
  }

  /** What is freed after it. */
  ghost function ToCome(fs: seq<Frame>): seq<Grave> {
    if fs == [] then [] else GravesK(Last(fs).right) + [Grave(Last(fs).node, Last(fs).items)] + ToCome(Init(fs))
  }

  lemma {:induction false} WholeGraves(fs: seq<Frame>, t: Tree)
    ensures Graves(Rebuild(fs, t)) == Gone(fs) + Graves(t) + ToCome(fs)
  {
    if fs != [] {
      var f := Last(fs);
      WholeGraves(Init(fs), Plug(f, t));
      PlugGraves(f, t);
      hide Graves, GravesK;
      Regrouped(Gone(Init(fs)), GravesK(f.left), Graves(t), GravesK(f.right), [Grave(f.node, f.items)], ToCome(Init(fs)));
    }
  }

  lemma Regrouped<T>(a: seq<T>, l: seq<T>, t: seq<T>, r: seq<T>, n: seq<T>, b: seq<T>)
    ensures a + (l + t + (r + n)) + b == (a + l) + t + (r + n + b)
  {
  }

  /** The first k children of the node at the spot have been freed. */
  ghost predicate Tearing(w: Whole, c: Spot, path: seq<Pos>, k: nat, freed: seq<Grave>) {
    Standing(w, c, path) && k <= |c.t.kids| && freed == Gone(c.fs) + GravesK(c.t.kids[..k])
  }

  lemma PartGraves(t: Tree, k: nat)
    requires k <= |t.kids|
    ensures Graves(t) == GravesK(t.kids[..k]) + GravesK(t.kids[k..]) + [Grave(t.node, t.items)]
  {
    GravesAppend(t.kids[..k], t.kids[k..]);
    assert t.kids == t.kids[..k] + t.kids[k..];
  }

  lemma OnceLater(a: seq<Grave>, b: seq<Grave>, g: Grave, d: seq<Grave>)
    requires Once(a + b + [g] + d)
    ensures !Freed(a, g.node)
  {
    var s := a + b + [g] + d;
    assert s[|a| + |b|] == g;
    forall i | 0 <= i < |a| ensures a[i].node != g.node {
      assert s[i] == a[i];
    }
  }

  lemma Divided(tp: Tree, fs: seq<Frame>, t: Tree, k: nat, freed: seq<Grave>)
    requires Rebuild(fs, t) == tp && k <= |t.kids| && freed == Gone(fs) + GravesK(t.kids[..k])
    ensures Graves(tp) == freed + GravesK(t.kids[k..]) + [Grave(t.node, t.items)] + ToCome(fs)
  {
    WholeGraves(fs, t);
    PartGraves(t, k);
    hide *;
    Divide(Gone(fs), GravesK(t.kids[..k]), GravesK(t.kids[k..]), [Grave(t.node, t.items)], ToCome(fs));
  }

  lemma Divide<T>(a: seq<T>, x: seq<T>, y: seq<T>, n: seq<T>, b: seq<T>)
    ensures a + (x + y + n) + b == (a + x) + y + n + b
  {
  }

  /** Everything freed comes earlier in the order of freeing than the node at hand. */
  lemma Earlier(w: Whole, c: Spot, path: seq<Pos>, k: nat, freed: seq<Grave>)
    requires Tearing(w, c, path, k, freed) && Rep(w.tp, w.maxItems)
    ensures !Freed(freed, c.t.node) && |freed| < |Graves(w.tp)|
  {
    RootedKids(w, c, path);
    Divided(w.tp, c.fs, c.t, k, freed);
    hide *;
    GravesFoot(w.tp, w.maxItems);
    OnceLater(freed, GravesK(c.t.kids[k..]), Grave(c.t.node, c.t.items), ToCome(c.fs));
  }

  lemma TopNode(t: Tree, maxItems: nat)
    requires Rep(t, maxItems)
    ensures t.node.Fits() && t.node.Items() == t.items && t.node.numItems == |t.items|
  {
  }

  lemma Stands(w: Whole, c: Spot, path: seq<Pos>, k: nat, freed: seq<Grave>)
    requires Tearing(w, c, path, k, freed)
    ensures Standing(w, c, path) && k <= |c.t.kids|
  {
  }

  /** The node at hand has not been freed, and it is in memory. */
  lemma NotFreed(w: Whole, c: Spot, path: seq<Pos>, k: nat, freed: seq<Grave>)
    requires Tearing(w, c, path, k, freed) && Rep(w.tp, w.maxItems)
    ensures !Freed(freed, c.t.node) && |freed| < |Graves(w.tp)|
    ensures path != [] && path[|path| - 1] == Pos(c.t.node, c.idx) && |path| == |c.fs| + 1
    ensures c.t.node.Fits() && c.t.node.Items() == c.t.items && c.t.node.numItems == |c.t.items|
    ensures 1 <= c.h && w.height == |c.fs| + c.h
  {
    hide *;
    Stands(w, c, path, k, freed);
    Earlier(w, c, path, k, freed);
    InHand(w, c, path);
    RootedKids(w, c, path);
    WalkMemory(w.tp, c.fs, c.t, w.maxItems);
    TopNode(c.t, w.maxItems);
  }

  lemma TearDown(w: Whole, c: Spot, path: seq<Pos>, freed: seq<Grave>)
    requires Tearing(w, c, path, c.idx, freed) && Rep(w.tp, w.maxItems) && 1 < c.h && c.idx <= |c.t.items|
    ensures c.idx < |c.t.kids| && c.idx < c.t.node.children.Length && c.t.node.children[c.idx] == c.t.kids[c.idx].node
    ensures Tearing(w, Down(c, 0), path + [Pos(c.t.kids[c.idx].node, 0)], 0, freed)
  {
    DownStanding(w, c, path, 0);
    var d := Down(c, 0);
    GoneDeeper(c.fs, c.t, c.idx);
    assert d.t.kids[..0] == [] && GravesK([]) == [];
    hide Standing, Graves, Gone;
  }

  lemma GoneDeeper(fs: seq<Frame>, t: Tree, idx: nat)
    requires idx < |t.kids|
    ensures Gone(Deeper(fs, t, idx)) == Gone(fs) + GravesK(t.kids[..idx])
  {
    assert Init(Deeper(fs, t, idx)) == fs && Last(Deeper(fs, t, idx)) == FrameAt(t, idx);
  }

  lemma AtGround(w: Whole, c: Spot, path: seq<Pos>, freed: seq<Grave>)
    requires Tearing(w, c, path, c.idx, freed) && c.h == 1
    ensures Tearing(w, c, path, |c.t.kids|, freed)
  {
    RootedKids(w, c, path);
  }

  lemma GoneUp(f: Frame, fs: seq<Frame>, t: Tree)
    requires fs != [] && f == Last(fs)
    ensures var p, k := Plug(f, t), |f.left| + 1;
      k <= |p.kids| && Gone(fs) + Graves(t) == Gone(Init(fs)) + GravesK(p.kids[..k])
  {
    assert Plug(f, t).kids[..|f.left| + 1] == f.left + [t];
    GravesAppend(f.left, [t]);
    GravesOne(t);
    hide Graves, GravesK;
    Assoc(Gone(Init(fs)), GravesK(f.left), Graves(t));
  }

  lemma AllKids(t: Tree)
    ensures GravesK(t.kids[..|t.kids|]) + [Grave(t.node, t.items)] == Graves(t)
  {
    assert t.kids[..|t.kids|] == t.kids;
  }

  lemma UpIs(c: Spot)
    requires c.fs != []
    ensures Up(c).fs == Init(c.fs) && Up(c).t == Plug(Last(c.fs), c.t) && Up(c).idx == |Last(c.fs).left| && Up(c).h == c.h + 1
  {
  }

  /** The node has been freed; its parent is next. */
  lemma TearUp(w: Whole, c: Spot, path: seq<Pos>, freed: seq<Grave>)
    requires Tearing(w, c, path, |c.t.kids|, freed) && |path| > 1
    ensures |path| == |c.fs| + 1 && c.fs != [] && Up(c).idx < |Up(c).t.kids|
    ensures Tearing(w, Up(c), path[..|path| - 1], Up(c).idx + 1, freed + [Grave(c.t.node, c.t.items)])
    ensures Up(c).h > 1 && |Up(c).t.kids| == |Up(c).t.items| + 1
  {
    assert |path| == |c.fs| + 1;
    AllKids(c.t);
    UpIs(c);
    hide Standing, Graves, GravesK, Gone, Init, Last, Plug, Up;
    UpStanding(w, c, path);
    RootedKids(w, c, path);
    RootedKids(w, Up(c), path[..|path| - 1]);
    GoneUp(Last(c.fs), c.fs, c.t);
    Assoc(Gone(c.fs), GravesK(c.t.kids[..|c.t.kids|]), [Grave(c.t.node, c.t.items)]);
  }

  /** The root has been freed, and so has everything. */
  lemma TornDown(w: Whole, c: Spot, path: seq<Pos>, freed: seq<Grave>)
    requires Tearing(w, c, path, |c.t.kids|, freed) && |path| == 1
    ensures freed + [Grave(c.t.node, c.t.items)] == Graves(w.tp)
  {
    assert c.t.kids[..|c.t.kids|] == c.t.kids;
    assert c.fs == [] && Rebuild([], c.t) == c.t;
  }

  lemma TearOn(w: Whole, c: Spot, path: seq<Pos>, freed: seq<Grave>)
    requires Tearing(w, c, path, c.idx + 1, freed)
    ensures path != [] && Tearing(w, Turned(c, c.idx + 1), path[|path| - 1 := Pos(path[|path| - 1].node, c.idx + 1)], c.idx + 1, freed)
    ensures Turned(c, c.idx + 1).t == c.t && Turned(c, c.idx + 1).h == c.h && Turned(c, c.idx + 1).fs == c.fs
    ensures Turned(c, c.idx + 1).idx == c.idx + 1
  {
    Turn(w, c, path, c.idx + 1);
    hide Standing;
  }

  lemma AllDone(w: Whole, c: Spot, path: seq<Pos>, freed: seq<Grave>)
    requires Tearing(w, c, path, |c.t.items| + 1, freed) && |c.t.kids| == |c.t.items| + 1
    ensures Tearing(w, c, path, |c.t.kids|, freed)
  {
  }

  lemma TearStart(w: Whole, root: Node, height: nat)
    requires Planted(w, root, height)
    ensures Tearing(w, Spot([], w.tp, 0, height), [Pos(root, 0)], 0, []) && 1 <= height == w.height
  {
    AtRoot(w, root, height, 0);
    assert w.tp.kids[..0] == [];
    hide Standing;
  }

  // ---------------------------------------------------------------- the operations

  /** Destroys the items of a node and frees it. */
  method Free(node: Node, freed: seq<Grave>) returns (freed1: seq<Grave>)
    requires node.Fits() && !Freed(freed, node)
    ensures freed1 == freed + [Grave(node, node.Items())]
  {
    var items := [];
    var i := 0;
    while i < node.numItems
      invariant 0 <= i <= node.numItems && items == node.items[..i]
    {
      items := items + [node.items[i]];
      i := i + 1;
    }
    freed1 := freed + [Grave(node, items)];
  }

  method GetChild(node: Node, idx: nat, ghost freed: seq<Grave>) returns (child: Node?)
    requires idx < node.children.Length && !Freed(freed, node)
    ensures child == node.children[idx]
  {
    child := node.children[idx];
  }

  method NumItems(node: Node, ghost freed: seq<Grave>) returns (n: nat)
    requires !Freed(freed, node)
    ensures n == node.numItems
  {
    n := node.numItems;
  }

  /** Down to the leftmost leaf below the entry that the path ends with. */
  method GoToLeaf(path0: seq<Pos>, height: nat, ghost freed: seq<Grave>, ghost w: Whole, ghost c0: Spot)
    returns (path: seq<Pos>, ghost c: Spot)
    requires Rep(w.tp, w.maxItems) && height == w.height && Tearing(w, c0, path0, c0.idx, freed) && (c0.h > 1 ==> c0.idx <= |c0.t.items|)
    ensures Tearing(w, c, path, |c.t.kids|, freed)
  {
    hide *;
    path, c := path0, c0;
    NotFreed(w, c, path, c.idx, freed);
    while |path| < height
      invariant Rep(w.tp, w.maxItems) && Tearing(w, c, path, c.idx, freed) && (c.h > 1 ==> c.idx <= |c.t.items|) && 1 <= c.h && height == |c.fs| + c.h
      invariant path != [] && |path| == |c.fs| + 1
    {
      NotFreed(w, c, path, c.idx, freed);
      var pos := path[|path| - 1];
      TearDown(w, c, path, freed);
      Lengths(c);
      FootAllocated(w.tp);
      var child := GetChild(pos.node, pos.idx, freed);
      path := path + [Pos(child, 0)];
      c := Down(c, 0);
      NotFreed(w, c, path, 0, freed);
    }
    AtGround(w, c, path, freed);
  }

  /** Frees the node at the end of the path, and every parent that has no more children; ends at a parent that has. */
  method FreeUp(path0: seq<Pos>, freed0: seq<Grave>, ghost w: Whole, ghost c0: Spot)
    returns (done: bool, path: seq<Pos>, freed: seq<Grave>, ghost c: Spot)
    requires Rep(w.tp, w.maxItems) && Tearing(w, c0, path0, |c0.t.kids|, freed0)
    ensures done ==> freed == Graves(w.tp)
    ensures !done ==> Tearing(w, c, path, c.idx + 1, freed) && c.idx < |c.t.items| && c.h > 1 && |freed| > |freed0|
  {
    hide *;
    path, freed, c := path0, freed0, c0;
    NotFreed(w, c, path, |c.t.kids|, freed);
    while true
      invariant Rep(w.tp, w.maxItems) && Tearing(w, c, path, |c.t.kids|, freed) && |path| == |c.fs| + 1 && |freed| >= |freed0|
      decreases |path|
    {
      NotFreed(w, c, path, |c.t.kids|, freed);
      var pos := path[|path| - 1];
      ghost var before := freed;
      FootAllocated(w.tp);
      freed := Free(pos.node, freed);
      if |path| == 1 {
        TornDown(w, c, path, before);
        done := true;
        return;
      }
      TearUp(w, c, path, before);
      Lengths(c);
      path := path[..|path| - 1];
      c := Up(c);
      NotFreed(w, c, path, c.idx + 1, freed);
      pos := path[|path| - 1];
      FootAllocated(w.tp);
      var n := NumItems(pos.node, freed);
      if pos.idx < n {
        done := false;
        return;
      }
      AllDone(w, c, path, freed);
    }
  }

  /** Frees the nodes of a tree, children first. */
  method FreeNodes(root: Node, height: nat, ghost w: Whole) returns (freed: seq<Grave>)
    requires Planted(w, root, height) && Rep(w.tp, w.maxItems) && height <= 32
    ensures freed == Graves(w.tp)
  {
    hide *;
    var path := [Pos(root, 0)];
    ghost var c := Spot([], w.tp, 0, height);
    freed := [];
    TearStart(w, root, height);
    FootAllocated(w.tp);
    path, c := GoToLeaf(path, height, freed, w, c);
    while true
      invariant Rep(w.tp, w.maxItems) && Tearing(w, c, path, |c.t.kids|, freed)
      decreases |Graves(w.tp)| - |freed|
    {
      NotFreed(w, c, path, |c.t.kids|, freed);
      FootAllocated(w.tp);
      var done;
      done, path, freed, c := FreeUp(path, freed, w, c);
      if done {
        return;
      }
      NotFreed(w, c, path, c.idx + 1, freed);
      TearOn(w, c, path, freed);
      var pos := path[|path| - 1];
      path := path[|path| - 1 := Pos(pos.node, pos.idx + 1)];
      c := Turned(c, c.idx + 1);
      FootAllocated(w.tp);
      path, c := GoToLeaf(path, height, freed, w, c);
    }
  }

  lemma Everything(w: Whole, root: Node, height: nat)
    requires Planted(w, root, height) && Rep(w.tp, w.maxItems)
    ensures Once(Graves(w.tp)) && FootG(Graves(w.tp)) == Foot(w.tp) && multiset(ItemsG(Graves(w.tp))) == multiset(w.s)
  {
    GravesFoot(w.tp, w.maxItems);
    GravesItems(w.tp, height, 1, w.maxItems);
  }

  lemma Nothing(tree: BTree)
    requires tree.Valid() && tree.height == 0
    ensures Once([]) && FootG([]) == FootK(tree.top) && multiset(ItemsG([])) == multiset(tree.Contents())
  {
  }

  lemma Empty(tree: BTree)
    requires 2 <= tree.maxItems && tree.root == null && tree.height == 0 && tree.top == []
    ensures tree.Valid() && tree.Contents() == []
  {
  }

  lemma MaxItems(tree: BTree)
    requires tree.Valid()
    ensures 2 <= tree.maxItems && tree.height > 0 && |tree.top| == 1 ==> FootK(tree.top) == Foot(tree.top[0])
    ensures 2 <= tree.maxItems
  {
    if |tree.top| == 1 {
      RepOne(tree.top[0], tree.maxItems);
      assert tree.top == [tree.top[0]];
    }
  }

  /** Frees every node of the tree exactly once, destroys every item exactly once, and leaves an empty tree. */
  method Destroy(tree: BTree) returns (freed: seq<Grave>)
    requires tree.Valid() && tree.PathFits()
    modifies tree
    ensures tree.Valid() && tree.Contents() == []
    ensures Once(freed) && FootG(freed) == old(FootK(tree.top)) && multiset(ItemsG(freed)) == multiset(old(tree.Contents()))
  {
    hide *;
    if tree.height == 0 {
      Nothing(tree);
      NothingThere(tree);
      return [];
    }
    WholeFacts(tree);
    MaxItems(tree);
    ghost var w := WholeOf(tree);
    Everything(w, tree.root, tree.height);
    freed := FreeNodes(tree.root, tree.height, w);
    tree.root := null;
    tree.height := 0;
    tree.top := [];
    Empty(tree);
  }
}
