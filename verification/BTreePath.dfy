/** Paths from the root: what surrounds one subtree on the way down to it. */
module BTreePath {
  import opened BTreeNode
  import opened BTreeTree

  /** An inner node without one of its subtrees, the one between left and right. */
  datatype Frame = Frame(node: Node, items: seq<Item>, left: seq<Tree>, right: seq<Tree>)

  ghost predicate FrameOk(f: Frame) {
    |f.items| == |f.left| + |f.right|
  }

  ghost function Plug(f: Frame, t: Tree): Tree {
    Tree(f.node, f.items, f.left + [t] + f.right)
  }

  /** The items in front of the missing subtree. */
  ghost function FramePre(f: Frame): seq<Item>
    requires FrameOk(f)
  {
    Before(f.left, f.items[..|f.left|])
  }

  /** The items behind the missing subtree. */
  ghost function FramePost(f: Frame): seq<Item>
    requires FrameOk(f)
  {
    After(f.items[|f.left|..], f.right)
  }

  lemma PlugFlat(f: Frame, t: Tree)
    requires FrameOk(f)
    ensures Flat(Plug(f, t)) == FramePre(f) + Flat(t) + FramePost(f)
  {
    WeaveAt(f.left, f.items[..|f.left|], t, f.items[|f.left|..], f.right);
    assert f.items == f.items[..|f.left|] + f.items[|f.left|..];
  }

  ghost function FootF(f: Frame): set<object> {
    Own(f.node) + FootK(f.left) + FootK(f.right)
  }

  ghost predicate RepF(f: Frame, hole: Node, maxItems: nat)
    reads FootF(f)
  {
    NodeRep(f.node, f.items, Roots(f.left) + [hole] + Roots(f.right), maxItems) &&
    RepK(f.left, maxItems) && RepK(f.right, maxItems) &&
    Own(f.node) !! FootK(f.left) !! FootK(f.right)
  }

  lemma RootsAppend(a: seq<Tree>, b: seq<Tree>)
    ensures Roots(a + b) == Roots(a) + Roots(b)
  {
  }

  lemma RootsAt(left: seq<Tree>, t: Tree, right: seq<Tree>)
    ensures Roots(left + [t] + right) == Roots(left) + [t.node] + Roots(right)
  {
    RootsAppend(left + [t], right);
    RootsAppend(left, [t]);
    assert Roots([t]) == [t.node];
  }

  lemma KidsAt(left: seq<Tree>, t: Tree, right: seq<Tree>, maxItems: nat)
    ensures FootK(left + [t] + right) == FootK(left) + Foot(t) + FootK(right)
    ensures RepK(left + [t] + right, maxItems) <==>
      RepK(left, maxItems) && Rep(t, maxItems) && RepK(right, maxItems) &&
      FootK(left) !! Foot(t) !! FootK(right)
  {
    RepAppend(left + [t], right, maxItems);
    RepAppend(left, [t], maxItems);
    RepOne(t, maxItems);
  }

  /** Laying one subtree of a list open: its node on its own, its children in its place. */
  lemma OpenKid(x: seq<Tree>, t: Tree, y: seq<Tree>, maxItems: nat)
    ensures FootK(x + [t] + y) == Own(t.node) + FootK(x + t.kids + y)
    ensures RepK(x + [t] + y, maxItems) <==>
      Holds(t.node, Held(t.items, Roots(t.kids)), maxItems) &&
      Own(t.node) !! FootK(x + t.kids + y) && RepK(x + t.kids + y, maxItems)
  {
    KidsAt(x, t, y, maxItems);
    RepAppend(x, t.kids, maxItems);
    RepAppend(x + t.kids, y, maxItems);
  }

  lemma PlugRep(f: Frame, t: Tree, maxItems: nat)
    ensures Foot(Plug(f, t)) == FootF(f) + Foot(t)
    ensures Rep(Plug(f, t), maxItems) <==>
      RepF(f, t.node, maxItems) && Rep(t, maxItems) && FootF(f) !! Foot(t)
  {
    RootsAt(f.left, t, f.right);
    KidsAt(f.left, t, f.right, maxItems);
  }

  /** A frame around a subtree of height h whose node has at least lo items. */
  ghost predicate ShapeF(f: Frame, h: nat, lo: nat, maxItems: nat) {
    1 <= h && lo <= |f.items| <= maxItems && FrameOk(f) &&
    Shapes(f.left, h, maxItems) && Shapes(f.right, h, maxItems)
  }

  lemma PlugShape(f: Frame, t: Tree, h: nat, lo: nat, maxItems: nat)
    requires ShapeF(f, h, lo, maxItems) && Shape(t, h, maxItems / 2, maxItems)
    ensures Shape(Plug(f, t), h + 1, lo, maxItems)
  {
  }

  /** The frame left behind when going down into subtree idx. */
  ghost function FrameAt(t: Tree, idx: nat): Frame
    requires idx < |t.kids|
  {
    Frame(t.node, t.items, t.kids[..idx], t.kids[idx + 1..])
  }

  lemma FrameAtPlug(t: Tree, idx: nat)
    requires idx < |t.kids|
    ensures Plug(FrameAt(t, idx), t.kids[idx]) == t
  {
  }

  lemma KidInMemory(p: Tree, i: nat, maxItems: nat)
    requires Rep(p, maxItems) && i < |p.kids|
    ensures i < p.node.children.Length && p.node.children[i] == p.kids[i].node
    ensures Rep(p.kids[i], maxItems) && Foot(p.kids[i]) <= Foot(p)
    ensures p.kids[i].node.numItems == |p.kids[i].items|
  {
    FrameAtPlug(p, i);
    PlugRep(FrameAt(p, i), p.kids[i], maxItems);
    assert p.node.Kids()[i] == Roots(p.kids)[i];
  }

  /** The items in front of item i. */
  ghost function LeftOf(t: Tree, i: nat): seq<Item>
    requires i < |t.items|
  {
    if t.kids == [] || |t.kids| <= i + 1 then t.items[..i] else Weave(t.kids[..i + 1], t.items[..i])
  }

  /** The items behind item i. */
  ghost function RightOf(t: Tree, i: nat): seq<Item>
    requires i < |t.items|
  {
    if t.kids == [] || |t.kids| <= i + 1 then t.items[i + 1..] else Weave(t.kids[i + 1..], t.items[i + 1..])
  }

  lemma FlatAt(t: Tree, i: nat)
    requires i < |t.items| && (t.kids == [] || |t.kids| == |t.items| + 1)
    ensures Flat(t) == LeftOf(t, i) + [t.items[i]] + RightOf(t, i)
  {
    var a, b := t.items[..i], t.items[i + 1..];
    assert t.items == a + [t.items[i]] + b;
    if t.kids != [] {
      assert t.kids == t.kids[..i + 1] + t.kids[i + 1..];
      WeaveJoin(t.kids[..i + 1], a, t.items[i], t.kids[i + 1..], b);
    }
  }

  /** Overwriting an item changes exactly that item. */
  lemma FlatUpdate(t: Tree, i: nat, x: Item)
    requires i < |t.items| && (t.kids == [] || |t.kids| == |t.items| + 1)
    ensures Flat(Tree(t.node, t.items[i := x], t.kids)) == LeftOf(t, i) + [x] + RightOf(t, i)
  {
    var u := Tree(t.node, t.items[i := x], t.kids);
    FlatAt(u, i);
    assert u.items[..i] == t.items[..i] && u.items[i + 1..] == t.items[i + 1..];
  }

  // ---------------------------------------------------------------- whole paths, root first

  /** One recorded step of the way down. */
  datatype Pos = Pos(node: Node, idx: nat)

  ghost predicate PathOk(fs: seq<Frame>) {
    forall i :: 0 <= i < |fs| ==> FrameOk(fs[i])
  }

  ghost function Init(fs: seq<Frame>): seq<Frame>
    requires fs != []
  {
    fs[..|fs| - 1]
  }

  /** The deepest frame. */
  ghost function Last(fs: seq<Frame>): Frame
    requires fs != []
  {
    fs[|fs| - 1]
  }

  lemma InitLength(fs: seq<Frame>)
    requires fs != []
    ensures |Init(fs)| == |fs| - 1
  {
  }

  lemma PlugNode(f: Frame, t: Tree)
    ensures Plug(f, t).node == f.node
  {
  }

  ghost function Rebuild(fs: seq<Frame>, t: Tree): Tree {
    if fs == [] then t else Rebuild(Init(fs), Plug(Last(fs), t))
  }

  /** A path can also be taken apart at the root. */
  lemma {:induction false} RebuildFirst(fs: seq<Frame>, t: Tree)
    requires fs != []
    ensures Rebuild(fs, t) == Plug(fs[0], Rebuild(fs[1..], t))
  {
    if |fs| > 1 {
      RebuildFirst(Init(fs), Plug(Last(fs), t));
      assert Init(fs)[1..] == Init(fs[1..]);
    } else {
      assert Rebuild(Init(fs), Plug(Last(fs), t)) == Plug(Last(fs), t);
    }
  }

  ghost function Pre(fs: seq<Frame>): seq<Item>
    requires PathOk(fs)
  {
    if fs == [] then [] else Pre(Init(fs)) + FramePre(Last(fs))
  }

  ghost function Post(fs: seq<Frame>): seq<Item>
    requires PathOk(fs)
  {
    if fs == [] then [] else FramePost(Last(fs)) + Post(Init(fs))
  }

  lemma {:induction false} RebuildFlat(fs: seq<Frame>, t: Tree)
    requires PathOk(fs)
    ensures Flat(Rebuild(fs, t)) == Pre(fs) + Flat(t) + Post(fs)
  {
    if fs != [] {
      var init, f := Init(fs), Last(fs);
      RebuildFlat(init, Plug(f, t));
      PlugFlat(f, t);
      Assoc(Pre(init), FramePre(f) + Flat(t), FramePost(f));
      Assoc(Pre(init), FramePre(f), Flat(t));
      Assoc(Pre(fs) + Flat(t), FramePost(f), Post(init));
    }
  }

  ghost function FootP(fs: seq<Frame>): set<object> {
    if fs == [] then {} else FootP(Init(fs)) + FootF(Last(fs))
  }

  /** The frames of a path are in memory, linked down to the node hole. */
  ghost predicate RepP(fs: seq<Frame>, hole: Node, maxItems: nat)
    reads FootP(fs)
  {
    fs == [] ||
    (RepF(Last(fs), hole, maxItems) && FootP(Init(fs)) !! FootF(Last(fs)) &&
     RepP(Init(fs), Last(fs).node, maxItems))
  }

  lemma {:induction false} RebuildRep(fs: seq<Frame>, t: Tree, maxItems: nat)
    ensures Foot(Rebuild(fs, t)) == FootP(fs) + Foot(t)
    ensures Rep(Rebuild(fs, t), maxItems) <==>
      RepP(fs, t.node, maxItems) && Rep(t, maxItems) && FootP(fs) !! Foot(t)
  {
    if fs != [] {
      RebuildRep(Init(fs), Plug(Last(fs), t), maxItems);
      PlugRep(Last(fs), t, maxItems);
    }
  }

  /** Frames around a subtree of height h: only the root may have fewer than half the items, but at least one. */
  ghost predicate ShapeP(fs: seq<Frame>, h: nat, maxItems: nat) {
    fs == [] ||
    (ShapeF(Last(fs), h, RootMin(|fs| - 1, maxItems), maxItems) && ShapeP(Init(fs), h + 1, maxItems))
  }

  /** The least number of items of a node this many levels below the root. */
  ghost function RootMin(depth: nat, maxItems: nat): nat {
    if depth == 0 then 1 else maxItems / 2
  }

  lemma {:induction false} ShapePOk(fs: seq<Frame>, h: nat, maxItems: nat)
    requires ShapeP(fs, h, maxItems)
    ensures PathOk(fs)
  {
    if fs != [] {
      ShapePOk(Init(fs), h + 1, maxItems);
      assert forall i :: 0 <= i < |fs| - 1 ==> fs[i] == Init(fs)[i];
    }
  }

  lemma {:induction false} RebuildShape(fs: seq<Frame>, t: Tree, h: nat, maxItems: nat)
    requires 2 <= maxItems
    requires ShapeP(fs, h, maxItems) && Shape(t, h, RootMin(|fs|, maxItems), maxItems)
    ensures Shape(Rebuild(fs, t), h + |fs|, 1, maxItems)
  {
    if fs != [] {
      PlugShape(Last(fs), t, h, RootMin(|fs| - 1, maxItems), maxItems);
      RebuildShape(Init(fs), Plug(Last(fs), t), h + 1, maxItems);
    }
  }

  /** One step down extends the path. */
  lemma PushFrame(fs: seq<Frame>, f: Frame)
    ensures Init(fs + [f]) == fs && Last(fs + [f]) == f
  {
  }

  /** The path one step further down. */
  ghost function Deeper(fs: seq<Frame>, t: Tree, idx: nat): seq<Frame>
    requires idx < |t.kids|
  {
    fs + [FrameAt(t, idx)]
  }

  /** Going down into subtree idx, memory is only looked at differently. */
  lemma PushRep(fs: seq<Frame>, t: Tree, idx: nat, maxItems: nat)
    requires idx < |t.kids| && RepP(fs, t.node, maxItems) && Rep(t, maxItems) && FootP(fs) !! Foot(t)
    ensures var gs, c := Deeper(fs, t, idx), t.kids[idx];
      RepP(gs, c.node, maxItems) && Rep(c, maxItems) && FootP(gs) !! Foot(c) &&
      FootP(gs) + Foot(c) == FootP(fs) + Foot(t)
  {
    PushFrame(fs, FrameAt(t, idx));
    FrameAtPlug(t, idx);
    PlugRep(FrameAt(t, idx), t.kids[idx], maxItems);
  }

  lemma PushShape(fs: seq<Frame>, t: Tree, idx: nat, h: nat, maxItems: nat)
    requires 2 <= maxItems && 1 < h && idx < |t.kids| && ShapeP(fs, h, maxItems)
    requires Shape(t, h, RootMin(|fs|, maxItems), maxItems)
    ensures ShapeP(Deeper(fs, t, idx), h - 1, maxItems) && Shape(t.kids[idx], h - 1, maxItems / 2, maxItems)
  {
    PushFrame(fs, FrameAt(t, idx));
  }

  lemma PushRebuild(fs: seq<Frame>, t: Tree, idx: nat)
    requires idx < |t.kids|
    ensures Rebuild(Deeper(fs, t, idx), t.kids[idx]) == Rebuild(fs, t)
  {
    PushFrame(fs, FrameAt(t, idx));
    FrameAtPlug(t, idx);
  }
}
