/** Deletion's way down: to the key, to the first item or to the last one. */
module BTreeSeek {
  import opened BTreeNode
  import opened BTreeTree
  import opened BTreePath
  import opened BTreeSearch
  import opened BTreeInsertEven
  import opened BTreeWalk
  import opened BTreeInsert

  datatype Mode = AtKey | AtMin | AtMax

  ghost predicate LeftEdge(fs: seq<Frame>) {
    forall j :: 0 <= j < |fs| ==> fs[j].left == []
  }

  /** Frame c was left at an item with this key; the subtree in front of that item was entered. */
  ghost predicate HitAt(fs: seq<Frame>, c: int, key: int) {
    0 <= c < |fs| && |fs[c].left| < |fs[c].items| && fs[c].items[|fs[c].left|].key == key
  }

  /** Why t is where to go on: c is the frame of the item to be replaced, or -1. */
  ghost predicate Heading(fs: seq<Frame>, t: Tree, mode: Mode, key: int, c: int, s: seq<Item>) {
    match mode
    case AtKey => c == -1 && Around(fs, t, key, s)
    case AtMin => c == -1 && LeftEdge(fs)
    case AtMax => RightEdge(fs, c) && (c == -1 || HitAt(fs, c, key))
  }

  ghost predicate Placed(tp: Tree, fs: seq<Frame>, t: Tree, path: seq<Pos>, h: nat, s: seq<Item>, maxItems: nat) {
    2 <= maxItems && Rebuild(fs, t) == tp && PathOk(fs) && ShapeP(fs, h, maxItems) && Sorted(s) &&
    Shape(t, h, RootMin(|fs|, maxItems), maxItems) && Pre(fs) + Flat(t) + Post(fs) == s &&
    PathMatches(path, fs) && |path| == |fs|
  }

  ghost predicate Seeking(tp: Tree, fs: seq<Frame>, t: Tree, path: seq<Pos>, mode: Mode, key: int, c: int, h: nat,
                          s: seq<Item>, maxItems: nat)
  {
    Placed(tp, fs, t, path, h, s, maxItems) && Heading(fs, t, mode, key, c, s)
  }

  lemma SeekStart(root: Node, tp: Tree, mode: Mode, key: int, height: nat, s: seq<Item>, maxItems: nat)
    requires Loaded(root, height, tp, s, 1, maxItems)
    ensures Seeking(tp, [], tp, [], mode, key, -1, height, s, maxItems)
    ensures Rep(tp, maxItems) && root == tp.node && 1 <= height
  {
    assert [] + Flat(tp) + [] == Flat(tp);
  }

  /** What the loop needs to know about the node in hand. */
  lemma SeekNode(tp: Tree, fs: seq<Frame>, t: Tree, path: seq<Pos>, h: nat, s: seq<Item>, maxItems: nat)
    requires Placed(tp, fs, t, path, h, s, maxItems) && Rep(tp, maxItems)
    ensures t.node.Fits() && t.node.numItems == |t.items| && t.node.Items() == t.items && Sorted(t.items) && t.items != []
    ensures t.node.items[..|t.items|] == t.items
    ensures 1 <= h
  {
    WalkMemory(tp, fs, t, maxItems);
    SortedParts(Pre(fs), Flat(t), Post(fs));
    NodeSorted(t);
  }

  lemma SeekChild(tp: Tree, fs: seq<Frame>, t: Tree, path: seq<Pos>, h: nat, s: seq<Item>, maxItems: nat, idx: nat)
    requires Placed(tp, fs, t, path, h, s, maxItems) && Rep(tp, maxItems) && 1 < h && idx <= |t.items|
    ensures idx < |t.kids| && idx < t.node.children.Length && t.node.children[idx] == t.kids[idx].node
  {
    WalkMemory(tp, fs, t, maxItems);
    hide RepP, Rep, RepK;
    KidInMemory(t, idx, maxItems);
  }

  lemma PlacedDown(tp: Tree, fs: seq<Frame>, t: Tree, path: seq<Pos>, h: nat, s: seq<Item>, maxItems: nat, idx: nat)
    requires Placed(tp, fs, t, path, h, s, maxItems) && 1 < h && idx <= |t.items|
    ensures idx < |t.kids|
    ensures Placed(tp, Deeper(fs, t, idx), t.kids[idx], path + [Pos(t.node, idx)], h - 1, s, maxItems)
  {
    var f := FrameAt(t, idx);
    PushShape(fs, t, idx, h, maxItems);
    PushRebuild(fs, t, idx);
    RebuildFlat(fs, t);
    var gs := Deeper(fs, t, idx);
    ShapePOk(gs, h - 1, maxItems);
    RebuildFlat(gs, t.kids[idx]);
    MatchesDeeper(path, fs, f);
    hide Flat, Rebuild, ShapeP, PathOk, Shape, Pre, Post, PathMatches;
  }

  lemma MatchesDeeper(path: seq<Pos>, fs: seq<Frame>, f: Frame)
    requires PathMatches(path, fs) && |path| == |fs|
    ensures PathMatches(path + [Pos(f.node, |f.left|)], fs + [f])
  {
  }

  /** One step down: mode1 and c1 are the mode and the frame to be replaced from then on. */
  ghost predicate Step(fs: seq<Frame>, t: Tree, mode: Mode, key: int, c: int, idx: nat, mode1: Mode, c1: int) {
    match mode
    case AtKey =>
      if mode1 == AtKey then c1 == c && InsertionPoint(t.items, key, idx)
      else mode1 == AtMax && c1 == |fs| && idx < |t.items| && t.items[idx].key == key
    case AtMin => mode1 == mode && c1 == c && idx == 0
    case AtMax => mode1 == mode && c1 == c && idx == |t.items|
  }

  lemma HeadingDown(fs: seq<Frame>, t: Tree, mode: Mode, key: int, c: int, s: seq<Item>, idx: nat, mode1: Mode, c1: int)
    requires Heading(fs, t, mode, key, c, s) && Step(fs, t, mode, key, c, idx, mode1, c1)
    requires idx < |t.kids| == |t.items| + 1
    ensures Heading(Deeper(fs, t, idx), t.kids[idx], mode1, key, c1, s)
  {
    if mode1 == AtKey {
      AroundDown(fs, t, idx, key, s);
    } else {
      PushFrame(fs, FrameAt(t, idx));
    }
  }

  lemma SeekDown(tp: Tree, fs: seq<Frame>, t: Tree, path: seq<Pos>, mode: Mode, key: int, c: int, h: nat,
                 s: seq<Item>, maxItems: nat, idx: nat, mode1: Mode, c1: int)
    requires Seeking(tp, fs, t, path, mode, key, c, h, s, maxItems) && 1 < h && idx <= |t.items|
    requires Step(fs, t, mode, key, c, idx, mode1, c1)
    ensures idx < |t.kids| && |Deeper(fs, t, idx)| == |fs| + 1
    ensures Seeking(tp, Deeper(fs, t, idx), t.kids[idx], path + [Pos(t.node, idx)], mode1, key, c1, h - 1, s, maxItems)
  {
    PlacedDown(tp, fs, t, path, h, s, maxItems, idx);
    hide Heading, Step;
    HeadingDown(fs, t, mode, key, c, s, idx, mode1, c1);
  }

  lemma SeekPlaced(tp: Tree, fs: seq<Frame>, t: Tree, path: seq<Pos>, mode: Mode, key: int, c: int, h: nat,
                   s: seq<Item>, maxItems: nat)
    requires Seeking(tp, fs, t, path, mode, key, c, h, s, maxItems)
    ensures Placed(tp, fs, t, path, h, s, maxItems)
  {
  }

  lemma StepMiss(fs: seq<Frame>, t: Tree, mode: Mode, key: int, c: int, idx: nat)
    requires match mode
      case AtKey => InsertionPoint(t.items, key, idx)
      case AtMin => idx == 0
      case AtMax => idx == |t.items|
    ensures Step(fs, t, mode, key, c, idx, mode, c) && idx <= |t.items|
  {
  }

  // ---------------------------------------------------------------- the end of the way down

  lemma {:induction false} LeftEdgePre(fs: seq<Frame>)
    requires PathOk(fs) && LeftEdge(fs)
    ensures Pre(fs) == []
  {
    if fs != [] {
      assert forall j :: 0 <= j < |fs| - 1 ==> Init(fs)[j] == fs[j];
      LeftEdgePre(Init(fs));
    }
  }

  /** The path with another item in the place of the item it was left at in frame c. */
  ghost function Replaced(fs: seq<Frame>, c: nat, x: Item): (gs: seq<Frame>)
    requires c < |fs| && |fs[c].left| < |fs[c].items|
    ensures |gs| == |fs|
  {
    fs[c := fs[c].(items := fs[c].items[|fs[c].left| := x])]
  }

  lemma FrameReplaced(f: Frame, x: Item) returns (w: seq<Item>)
    requires FrameOk(f) && |f.left| < |f.items|
    ensures var g := f.(items := f.items[|f.left| := x]);
      FrameOk(g) && FramePre(g) == FramePre(f) && FramePost(g) == [x] + w
    ensures FramePost(f) == [f.items[|f.left|]] + w
  {
    var k := |f.left|;
    var g := f.(items := f.items[k := x]);
    assert g.items[..k] == f.items[..k];
    assert g.items[k..][1..] == f.items[k..][1..];
    w := Weave(f.right, f.items[k..][1..]);
  }

  lemma PostHead<T>(x: T, w: seq<T>, b: seq<T>, post: seq<T>)
    requires post == ([x] + w) + b
    ensures post != [] && post[0] == x && post[1..] == w + b
  {
  }

  lemma PathParts(fs: seq<Frame>)
    requires fs != [] && PathOk(fs)
    ensures PathOk(Init(fs)) && FrameOk(Last(fs))
    ensures Pre(fs) == Pre(Init(fs)) + FramePre(Last(fs)) && Post(fs) == FramePost(Last(fs)) + Post(Init(fs))
  {
  }

  lemma PathJoined(fs: seq<Frame>)
    requires fs != [] && PathOk(Init(fs)) && FrameOk(Last(fs))
    ensures PathOk(fs)
  {
    assert forall j :: 0 <= j < |fs| - 1 ==> Init(fs)[j] == fs[j];
  }

  lemma ReplacedLast(fs: seq<Frame>, c: nat, x: Item)
    requires c + 1 == |fs| && |fs[c].left| < |fs[c].items|
    ensures Init(Replaced(fs, c, x)) == Init(fs)
    ensures Last(Replaced(fs, c, x)) == Last(fs).(items := Last(fs).items[|Last(fs).left| := x])
  {
  }

  lemma ReplacedInit(fs: seq<Frame>, c: nat, key: int, x: Item)
    requires c + 1 < |fs| && HitAt(fs, c, key) && RightEdge(fs, c) && PathOk(fs)
    ensures Last(Replaced(fs, c, x)) == Last(fs) && Init(Replaced(fs, c, x)) == Replaced(Init(fs), c, x)
    ensures FramePost(Last(fs)) == []
    ensures HitAt(Init(fs), c, key) && RightEdge(Init(fs), c) && Init(fs)[c] == fs[c]
  {
  }

  lemma ReplacedHere(fs: seq<Frame>, c: nat, x: Item)
    requires PathOk(fs) && c + 1 == |fs| && |fs[c].left| < |fs[c].items|
    ensures PathOk(Replaced(fs, c, x)) && Pre(Replaced(fs, c, x)) == Pre(fs)
    ensures Post(fs) != [] && Post(fs)[0] == fs[c].items[|fs[c].left|]
    ensures Post(Replaced(fs, c, x)) == [x] + Post(fs)[1..]
  {
    var gs := Replaced(fs, c, x);
    PathParts(fs);
    ReplacedLast(fs, c, x);
    hide *;
    var w := FrameReplaced(Last(fs), x);
    PathJoined(gs);
    PathParts(gs);
    PostHead(Last(fs).items[|Last(fs).left|], w, Post(Init(fs)), Post(fs));
    PostHead(x, w, Post(Init(fs)), Post(gs));
    LastIs(fs);
  }

  lemma LastIs(fs: seq<Frame>)
    requires fs != []
    ensures Last(fs) == fs[|fs| - 1]
  {
  }

  /** That item is the first one behind the subtree, and only that item changes. */
  lemma {:induction false} ReplacedPost(fs: seq<Frame>, c: nat, key: int, x: Item)
    requires PathOk(fs) && HitAt(fs, c, key) && RightEdge(fs, c)
    ensures PathOk(Replaced(fs, c, x)) && Pre(Replaced(fs, c, x)) == Pre(fs)
    ensures Post(fs) != [] && Post(fs)[0] == fs[c].items[|fs[c].left|]
    ensures Post(Replaced(fs, c, x)) == [x] + Post(fs)[1..]
  {
    if c == |fs| - 1 {
      ReplacedHere(fs, c, x);
    } else {
      ReplacedInit(fs, c, key, x);
      PathParts(fs);
      hide Pre, Post, FramePre, FramePost, PathOk, Replaced, RightEdge;
      ReplacedPost(Init(fs), c, key, x);
      PathJoined(Replaced(fs, c, x));
      PathParts(Replaced(fs, c, x));
    }
  }

  /** The item of the leaf t that goes away, and the item number at of all that is deleted: the same one,
      or the one in frame c that the leaf's item replaces. */
  ghost predicate Chosen(tp: Tree, fs: seq<Frame>, t: Tree, path: seq<Pos>, idx: nat, key: int, c: int, at: nat,
                         s: seq<Item>, maxItems: nat)
  {
    Placed(tp, fs, t, path, 1, s, maxItems) && idx < |t.items| && at < |s| &&
    if c < 0 then at == |Pre(fs)| + idx
    else idx == |t.items| - 1 && at == |Pre(fs)| + |t.items| && HitAt(fs, c, key) && RightEdge(fs, c)
  }

  /** Which item a mode asks for. */
  ghost predicate Asked(s: seq<Item>, mode: Mode, key: int, at: nat) {
    at < |s| &&
    match mode
    case AtKey => s[at].key == key
    case AtMin => at == 0
    case AtMax => at == |s| - 1
  }

  ghost function Wanted(mode: Mode, c: int): Mode {
    if c < 0 then mode else AtKey
  }

  lemma SameLeaf(fs: seq<Frame>, t: Tree, idx: nat, s: seq<Item>)
    requires PathOk(fs) && Pre(fs) + Flat(t) + Post(fs) == s && t.kids == [] && idx < |t.items|
    ensures |Pre(fs)| + idx < |s| && s[|Pre(fs)| + idx] == t.items[idx]
    ensures |s| == |Pre(fs)| + |t.items| + |Post(fs)|
  {
    assert Flat(t) == t.items;
    hide Flat, Pre, Post;
  }

  lemma AtLeafChosen(tp: Tree, fs: seq<Frame>, t: Tree, path: seq<Pos>, mode: Mode, key: int, c: int,
                     s: seq<Item>, maxItems: nat, idx: nat)
    returns (at: nat)
    requires Seeking(tp, fs, t, path, mode, key, c, 1, s, maxItems) && idx < |t.items|
    requires match mode
      case AtKey => t.items[idx].key == key
      case AtMin => idx == 0
      case AtMax => idx == |t.items| - 1
    ensures Chosen(tp, fs, t, path, idx, key, c, at, s, maxItems) && Asked(s, Wanted(mode, c), key, at)
    ensures s[at] == if c < 0 then t.items[idx] else fs[c].items[|fs[c].left|]
  {
    SameLeaf(fs, t, idx, s);
    hide Rebuild, Shape, ShapeP, Around, Flat, Pre, Post;
    at := |Pre(fs)| + idx;
    if mode == AtMin {
      LeftEdgePre(fs);
    } else if mode == AtMax && c < 0 {
      RightEdgePost(fs);
    } else if c >= 0 {
      ReplacedPost(fs, c, key, t.items[idx]);
      at := at + 1;
      BehindLeaf(Pre(fs), t, Post(fs), s);
    }
  }

  lemma BehindLeaf(a: seq<Item>, t: Tree, b: seq<Item>, s: seq<Item>)
    requires a + Flat(t) + b == s && t.kids == [] && b != []
    ensures |a| + |t.items| < |s| && s[|a| + |t.items|] == b[0]
  {
    assert Flat(t) == t.items;
    hide Flat;
  }

  ghost predicate Absent(s: seq<Item>, key: int) {
    forall i :: 0 <= i < |s| ==> s[i].key != key
  }

  lemma AtLeafAbsent(tp: Tree, fs: seq<Frame>, t: Tree, path: seq<Pos>, key: int, c: int, s: seq<Item>, maxItems: nat, idx: nat)
    requires Seeking(tp, fs, t, path, AtKey, key, c, 1, s, maxItems) && InsertionPoint(t.items, key, idx)
    ensures Absent(s, key)
  {
    assert Flat(t) == t.items;
    LeafPoint(Pre(fs), t.items, Post(fs), idx, key);
    PointAbsent(s, key, |Pre(fs)| + idx);
  }

  lemma PointAbsent(s: seq<Item>, key: int, p: nat)
    requires InsertionPoint(s, key, p)
    ensures Absent(s, key)
  {
    forall i | 0 <= i < |s| ensures s[i].key != key {
      PointAt(s, key, p, i);
    }
  }
}
