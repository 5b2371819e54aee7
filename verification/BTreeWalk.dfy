/** The way down to the key: what the recorded path says when it ends at a leaf. */
module BTreeWalk {
  import opened BTreeNode
  import opened BTreeTree
  import opened BTreePath
  import opened BTreeSearch
  import opened BTreeClimb
  import opened BTreeInsertEven
  import opened BTreeInsertOdd

  /** The way down has reached t, h levels above the ground; the key can only be in t. */
  ghost predicate Walking(top: Tree, fs: seq<Frame>, t: Tree, key: int, h: nat, s: seq<Item>, lo: nat, maxItems: nat) {
    2 <= maxItems && lo <= 1 && Rebuild(fs, t) == top && Around(fs, t, key, s) && ShapeP(fs, h, maxItems) &&
    Shape(t, h, if fs == [] then lo else maxItems / 2, maxItems)
  }

  /** Every recorded step is the insertion point of the key in its node. */
  ghost predicate OnTrack(fs: seq<Frame>, key: int) {
    forall j :: 0 <= j < |fs| ==> FrameOk(fs[j]) && InsertionPoint(fs[j].items, key, |fs[j].left|)
  }

  /** All nodes on the path below level d are full. */
  ghost predicate FullFrom(fs: seq<Frame>, d: nat, maxItems: nat) {
    forall j :: d <= j < |fs| ==> |fs[j].items| == maxItems
  }

  lemma WalkStart(top: Tree, key: int, h: nat, s: seq<Item>, lo: nat, maxItems: nat)
    requires 2 <= maxItems && lo <= 1 && Shape(top, h, lo, maxItems) && Flat(top) == s && Sorted(s)
    ensures Walking(top, [], top, key, h, s, lo, maxItems) && OnTrack([], key)
  {
    assert [] + Flat(top) + [] == Flat(top);
  }

  lemma WalkDown(top: Tree, fs: seq<Frame>, t: Tree, idx: nat, key: int, h: nat, s: seq<Item>, lo: nat, maxItems: nat)
    requires Walking(top, fs, t, key, h, s, lo, maxItems) && 1 < h && lo == 1 && InsertionPoint(t.items, key, idx)
    requires OnTrack(fs, key)
    ensures idx < |t.kids| && Walking(top, Deeper(fs, t, idx), t.kids[idx], key, h - 1, s, lo, maxItems)
    ensures OnTrack(Deeper(fs, t, idx), key)
  {
    AroundDown(fs, t, idx, key, s);
    PushShape(fs, t, idx, h, maxItems);
    PushRebuild(fs, t, idx);
  }

  /** Memory along the way, seen from the whole tree. */
  lemma WalkMemory(top: Tree, fs: seq<Frame>, t: Tree, maxItems: nat)
    requires Rebuild(fs, t) == top && Rep(top, maxItems)
    ensures RepP(fs, t.node, maxItems) && Rep(t, maxItems) && FootP(fs) !! Foot(t)
    ensures InMemory(fs, t, [], maxItems) && Touched(fs, t, []) == Foot(top)
    ensures Holds(t.node, Held(t.items, Roots(t.kids)), maxItems)
  {
    RebuildRep(fs, t, maxItems);
  }

  /** At the leaf, bottom-up insertion can start. */
  lemma StartEven(top: Tree, fs: seq<Frame>, t: Tree, idx: nat, item: Item, s: seq<Item>, p: nat, lo: nat, maxItems: nat)
    requires Walking(top, fs, t, item.key, 1, s, lo, maxItems) && InsertionPoint(t.items, item.key, idx)
    requires InsertionPoint(s, item.key, p)
    ensures p <= |s| && Climbing(fs, t, idx, item, [], 1, Inserted(s, p, item), maxItems)
  {
    assert t.kids == [] && Flat(t) == t.items;
    LeafInsert(Pre(fs), t.items, Post(fs), idx, item, p);
  }

  /** The whole tree has one insertion point, the one found in the leaf. */
  lemma PointOfLeaf(top: Tree, fs: seq<Frame>, t: Tree, idx: nat, key: int, s: seq<Item>, lo: nat, maxItems: nat)
    requires Walking(top, fs, t, key, 1, s, lo, maxItems) && InsertionPoint(t.items, key, idx)
    ensures InsertionPoint(s, key, |Pre(fs)| + idx)
  {
    assert t.kids == [] && Flat(t) == t.items;
    LeafPoint(Pre(fs), t.items, Post(fs), idx, key);
  }

  lemma AroundUp(fs: seq<Frame>, t: Tree, key: int, s: seq<Item>)
    requires fs != [] && Around(fs, t, key, s)
    ensures Around(Init(fs), Plug(Last(fs), t), key, s)
  {
    var gs, f := Init(fs), Last(fs);
    assert PathOk(gs) by {
      assert forall i :: 0 <= i < |gs| ==> gs[i] == fs[i];
    }
    PlugFlat(f, t);
    hide Flat, FramePre, FramePost;
    Regroup(Pre(gs), FramePre(f), Flat(t), FramePost(f), Post(gs));
    PartBelow(Pre(gs), FramePre(f), key);
    PartAbove(FramePost(f), Post(gs), key);
  }

  lemma PartBelow(a: seq<Item>, b: seq<Item>, key: int)
    requires AllBelow(a + b, key)
    ensures AllBelow(a, key)
  {
    assert forall i :: 0 <= i < |a| ==> a[i] == (a + b)[i];
  }

  lemma PartAbove(a: seq<Item>, b: seq<Item>, key: int)
    requires AllAbove(a + b, key)
    ensures AllAbove(b, key)
  {
    assert forall i :: 0 <= i < |b| ==> b[i] == (a + b)[|a| + i];
  }

  lemma WalkUp(top: Tree, fs: seq<Frame>, t: Tree, key: int, h: nat, s: seq<Item>, maxItems: nat)
    requires fs != [] && Walking(top, fs, t, key, h, s, 1, maxItems)
    ensures Walking(top, Init(fs), Plug(Last(fs), t), key, h + 1, s, 1, maxItems)
  {
    AroundUp(fs, t, key, s);
    PlugShape(Last(fs), t, h, RootMin(|fs| - 1, maxItems), maxItems);
  }

  /** One level up, the run of full nodes gets longer. */
  lemma FullUp(f: Frame, t: Tree, steps: seq<Pos>, key: int, maxItems: nat)
    requires FrameOk(f) && InsertionPoint(f.items, key, |f.left|) && |f.items| == maxItems
    requires steps != [] && steps[0] == Pos(f.node, |f.left|) && FullBelow(t, steps[1..], key, maxItems)
    ensures FullBelow(Plug(f, t), steps, key, maxItems)
  {
    assert Plug(f, t).kids[|f.left|] == t;
  }

  /** The way down has reached t by n full or partly full nodes, and goes on to a leaf through full nodes only. */
  ghost predicate Followed(top: Tree, fs: seq<Frame>, t: Tree, path: seq<Pos>, n: nat, d: nat, key: int, h: nat,
                           s: seq<Item>, maxItems: nat)
  {
    n == |fs| && d <= n && |path| == n + h && maxItems % 2 == 1 &&
    Walking(top, fs, t, key, h, s, 1, maxItems) && FullBelow(t, path[n..], key, maxItems) &&
    OnTrack(fs, key) && FullFrom(fs, d, maxItems) && PathMatches(path, fs) &&
    (d > 0 ==> |fs[d - 1].items| < maxItems)
  }

  lemma FollowUp(top: Tree, fs: seq<Frame>, t: Tree, path: seq<Pos>, n: nat, d: nat, key: int, h: nat,
                 s: seq<Item>, maxItems: nat)
    requires Followed(top, fs, t, path, n + 1, d, key, h, s, maxItems) && d <= n
    ensures fs != [] && Followed(top, Init(fs), Plug(Last(fs), t), path, n, d, key, h + 1, s, maxItems)
  {
    WalkUp(top, fs, t, key, h, s, maxItems);
    TrackUp(fs, d, key, maxItems);
    hide Walking;
    var steps := path[n..];
    assert steps[1..] == path[n + 1..];
    FullUp(Last(fs), t, steps, key, maxItems);
  }

  /** Everything below level d is full: that is where top-down insertion starts splitting. */
  lemma {:induction false} StartOdd(top: Tree, fs: seq<Frame>, t: Tree, path: seq<Pos>, n: nat, d: nat, key: int, h: nat,
                                    s: seq<Item>, maxItems: nat)
    returns (gs: seq<Frame>, g: Tree)
    requires Followed(top, fs, t, path, n, d, key, h, s, maxItems)
    ensures Recorded(path, d, gs, g, top.node, key, s, maxItems) && Rebuild(gs, g) == top && OnTrack(gs, key)
    decreases n
  {
    if n > d {
      hide *;
      FollowUp(top, fs, t, path, n - 1, d, key, h, s, maxItems);
      gs, g := StartOdd(top, Init(fs), Plug(Last(fs), t), path, n - 1, d, key, h + 1, s, maxItems);
    } else {
      NotBelow(top, fs, t, path, n, d, key, h, s, maxItems);
      gs, g := StartHere(top, fs, t, path, d, key, h, s, maxItems);
    }
  }

  lemma NotBelow(top: Tree, fs: seq<Frame>, t: Tree, path: seq<Pos>, n: nat, d: nat, key: int, h: nat,
                 s: seq<Item>, maxItems: nat)
    requires Followed(top, fs, t, path, n, d, key, h, s, maxItems) && n <= d
    ensures n == d
  {
  }

  lemma StartHere(top: Tree, fs: seq<Frame>, t: Tree, path: seq<Pos>, d: nat, key: int, h: nat,
                  s: seq<Item>, maxItems: nat)
    returns (gs: seq<Frame>, g: Tree)
    requires Followed(top, fs, t, path, d, d, key, h, s, maxItems)
    ensures Recorded(path, d, gs, g, top.node, key, s, maxItems) && Rebuild(gs, g) == top && OnTrack(gs, key)
  {
    if d == 0 {
      gs, g := fs, t;
      StartAtRoot(top, t, path, key, s, maxItems);
    } else {
      gs, g := Init(fs), Plug(Last(fs), t);
      WalkUp(top, fs, t, key, h, s, maxItems);
      TrackUp(fs, d, key, maxItems);
      hide Shape, Around, FullBelow, ShapeP;
      StartAtNode(top, fs, t, path, key, h, s, maxItems);
    }
  }

  lemma TrackUp(fs: seq<Frame>, d: nat, key: int, maxItems: nat)
    requires fs != [] && OnTrack(fs, key) && FullFrom(fs, d, maxItems)
    ensures OnTrack(Init(fs), key) && FullFrom(Init(fs), d, maxItems)
  {
    assert forall j :: 0 <= j < |fs| - 1 ==> Init(fs)[j] == fs[j];
  }

  lemma StartAtRoot(top: Tree, t: Tree, path: seq<Pos>, key: int, s: seq<Item>, maxItems: nat)
    requires Walking(top, [], t, key, |path|, s, 1, maxItems) && maxItems % 2 == 1
    requires FullBelow(t, path[0..], key, maxItems)
    ensures Recorded(path, 0, [], t, top.node, key, s, maxItems)
  {
    assert path[0..] == path;
  }

  lemma StartAtNode(top: Tree, fs: seq<Frame>, t: Tree, path: seq<Pos>, key: int, h: nat, s: seq<Item>, maxItems: nat)
    requires fs != [] && Walking(top, Init(fs), Plug(Last(fs), t), key, h + 1, s, 1, maxItems) && maxItems % 2 == 1
    requires OnTrack(fs, key) && |Last(fs).items| < maxItems && PathMatches(path, fs)
    requires |path| == |fs| + h && FullBelow(t, path[|fs|..], key, maxItems)
    ensures Recorded(path, |fs|, Init(fs), Plug(Last(fs), t), top.node, key, s, maxItems)
  {
    var f := Last(fs);
    assert Plug(f, t).kids[|f.left|] == t && path[|fs| - 1] == Pos(f.node, |f.left|);
  }

  /** The leaf itself has room: nothing has to be split. */
  lemma StartAtLeaf(top: Tree, fs: seq<Frame>, t: Tree, path: seq<Pos>, idx: nat, key: int, s: seq<Item>, lo: nat, maxItems: nat)
    requires Walking(top, fs, t, key, 1, s, lo, maxItems) && maxItems % 2 == 1 && |t.items| < maxItems
    requires InsertionPoint(t.items, key, idx) && |path| == |fs| + 1 && path[|fs|] == Pos(t.node, idx)
    ensures Recorded(path, |path|, fs, t, top.node, key, s, maxItems)
  {
    assert path[|path|..] == [];
  }

  lemma FullLeaf(t: Tree, path: seq<Pos>, d: nat, idx: nat, key: int, maxItems: nat)
    requires t.kids == [] && |t.items| == maxItems && InsertionPoint(t.items, key, idx)
    requires |path| == d + 1 && path[d] == Pos(t.node, idx)
    ensures FullBelow(t, path[d..], key, maxItems)
  {
  }

  // ---------------------------------------------------------------- the loop of the way down

  /** The state of the loop: t is h levels above the ground, and d is the last level whose node has room. */
  ghost predicate Tracking(top: Tree, fs: seq<Frame>, t: Tree, path: seq<Pos>, d: nat, key: int, h: nat, s: seq<Item>,
                           lo: nat, maxItems: nat)
  {
    Walking(top, fs, t, key, h, s, lo, maxItems) && (lo == 0 ==> h == 1) &&
    PathMatches(path, fs) && OnTrack(fs, key) &&
    d <= |fs| && FullFrom(fs, d, maxItems) && (d > 0 ==> |fs[d - 1].items| < maxItems)
  }

  lemma TrackStart(top: Tree, key: int, h: nat, s: seq<Item>, lo: nat, maxItems: nat)
    requires 2 <= maxItems && lo <= 1 && Shape(top, h, lo, maxItems) && Flat(top) == s && Sorted(s) && (lo == 0 ==> h == 1)
    ensures Tracking(top, [], top, [], 0, key, h, s, lo, maxItems)
  {
    WalkStart(top, key, h, s, lo, maxItems);
  }

  lemma TrackDown(top: Tree, fs: seq<Frame>, t: Tree, path: seq<Pos>, d: nat, idx: nat, key: int, h: nat, s: seq<Item>,
                  lo: nat, maxItems: nat, d1: nat)
    requires Tracking(top, fs, t, path, d, key, h, s, lo, maxItems) && 1 < h && InsertionPoint(t.items, key, idx)
    requires d1 == if |t.items| < maxItems then |fs| + 1 else d
    requires |path| == |fs| + 1 && path[|fs|] == Pos(t.node, idx)
    ensures idx < |t.kids| && |Deeper(fs, t, idx)| == |fs| + 1
    ensures Tracking(top, Deeper(fs, t, idx), t.kids[idx], path, d1, key, h - 1, s, lo, maxItems)
  {
    WalkDown(top, fs, t, idx, key, h, s, lo, maxItems);
    hide Walking, OnTrack;
    TrackDownPath(fs, FrameAt(t, idx), path, d, d1, maxItems);
  }

  lemma TrackDownPath(fs: seq<Frame>, f: Frame, path: seq<Pos>, d: nat, d1: nat, maxItems: nat)
    requires PathMatches(path, fs) && FullFrom(fs, d, maxItems) && d <= |fs| && (d > 0 ==> |fs[d - 1].items| < maxItems)
    requires |path| == |fs| + 1 && path[|fs|] == Pos(f.node, |f.left|)
    requires |f.items| <= maxItems && d1 == if |f.items| < maxItems then |fs| + 1 else d
    ensures PathMatches(path, fs + [f]) && FullFrom(fs + [f], d1, maxItems)
    ensures d1 > 0 ==> |(fs + [f])[d1 - 1].items| < maxItems
  {
  }

  lemma TrackRecord(top: Tree, fs: seq<Frame>, t: Tree, path: seq<Pos>, step: Pos, d: nat, key: int, h: nat, s: seq<Item>,
                    lo: nat, maxItems: nat)
    requires Tracking(top, fs, t, path, d, key, h, s, lo, maxItems) && |path| == |fs|
    ensures Tracking(top, fs, t, path + [step], d, key, h, s, lo, maxItems)
    ensures |path + [step]| == |fs| + 1 && (path + [step])[|fs|] == step
  {
    hide Walking;
  }

  /** What the loop needs to know about the node in hand. */
  lemma TrackNode(top: Tree, fs: seq<Frame>, t: Tree, path: seq<Pos>, d: nat, key: int, h: nat, s: seq<Item>,
                  lo: nat, maxItems: nat)
    requires Tracking(top, fs, t, path, d, key, h, s, lo, maxItems) && Rep(top, maxItems)
    ensures t.node.Fits() && t.node.numItems == |t.items| <= maxItems && t.node.Items() == t.items && Sorted(t.items)
    ensures 1 <= h
  {
    WalkMemory(top, fs, t, maxItems);
    SortedParts(Pre(fs), Flat(t), Post(fs));
    NodeSorted(t);
  }

  lemma TrackChild(top: Tree, fs: seq<Frame>, t: Tree, path: seq<Pos>, d: nat, key: int, h: nat, s: seq<Item>,
                   lo: nat, maxItems: nat, idx: nat)
    requires Tracking(top, fs, t, path, d, key, h, s, lo, maxItems) && Rep(top, maxItems) && 1 < h && idx <= |t.items|
    ensures idx < |t.kids| && idx < t.node.children.Length && t.node.children[idx] == t.kids[idx].node
  {
    WalkMemory(top, fs, t, maxItems);
    hide Around, RepP, Rep, RepK, InMemory;
    KidInMemory(t, idx, maxItems);
  }

  lemma PointBound(s: seq<Item>, key: int, idx: nat)
    requires InsertionPoint(s, key, idx)
    ensures idx <= |s|
  {
  }

  /** The way down to the key: it ends where the key is, or at the leaf where it belongs. */
  method WalkTo(root: Node, height: nat, key: int, linearSearchThreshold: nat, maxItems: nat,
                ghost tp: Tree, ghost s: seq<Item>, ghost lo: nat)
    returns (found: bool, idx: nat, node: Node, path: seq<Pos>, lastNonfull: nat,
             ghost fs: seq<Frame>, ghost t: Tree, ghost d: nat, ghost h: nat)
    requires Rep(tp, maxItems) && root == tp.node && 1 <= height <= 32
    requires Tracking(tp, [], tp, [], 0, key, height, s, lo, maxItems)
    ensures Rep(tp, maxItems) && node == t.node && |t.items| <= maxItems
    ensures Tracking(tp, fs, t, path, d, key, h, s, lo, maxItems) && h + |fs| == height
    ensures found ==> idx < |t.items| && t.items[idx].key == key
    ensures !found ==> h == 1 && |fs| + 1 == height == |path| && path[|fs|] == Pos(node, idx)
    ensures !found ==> InsertionPoint(t.items, key, idx)
    ensures !found ==> lastNonfull == if |t.items| < maxItems then |fs| + 1 else d
  {
    FootAllocated(tp);
    hide *;
    node := root;
    fs, t, d, h := [], tp, 0, height;
    var depth := 1;
    path, lastNonfull := [], 0;
    while true
      invariant Rep(tp, maxItems) && node == t.node && 1 <= depth <= height
      invariant Tracking(tp, fs, t, path, d, key, h, s, lo, maxItems)
      invariant |fs| + 1 == depth && |path| == |fs| && h == height - depth + 1 && lastNonfull == d
      decreases height - depth
    {
      TrackNode(tp, fs, t, path, d, key, h, s, lo, maxItems);
      found, idx := NodeSearch(node, key, linearSearchThreshold);
      if found {
        return;
      }
      PointBound(t.items, key, idx);
      if node.numItems < maxItems {
        lastNonfull := depth;
      }
      TrackRecord(tp, fs, t, path, Pos(node, idx), d, key, h, s, lo, maxItems);
      assert depth - 1 < 32;  // the path array has 32 entries
      path := path + [Pos(node, idx)];
      if depth == height {
        return;
      }
      TrackChild(tp, fs, t, path, d, key, h, s, lo, maxItems, idx);
      TrackDown(tp, fs, t, path, d, idx, key, h, s, lo, maxItems, lastNonfull);
      depth := depth + 1;
      node := node.children[idx];
      fs, t, d, h := Deeper(fs, t, idx), t.kids[idx], lastNonfull, h - 1;
    }
  }

  lemma LastPoint(s: seq<Item>, key: int)
    requires s != [] && Sorted(s) && s[|s| - 1].key < key
    ensures InsertionPoint(s, key, |s|)
  {
    assert s[..|s|] == s;
    EndsBelow(s, key);
  }

  lemma TrackNonempty(top: Tree, fs: seq<Frame>, t: Tree, path: seq<Pos>, d: nat, key: int, h: nat, s: seq<Item>, maxItems: nat)
    requires Tracking(top, fs, t, path, d, key, h, s, 1, maxItems) && Rep(top, maxItems)
    ensures t.items != [] && t.node.numItems > 0 && t.node.items.Length > |t.items| - 1
    ensures t.node.items[|t.items| - 1] == t.items[|t.items| - 1]
  {
    WalkMemory(top, fs, t, maxItems);
    hide Around, RepP, Rep, RepK;
    assert t.node.Items()[|t.items| - 1] == t.items[|t.items| - 1];
  }

  /** Behind frame c, the path follows the right edge. */
  ghost predicate RightEdge(fs: seq<Frame>, c: int) {
    forall j :: 0 <= j < |fs| && c < j ==> fs[j].right == []
  }

  lemma {:induction false} RightEdgePost(fs: seq<Frame>)
    requires PathOk(fs) && RightEdge(fs, -1)
    ensures Post(fs) == []
  {
    if fs != [] {
      assert forall j :: 0 <= j < |fs| - 1 ==> Init(fs)[j] == fs[j];
      RightEdgePost(Init(fs));
    }
  }

  lemma EdgeOn(fs: seq<Frame>, t: Tree, idx: nat)
    requires RightEdge(fs, -1) && idx + 1 == |t.kids|
    ensures RightEdge(Deeper(fs, t, idx), -1)
  {
  }

  lemma EdgeStart()
    ensures RightEdge([], -1)
  {
  }

  lemma LastKid(fs: seq<Frame>, t: Tree, path: seq<Pos>, d: nat, key: int, h: nat, s: seq<Item>, top: Tree, maxItems: nat)
    requires Tracking(top, fs, t, path, d, key, h, s, 1, maxItems) && 1 < h
    ensures |t.kids| == |t.items| + 1
  {
  }

  /** At the end of the right edge, every item is smaller than the key. */
  lemma AllSmaller(top: Tree, fs: seq<Frame>, t: Tree, path: seq<Pos>, d: nat, key: int, s: seq<Item>, maxItems: nat)
    requires Tracking(top, fs, t, path, d, key, 1, s, 1, maxItems) && RightEdge(fs, -1) && InsertionPoint(t.items, key, |t.items|)
    ensures AllBelow(s, key)
  {
    RightEdgePost(fs);
    assert t.items[..|t.items|] == t.items && Flat(t) == t.items;
    assert s == Pre(fs) + t.items + [];
  }

  /** A node on the way has an item that is not smaller. */
  lemma OneNotSmaller(top: Tree, fs: seq<Frame>, t: Tree, path: seq<Pos>, d: nat, key: int, h: nat, s: seq<Item>, maxItems: nat)
    requires Tracking(top, fs, t, path, d, key, h, s, 1, maxItems) && t.items != [] && Compare(key, t.items[|t.items| - 1]) <= 0
    ensures !AllBelow(s, key)
  {
    var i := |t.items| - 1;
    FlatAt(t, i);
    hide Flat, Pre, Post, LeftOf, RightOf;
    var at := |Pre(fs)| + |LeftOf(t, i)|;
    assert s == Pre(fs) + (LeftOf(t, i) + [t.items[i]] + RightOf(t, i)) + Post(fs);
    assert s[at] == t.items[i];
  }

  /** The way down along the right edge, as long as the key is greater than everything there. */
  method WalkRight(root: Node, height: nat, key: int, maxItems: nat, ghost tp: Tree, ghost s: seq<Item>)
    returns (greatest: bool, idx: nat, node: Node, path: seq<Pos>, lastNonfull: nat,
             ghost fs: seq<Frame>, ghost t: Tree, ghost d: nat)
    requires Rep(tp, maxItems) && root == tp.node && 1 <= height <= 32
    requires Tracking(tp, [], tp, [], 0, key, height, s, 1, maxItems)
    ensures greatest ==> node == t.node && Tracking(tp, fs, t, path, d, key, 1, s, 1, maxItems)
    ensures greatest ==> |fs| + 1 == height == |path| && path[|fs|] == Pos(node, idx)
    ensures greatest ==> InsertionPoint(t.items, key, idx) && |t.items| <= maxItems
    ensures greatest ==> lastNonfull == if |t.items| < maxItems then |fs| + 1 else d
    ensures greatest <==> AllBelow(s, key)
  {
    hide *;
    EdgeStart();
    node := root;
    fs, t, d := [], tp, 0;
    ghost var h := height;
    var depth := 1;
    path, lastNonfull := [], 0;
    while true
      invariant Rep(tp, maxItems) && node == t.node && 1 <= depth <= height
      invariant Tracking(tp, fs, t, path, d, key, h, s, 1, maxItems)
      invariant |fs| + 1 == depth && |path| == |fs| && h == height - depth + 1 && lastNonfull == d && RightEdge(fs, -1)
      decreases height - depth
    {
      TrackNode(tp, fs, t, path, d, key, h, s, 1, maxItems);
      TrackNonempty(tp, fs, t, path, d, key, h, s, maxItems);
      idx := node.numItems;
      if Compare(key, node.items[idx - 1]) <= 0 {
        OneNotSmaller(tp, fs, t, path, d, key, h, s, maxItems);
        return false, idx, node, path, lastNonfull, fs, t, d;
      }
      KeyAfter(t.items, key);
      if node.numItems < maxItems {
        lastNonfull := depth;
      }
      TrackRecord(tp, fs, t, path, Pos(node, idx), d, key, h, s, 1, maxItems);
      assert depth - 1 < 32;  // the path array has 32 entries
      path := path + [Pos(node, idx)];
      if depth == height {
        AllSmaller(tp, fs, t, path, d, key, s, maxItems);
        return true, idx, node, path, lastNonfull, fs, t, d;
      }
      TrackChild(tp, fs, t, path, d, key, h, s, 1, maxItems, idx);
      LastKid(fs, t, path, d, key, h, s, tp, maxItems);
      EdgeOn(fs, t, idx);
      TrackDown(tp, fs, t, path, d, idx, key, h, s, 1, maxItems, lastNonfull);
      depth := depth + 1;
      node := node.children[idx];
      fs, t, d, h := Deeper(fs, t, idx), t.kids[idx], lastNonfull, h - 1;
    }
  }

  lemma KeyAfter(s: seq<Item>, key: int)
    requires s != [] && Sorted(s) && Compare(key, s[|s| - 1]) > 0
    ensures InsertionPoint(s, key, |s|)
  {
    LastPoint(s, key);
  }
}
