/** Iterators: an explicit path from the root to the current item, moved one item at a time. */
module BTreeIter {
  import opened BTreeNode
  import opened BTreeTree
  import opened BTreePath
  import opened BTreeSearch
  import opened BTreeInsertEven
  import opened BTreeWalk
  import opened BTreeInsert
  import opened BTreeSeek

  /** How many items of t are in front of its item idx; behind its last item, how many it has. */
  ghost function Upto(t: Tree, idx: nat): nat {
    if t.kids == [] then (if idx <= |t.items| then idx else |t.items|)
    else if idx < |t.kids| && |t.kids| == |t.items| + 1 then |FramePre(FrameAt(t, idx))| + |Flat(t.kids[idx])|
    else 0
  }

  /** How many items of t are in front of its subtree idx, or of its item idx in a leaf. */
  ghost function Gap(t: Tree, idx: nat): nat {
    if t.kids == [] then (if idx <= |t.items| then idx else |t.items|)
    else if idx < |t.kids| && |t.kids| == |t.items| + 1 then |FramePre(FrameAt(t, idx))|
    else 0
  }

  lemma FrameLeft(t: Tree, idx: nat)
    requires |t.kids| == |t.items| + 1 && idx < |t.items|
    ensures |LeftOf(t, idx)| == |FramePre(FrameAt(t, idx))| + |Flat(t.kids[idx])|
    ensures FramePre(FrameAt(t, idx + 1)) == LeftOf(t, idx) + [t.items[idx]]
  {
    assert t.items[..idx + 1][..idx] == t.items[..idx];
    var left, a := t.kids[..idx], t.items[..idx];
    WeaveAt(left, a, t.kids[idx], [], []);
    assert left + [t.kids[idx]] + [] == t.kids[..idx + 1] && a + [] == a;
  }

  lemma {:induction false} FlatOfNode(t: Tree, h: nat, lo: nat, maxItems: nat)
    requires Shape(t, h, lo, maxItems)
    ensures Upto(t, |t.items|) == |Flat(t)| && Gap(t, 0) == 0
    ensures forall idx | 0 <= idx < |t.items| :: Upto(t, idx) == |LeftOf(t, idx)| && Gap(t, idx + 1) == Upto(t, idx) + 1
  {
    if h > 1 {
      forall idx | 0 <= idx < |t.items|
        ensures Upto(t, idx) == |LeftOf(t, idx)| && Gap(t, idx + 1) == Upto(t, idx) + 1
      {
        FrameLeft(t, idx);
      }
      var n := |t.items|;
      WeaveAt(t.kids[..n], t.items[..n], t.kids[n], [], []);
      assert t.kids[..n] + [t.kids[n]] + [] == t.kids && t.items[..n] + [] == t.items && t.items[..n] == t.items;
      assert FrameAt(t, n).items[..n] == t.items;
    }
  }

  /** The tree that is iterated over. */
  datatype Whole = Whole(tp: Tree, height: nat, s: seq<Item>, maxItems: nat)

  /** One entry of one of its nodes: entry idx of t, h levels above the ground, at the end of the path fs. */
  datatype Spot = Spot(fs: seq<Frame>, t: Tree, idx: nat, h: nat)

  /** The recorded path leads to this spot. */
  ghost predicate Standing(w: Whole, c: Spot, path: seq<Pos>) {
    |path| == |c.fs| + 1 && path[|c.fs|] == Pos(c.t.node, c.idx) && w.height == |c.fs| + c.h && Rooted(w, c, path)
  }

  ghost predicate Rooted(w: Whole, c: Spot, path: seq<Pos>)
    requires |path| == |c.fs| + 1
  {
    Placed(w.tp, c.fs, c.t, path[..|c.fs|], c.h, w.s, w.maxItems)
  }

  /** The number of items in front of the spot; item idx itself has that number. */
  ghost function Rank(c: Spot): nat {
    if PathOk(c.fs) then |Pre(c.fs)| + Upto(c.t, c.idx) else 0
  }

  /** The number of items in front of the subtree the spot is at. */
  ghost function Low(c: Spot): nat {
    if PathOk(c.fs) then |Pre(c.fs)| + Gap(c.t, c.idx) else 0
  }

  lemma RootedKids(w: Whole, c: Spot, path: seq<Pos>)
    requires Standing(w, c, path)
    ensures PathOk(c.fs) && 1 <= c.h && c.t.items != []
    ensures if c.h == 1 then c.t.kids == [] else |c.t.kids| == |c.t.items| + 1
    ensures Shape(c.t, c.h, RootMin(|c.fs|, w.maxItems), w.maxItems) && Rebuild(c.fs, c.t) == w.tp
    ensures Pre(c.fs) + Flat(c.t) + Post(c.fs) == w.s
  {
  }

  /** What the loops need to know about the node in hand. */
  lemma InHand(w: Whole, c: Spot, path: seq<Pos>)
    requires Standing(w, c, path) && Rep(w.tp, w.maxItems)
    ensures path != [] && path[|path| - 1] == Pos(c.t.node, c.idx) && |path| == |c.fs| + 1
    ensures c.t.node.numItems == |c.t.items| && c.t.items != [] && 1 <= c.h && w.height == |c.fs| + c.h
    ensures c.idx < |c.t.items| ==> c.idx < c.t.node.items.Length && c.t.node.items[c.idx] == c.t.items[c.idx]
  {
    RootedKids(w, c, path);
    WalkMemory(w.tp, c.fs, c.t, w.maxItems);
    hide Rooted, Shape, Flat, RepP, Rebuild, PathOk;
    assert c.idx < |c.t.items| ==> c.t.node.Items()[c.idx] == c.t.items[c.idx];
  }

  /** The item at a spot is the one its rank says. */
  lemma RankItem(w: Whole, c: Spot, path: seq<Pos>)
    requires Standing(w, c, path) && c.idx < |c.t.items|
    ensures Rank(c) < |w.s| && w.s[Rank(c)] == c.t.items[c.idx]
  {
    RootedKids(w, c, path);
    var fs, t, idx := c.fs, c.t, c.idx;
    FlatOfNode(t, c.h, RootMin(|fs|, w.maxItems), w.maxItems);
    FlatAt(t, idx);
    hide Rooted, Pre, Post, Flat, LeftOf, RightOf, Shape, Rebuild, PathOk, Upto, Gap;
    Middle(Pre(fs), LeftOf(t, idx), t.items[idx], t.items[idx], RightOf(t, idx), Post(fs));
  }

  /** Counting within one node. */
  lemma Counts(w: Whole, c: Spot, path: seq<Pos>)
    requires Standing(w, c, path)
    ensures PathOk(c.fs) && Upto(c.t, |c.t.items|) == |Flat(c.t)| && Gap(c.t, 0) == 0
    ensures forall i | 0 <= i < |c.t.items| :: Gap(c.t, i + 1) == Upto(c.t, i) + 1
    ensures c.h == 1 ==> c.t.kids == []
  {
    RootedKids(w, c, path);
    FlatOfNode(c.t, c.h, RootMin(|c.fs|, w.maxItems), w.maxItems);
    hide Rooted, Shape, Flat, Upto, Gap, Rebuild, Pre, Post;
  }

  lemma LeafCounts(t: Tree, idx: nat)
    requires t.kids == []
    ensures Upto(t, idx) == Gap(t, idx) && (idx >= |t.items| ==> Upto(t, idx) == Upto(t, |t.items|))
  {
  }

  /** The same node with another entry. */
  ghost function Turned(c: Spot, idx: nat): Spot {
    c.(idx := idx)
  }

  lemma Turn(w: Whole, c: Spot, path: seq<Pos>, idx: nat)
    requires Standing(w, c, path)
    ensures path != [] && Standing(w, Turned(c, idx), path[|path| - 1 := Pos(path[|path| - 1].node, idx)])
  {
    assert path[|path| - 1 := Pos(c.t.node, idx)][..|c.fs|] == path[..|c.fs|];
    hide Placed;
  }

  /** Entry idx of the subtree the spot is at. */
  ghost function Down(c: Spot, idx: nat): Spot
    requires c.idx < |c.t.kids| && c.h > 0
  {
    Spot(Deeper(c.fs, c.t, c.idx), c.t.kids[c.idx], idx, c.h - 1)
  }

  lemma DownStanding(w: Whole, c: Spot, path: seq<Pos>, idx: nat)
    requires Standing(w, c, path) && Rep(w.tp, w.maxItems) && 1 < c.h && c.idx <= |c.t.items|
    ensures c.idx < |c.t.kids| && c.idx < c.t.node.children.Length && c.t.node.children[c.idx] == c.t.kids[c.idx].node
    ensures Standing(w, Down(c, idx), path + [Pos(c.t.kids[c.idx].node, idx)])
  {
    hide Placed;
    var init := path[..|c.fs|];
    SeekChild(w.tp, c.fs, c.t, init, c.h, w.s, w.maxItems, c.idx);
    PlacedDown(w.tp, c.fs, c.t, init, c.h, w.s, w.maxItems, c.idx);
    assert init + [Pos(c.t.node, c.idx)] == path;
    assert (path + [Pos(c.t.kids[c.idx].node, idx)])[..|c.fs| + 1] == path;
  }

  lemma DownCounts(t: Tree, idx: nat)
    requires |t.kids| == |t.items| + 1 && idx < |t.kids|
    ensures Upto(t, idx) == Gap(t, idx) + |Flat(t.kids[idx])| && Gap(t, idx) == |FramePre(FrameAt(t, idx))|
  {
    hide Flat, FramePre, FrameAt;
  }

  lemma GoDown(w: Whole, c: Spot, path: seq<Pos>, idx: nat)
    requires Standing(w, c, path) && Rep(w.tp, w.maxItems) && 1 < c.h && c.idx <= |c.t.items|
    ensures c.idx < |c.t.kids| && c.idx < c.t.node.children.Length && c.t.node.children[c.idx] == c.t.kids[c.idx].node
    ensures Standing(w, Down(c, idx), path + [Pos(c.t.kids[c.idx].node, idx)])
    ensures PathOk(c.fs) && PathOk(Down(c, idx).fs) && |Pre(Down(c, idx).fs)| == |Pre(c.fs)| + Gap(c.t, c.idx)
    ensures Upto(c.t, c.idx) == Gap(c.t, c.idx) + |Flat(c.t.kids[c.idx])|
  {
    hide Standing, Upto, Gap, Flat, Pre, Post, Rebuild, Shape, PathOk, FramePre, FramePost;
    RootedKids(w, c, path);
    DownStanding(w, c, path, idx);
    DownCounts(c.t, c.idx);
    PrePush(c.fs, FrameAt(c.t, c.idx));
  }

  /** The entry of the parent that the spot's node is below. */
  ghost function Up(c: Spot): Spot
    requires c.fs != []
  {
    Spot(Init(c.fs), Plug(Last(c.fs), c.t), |Last(c.fs).left|, c.h + 1)
  }

  lemma UpCounts(f: Frame, t: Tree)
    requires FrameOk(f)
    ensures var p, k := Plug(f, t), |f.left|;
      k <= |p.items| && Gap(p, k) == |FramePre(f)| && Upto(p, k) == Gap(p, k) + |Flat(t)| && p.node == f.node
  {
    var p, k := Plug(f, t), |f.left|;
    assert FrameAt(p, k) == f && p.kids[k] == t;
    hide Flat, FramePre;
  }

  lemma UpStanding(w: Whole, c: Spot, path: seq<Pos>)
    requires c.fs != [] && Standing(w, c, path)
    ensures Standing(w, Up(c), path[..|c.fs|]) && PathOk(c.fs) && FrameOk(Last(c.fs))
  {
    hide Placed, PathOk, PathMatches, Plug;
    PlacedUp(w.tp, c.fs, c.t, path[..|c.fs|], c.h, w.s, w.maxItems);
    assert path[..|c.fs|][..|c.fs| - 1] == path[..|c.fs| - 1];
    InitLength(c.fs);
    PlugNode(Last(c.fs), c.t);
    hide Init, Last;
  }

  lemma GoUp(w: Whole, c: Spot, path: seq<Pos>)
    requires c.fs != [] && Standing(w, c, path)
    ensures Standing(w, Up(c), path[..|c.fs|]) && Up(c).idx <= |Up(c).t.items| && |Up(c).fs| == |c.fs| - 1
    ensures PathOk(c.fs) && PathOk(Up(c).fs) && |Pre(c.fs)| == |Pre(Up(c).fs)| + Gap(Up(c).t, Up(c).idx)
    ensures Upto(Up(c).t, Up(c).idx) == Gap(Up(c).t, Up(c).idx) + |Flat(c.t)|
  {
    UpStanding(w, c, path);
    PathParts(c.fs);
    UpCounts(Last(c.fs), c.t);
    hide Standing, Flat, Pre, Post, Upto, Gap, FramePre, FramePost, PathOk, Plug;
  }

  lemma PlacedUp(tp: Tree, fs: seq<Frame>, t: Tree, path: seq<Pos>, h: nat, s: seq<Item>, maxItems: nat)
    requires fs != [] && Placed(tp, fs, t, path, h, s, maxItems)
    ensures Placed(tp, Init(fs), Plug(Last(fs), t), path[..|fs| - 1], h + 1, s, maxItems)
    ensures path[|fs| - 1] == Pos(Last(fs).node, |Last(fs).left|) && FrameOk(Last(fs)) && PathOk(fs)
  {
    var init, f := Init(fs), Last(fs);
    PathParts(fs);
    PlugShape(f, t, h, RootMin(|init|, maxItems), maxItems);
    RebuildFlat(fs, t);
    RebuildFlat(init, Plug(f, t));
    assert Rebuild(init, Plug(f, t)) == tp;
    assert PathMatches(path[..|fs| - 1], init);
    hide Flat, Pre, Post, PathMatches, Rebuild, Shape, ShapeP, PathOk;
  }

  // ---------------------------------------------------------------- one item further

  /** n items are in front of the subtree the spot is at. */
  ghost predicate AtLow(w: Whole, c: Spot, path: seq<Pos>, n: nat) {
    Standing(w, c, path) && Low(c) == n && (c.h > 1 ==> c.idx <= |c.t.items|)
  }

  /** n items are in front of the spot's item; behind the node, if it has no such item. */
  ghost predicate AtRank(w: Whole, c: Spot, path: seq<Pos>, n: nat) {
    Standing(w, c, path) && Rank(c) == n && (c.h > 1 ==> c.idx <= |c.t.items|)
  }

  /** The iterator is at item number r. */
  ghost predicate On(w: Whole, c: Spot, path: seq<Pos>, r: nat) {
    Standing(w, c, path) && c.idx < |c.t.items| && Rank(c) == r
  }

  /** The number of the next item: a spot behind the last item of a leaf is already past everything in front. */
  ghost function Behind(c: Spot): nat {
    if c.idx < |c.t.items| then Rank(c) + 1 else Rank(c)
  }

  lemma NextEntry(w: Whole, c: Spot, path: seq<Pos>)
    requires Standing(w, c, path) && c.idx <= |c.t.items| && (c.idx == |c.t.items| ==> c.h == 1)
    ensures path != [] && AtLow(w, Turned(c, c.idx + 1), path[|path| - 1 := Pos(path[|path| - 1].node, c.idx + 1)], Behind(c))
  {
    Counts(w, c, path);
    Turn(w, c, path, c.idx + 1);
    if c.h == 1 {
      LeafCounts(c.t, c.idx);
      LeafCounts(c.t, c.idx + 1);
      if c.idx == |c.t.items| {
        LeafEnd(c.t, c.idx);
      }
    }
    hide Standing, Upto, Gap, Flat, Pre, PathOk;
  }

  lemma LeafEnd(t: Tree, idx: nat)
    requires t.kids == [] && idx == |t.items|
    ensures Gap(t, idx + 1) == Upto(t, idx)
  {
  }

  lemma LowDown(w: Whole, c: Spot, path: seq<Pos>, n: nat)
    requires AtLow(w, c, path, n) && 1 < c.h && Rep(w.tp, w.maxItems)
    ensures c.idx < |c.t.kids| && c.idx < c.t.node.children.Length && c.t.node.children[c.idx] == c.t.kids[c.idx].node
    ensures AtLow(w, Down(c, 0), path + [Pos(c.t.kids[c.idx].node, 0)], n)
  {
    GoDown(w, c, path, 0);
    var d := Down(c, 0);
    Counts(w, d, path + [Pos(c.t.kids[c.idx].node, 0)]);
    hide Standing, Upto, Gap, Flat, Pre, PathOk;
  }

  lemma LowBottom(w: Whole, c: Spot, path: seq<Pos>, n: nat)
    requires AtLow(w, c, path, n) && c.h == 1
    ensures AtRank(w, c, path, n)
  {
    Counts(w, c, path);
    LeafCounts(c.t, c.idx);
    hide Standing, Upto, Gap, Flat, Pre, PathOk;
  }

  lemma RankUp(w: Whole, c: Spot, path: seq<Pos>, n: nat)
    requires AtRank(w, c, path, n) && c.idx >= |c.t.items| && c.fs != []
    ensures |path| == |c.fs| + 1 && AtRank(w, Up(c), path[..|path| - 1], n)
  {
    RankFull(w, c, path, n);
    GoUp(w, c, path);
    assert |path| == |c.fs| + 1;
    hide Standing, Upto, Gap, Flat, Pre, PathOk;
  }

  lemma RankFull(w: Whole, c: Spot, path: seq<Pos>, n: nat)
    requires AtRank(w, c, path, n) && c.idx >= |c.t.items|
    ensures PathOk(c.fs) && n == |Pre(c.fs)| + |Flat(c.t)|
  {
    hide Standing, Upto, Gap, Flat, Pre, PathOk;
    RankPlace(w, c, path);
    Counts(w, c, path);
    if c.h == 1 {
      LeafCounts(c.t, c.idx);
    }
  }

  lemma RankPlace(w: Whole, c: Spot, path: seq<Pos>)
    requires Standing(w, c, path)
    ensures 1 <= c.h
  {
    RootedKids(w, c, path);
  }

  lemma RankTop(w: Whole, c: Spot, path: seq<Pos>, n: nat)
    requires AtRank(w, c, path, n) && c.idx >= |c.t.items| && c.fs == []
    ensures n == |w.s|
  {
    RankFull(w, c, path, n);
    RootedKids(w, c, path);
    assert Post(c.fs) == [];
    hide Standing, Upto, Gap, Flat, PathOk;
  }

  lemma RankHere(w: Whole, c: Spot, path: seq<Pos>, n: nat)
    requires AtRank(w, c, path, n) && c.idx < |c.t.items| && Rep(w.tp, w.maxItems)
    ensures On(w, c, path, n) && n < |w.s| && w.s[n] == c.t.items[c.idx]
    ensures c.idx < c.t.node.items.Length && c.t.node.items[c.idx] == c.t.items[c.idx]
  {
    InHand(w, c, path);
    RankItem(w, c, path);
  }

  lemma Facts(w: Whole, c: Spot, path: seq<Pos>)
    requires Standing(w, c, path) && Rep(w.tp, w.maxItems)
    ensures path != [] && path[|path| - 1] == Pos(c.t.node, c.idx) && |path| == |c.fs| + 1 && w.height == |c.fs| + c.h
    ensures c.t.node.numItems == |c.t.items| && c.t.items != [] && 1 <= c.h
  {
    InHand(w, c, path);
  }

  lemma LowFacts(w: Whole, c: Spot, path: seq<Pos>, n: nat)
    requires AtLow(w, c, path, n) && Rep(w.tp, w.maxItems)
    ensures path != [] && path[|path| - 1] == Pos(c.t.node, c.idx) && |path| == |c.fs| + 1 && w.height == |c.fs| + c.h
    ensures c.t.node.numItems == |c.t.items| && c.t.items != [] && 1 <= c.h
  {
    InHand(w, c, path);
  }

  lemma RankFacts(w: Whole, c: Spot, path: seq<Pos>, n: nat)
    requires AtRank(w, c, path, n) && Rep(w.tp, w.maxItems)
    ensures path != [] && path[|path| - 1] == Pos(c.t.node, c.idx) && |path| == |c.fs| + 1 && w.height == |c.fs| + c.h
    ensures c.t.node.numItems == |c.t.items| && c.t.items != [] && 1 <= c.h
  {
    InHand(w, c, path);
  }

  lemma Lengths(c: Spot)
    ensures c.fs != [] ==> |Up(c).fs| == |c.fs| - 1 && Up(c).h == c.h + 1
    ensures c.idx < |c.t.kids| && c.h > 0 ==>
      Down(c, 0).idx == 0 && Down(c, 0).t == c.t.kids[c.idx] && |Down(c, 0).fs| == |c.fs| + 1 && Down(c, 0).h == c.h - 1
  {
  }

  /** To the next item in order, or past the end. */
  method Next(path0: seq<Pos>, height: nat, ghost w: Whole, ghost c0: Spot)
    returns (found: bool, item: Item, path: seq<Pos>, ghost c: Spot)
    requires Standing(w, c0, path0) && Rep(w.tp, w.maxItems) && height == w.height <= 32
    requires c0.idx <= |c0.t.items| && (c0.idx == |c0.t.items| ==> c0.h == 1)
    ensures found ==> On(w, c, path, Behind(c0)) && Behind(c0) < |w.s| && item == w.s[Behind(c0)]
    ensures !found ==> path == [] && Behind(c0) == |w.s|
  {
    hide *;
    Facts(w, c0, path0);
    ghost var n := Behind(c0);
    var pos := path0[|path0| - 1];
    pos := Pos(pos.node, pos.idx + 1);
    path := path0[|path0| - 1 := pos];
    NextEntry(w, c0, path0);
    c := Turned(c0, c0.idx + 1);
    LowFacts(w, c, path, n);
    // descend into the leftmost child of the right child
    while |path| < height
      invariant AtLow(w, c, path, n) && Rep(w.tp, w.maxItems)
      invariant 1 <= |path| == |c.fs| + 1 <= height && w.height == |c.fs| + c.h && path[|path| - 1] == pos == Pos(c.t.node, c.idx)
    {
      LowDown(w, c, path, n);
      Lengths(c);
      var child := pos.node.children[pos.idx];
      pos := Pos(child, 0);
      path := path + [pos];
      c := Down(c, 0);
      LowFacts(w, c, path, n);
    }
    LowBottom(w, c, path, n);
    RankFacts(w, c, path, n);
    while pos.idx >= pos.node.numItems
      invariant AtRank(w, c, path, n) && Rep(w.tp, w.maxItems)
      invariant 1 <= |path| == |c.fs| + 1 && path[|path| - 1] == pos == Pos(c.t.node, c.idx) && pos.node.numItems == |c.t.items|
      decreases |path|
    {
      if |path| == 1 {
        RankTop(w, c, path, n);
        return false, Item(0, 0), [], c;
      }
      RankUp(w, c, path, n);
      path := path[..|path| - 1];
      c := Up(c);
      RankFacts(w, c, path, n);
      pos := path[|path| - 1];
    }
    RankHere(w, c, path, n);
    found, item := true, pos.node.items[pos.idx];
  }

  // ---------------------------------------------------------------- one item back

  lemma RankDown(w: Whole, c: Spot, path: seq<Pos>, n: nat)
    requires AtRank(w, c, path, n) && 1 < c.h && Rep(w.tp, w.maxItems)
    ensures c.idx < |c.t.kids| && c.idx < c.t.node.children.Length && c.t.node.children[c.idx] == c.t.kids[c.idx].node
    ensures var k := c.t.kids[c.idx];
      k.node.numItems == |k.items| && AtRank(w, Down(c, |k.items|), path + [Pos(k.node, |k.items|)], n)
    ensures Down(c, |c.t.kids[c.idx].items|).idx == |c.t.kids[c.idx].items|
    ensures Down(c, |c.t.kids[c.idx].items|).t == c.t.kids[c.idx]
    ensures |Down(c, |c.t.kids[c.idx].items|).fs| == |c.fs| + 1 && Down(c, |c.t.kids[c.idx].items|).h == c.h - 1
  {
    GoDown(w, c, path, 0);
    var k := c.t.kids[c.idx];
    GoDown(w, c, path, |k.items|);
    var d, p := Down(c, |k.items|), path + [Pos(k.node, |k.items|)];
    Counts(w, d, p);
    Facts(w, d, p);
    hide Standing, Upto, Gap, Flat, Pre, PathOk;
  }

  lemma RankBottom(w: Whole, c: Spot, path: seq<Pos>, n: nat)
    requires AtRank(w, c, path, n) && c.h == 1
    ensures AtLow(w, c, path, n)
  {
    Counts(w, c, path);
    LeafCounts(c.t, c.idx);
    hide Standing, Upto, Gap, Flat, Pre, PathOk;
  }

  lemma LowEmpty(w: Whole, c: Spot, path: seq<Pos>, n: nat)
    requires AtLow(w, c, path, n) && c.idx == 0
    ensures PathOk(c.fs) && n == |Pre(c.fs)|
  {
    Counts(w, c, path);
    hide Standing, Upto, Gap, Flat, Pre, PathOk;
  }

  lemma LowUp(w: Whole, c: Spot, path: seq<Pos>, n: nat)
    requires AtLow(w, c, path, n) && c.idx == 0 && c.fs != []
    ensures |path| == |c.fs| + 1 && AtLow(w, Up(c), path[..|path| - 1], n) && Up(c).idx <= |Up(c).t.items|
  {
    LowEmpty(w, c, path, n);
    GoUp(w, c, path);
    assert |path| == |c.fs| + 1;
    hide Standing, Upto, Gap, Flat, Pre, PathOk;
  }

  lemma LowTop(w: Whole, c: Spot, path: seq<Pos>, n: nat)
    requires AtLow(w, c, path, n) && c.idx == 0 && c.fs == []
    ensures n == 0
  {
    LowEmpty(w, c, path, n);
  }

  lemma LowHere(w: Whole, c: Spot, path: seq<Pos>, n: nat)
    requires AtLow(w, c, path, n) && 0 < c.idx <= |c.t.items| && Rep(w.tp, w.maxItems)
    ensures path != [] && n > 0
    ensures On(w, Turned(c, c.idx - 1), path[|path| - 1 := Pos(path[|path| - 1].node, c.idx - 1)], n - 1)
    ensures n - 1 < |w.s| && w.s[n - 1] == c.t.items[c.idx - 1]
    ensures c.idx - 1 < c.t.node.items.Length && c.t.node.items[c.idx - 1] == c.t.items[c.idx - 1]
  {
    Counts(w, c, path);
    Turn(w, c, path, c.idx - 1);
    var d, p := Turned(c, c.idx - 1), path[|path| - 1 := Pos(path[|path| - 1].node, c.idx - 1)];
    RankItem(w, d, p);
    InHand(w, d, p);
    hide Standing, Upto, Gap, Flat, Pre, PathOk;
  }

  lemma RankStart(w: Whole, c: Spot, path: seq<Pos>)
    requires Standing(w, c, path) && c.idx <= |c.t.items|
    ensures AtRank(w, c, path, Rank(c))
  {
  }

  /** To the item in front, or past the beginning. */
  method Prev(path0: seq<Pos>, height: nat, ghost w: Whole, ghost c0: Spot)
    returns (found: bool, item: Item, path: seq<Pos>, ghost c: Spot)
    requires Standing(w, c0, path0) && Rep(w.tp, w.maxItems) && height == w.height <= 32
    requires c0.idx <= |c0.t.items|
    ensures found ==> 0 < Rank(c0) <= |w.s| && On(w, c, path, Rank(c0) - 1) && item == w.s[Rank(c0) - 1]
    ensures !found ==> path == [] && Rank(c0) == 0
  {
    hide *;
    RankStart(w, c0, path0);
    ghost var n := Rank(c0);
    path, c := path0, c0;
    RankFacts(w, c, path, n);
    var pos := path[|path| - 1];
    // descend into the rightmost child of the left child
    while |path| < height
      invariant AtRank(w, c, path, n) && Rep(w.tp, w.maxItems)
      invariant 1 <= |path| == |c.fs| + 1 <= height && w.height == |c.fs| + c.h && path[|path| - 1] == pos == Pos(c.t.node, c.idx)
      invariant c.idx <= |c.t.items|
    {
      RankDown(w, c, path, n);
      var child := pos.node.children[pos.idx];
      ghost var k := c.t.kids[c.idx];
      pos := Pos(child, child.numItems);
      path := path + [pos];
      c := Down(c, |k.items|);
      RankFacts(w, c, path, n);
    }
    RankBottom(w, c, path, n);
    while pos.idx == 0
      invariant AtLow(w, c, path, n) && Rep(w.tp, w.maxItems) && c.idx <= |c.t.items|
      invariant 1 <= |path| == |c.fs| + 1 && path[|path| - 1] == pos == Pos(c.t.node, c.idx)
      decreases |path|
    {
      if |path| == 1 {
        LowTop(w, c, path, n);
        return false, Item(0, 0), [], c;
      }
      LowUp(w, c, path, n);
      path := path[..|path| - 1];
      c := Up(c);
      LowFacts(w, c, path, n);
      pos := path[|path| - 1];
    }
    LowHere(w, c, path, n);
    pos := Pos(pos.node, pos.idx - 1);
    path := path[|path| - 1 := pos];
    c := Turned(c, c.idx - 1);
    found, item := true, pos.node.items[pos.idx];
  }

  // ---------------------------------------------------------------- where to start

  ghost predicate Planted(w: Whole, root: Node, height: nat) {
    w.height == height && root == w.tp.node && 2 <= w.maxItems && Shape(w.tp, height, 1, w.maxItems) &&
    Flat(w.tp) == w.s && Sorted(w.s)
  }

  lemma AtRoot(w: Whole, root: Node, height: nat, idx: nat)
    requires Planted(w, root, height) && idx <= |w.tp.items|
    ensures var c := Spot([], w.tp, idx, height);
      Standing(w, c, [Pos(root, idx)]) && (idx == 0 ==> AtLow(w, c, [Pos(root, 0)], 0)) &&
      (idx == |w.tp.items| ==> AtRank(w, c, [Pos(root, idx)], |w.s|))
    ensures 1 <= height
  {
    var c := Spot([], w.tp, idx, height);
    assert [] + Flat(w.tp) + [] == Flat(w.tp) && [Pos(root, idx)][..0] == [];
    Counts(w, c, [Pos(root, idx)]);
    hide Upto, Gap, Flat, Shape;
  }

  lemma RootCount(w: Whole, root: Node, height: nat)
    requires Planted(w, root, height) && Rep(w.tp, w.maxItems)
    ensures root.numItems == |w.tp.items| && root == w.tp.node && 1 <= height == w.height
  {
  }

  /** At the first item or at the last one. */
  method Start(root: Node, height: nat, rightmost: bool, ghost w: Whole)
    returns (item: Item, path: seq<Pos>, ghost c: Spot)
    requires Planted(w, root, height) && Rep(w.tp, w.maxItems) && height <= 32
    ensures var r := if rightmost then |w.s| - 1 else 0;
      w.s != [] && On(w, c, path, r) && item == w.s[r]
  {
    hide *;
    var node := root;
    RootCount(w, root, height);
    var pos := Pos(node, if rightmost then node.numItems else 0);
    AtRoot(w, root, height, pos.idx);
    path := [pos];
    c := Spot([], w.tp, pos.idx, height);
    ghost var n := if rightmost then |w.s| else 0;
    while |path| < height
      invariant Rep(w.tp, w.maxItems) && (if rightmost then AtRank(w, c, path, n) && c.idx == |c.t.items| else AtLow(w, c, path, n) && c.idx == 0)
      invariant 1 <= |path| == |c.fs| + 1 <= height && w.height == |c.fs| + c.h && path[|path| - 1] == pos == Pos(c.t.node, c.idx)
    {
      if rightmost {
        RankDown(w, c, path, n);
      } else {
        LowDown(w, c, path, n);
        Lengths(c);
      }
      node := pos.node.children[pos.idx];
      pos := Pos(node, if rightmost then node.numItems else 0);
      path := path + [pos];
      c := Down(c, pos.idx);
    }
    if rightmost {
      RankBottom(w, c, path, n);
      LowFacts(w, c, path, n);
      LowHere(w, c, path, n);
      pos := Pos(pos.node, pos.idx - 1);
      path := path[|path| - 1 := pos];
      c := Turned(c, c.idx - 1);
    } else {
      LowBottom(w, c, path, n);
      RankFacts(w, c, path, n);
      RankHere(w, c, path, n);
    }
    item := pos.node.items[pos.idx];
  }

  datatype StartMode = FindKey | LowerBoundInclusive | LowerBoundExclusive | UpperBoundInclusive | UpperBoundExclusive

  /** The first b items, and no others, are smaller than key. */
  ghost predicate BelowCut(s: seq<Item>, key: int, b: nat) {
    b <= |s| && (forall i :: 0 <= i < b ==> s[i].key < key) && forall i :: b <= i < |s| ==> key <= s[i].key
  }

  /** The first b items, and no others, are at most key. */
  ghost predicate AboveCut(s: seq<Item>, key: int, b: nat) {
    b <= |s| && (forall i :: 0 <= i < b ==> s[i].key <= key) && forall i :: b <= i < |s| ==> key < s[i].key
  }

  /** The item r that start_at is to find in each mode: a lower bound is the first item (not) below the key,
      an upper bound the last one. */
  ghost predicate Started(s: seq<Item>, mode: StartMode, key: int, found: bool, r: nat) {
    (found ==> r < |s|) &&
    match mode
    case FindKey => if found then s[r].key == key else Absent(s, key)
    case LowerBoundInclusive => BelowCut(s, key, if found then r else |s|)
    case LowerBoundExclusive => AboveCut(s, key, if found then r else |s|)
    case UpperBoundInclusive => AboveCut(s, key, if found then r + 1 else 0)
    case UpperBoundExclusive => BelowCut(s, key, if found then r + 1 else 0)
  }

  lemma HitCuts(s: seq<Item>, key: int, r: nat)
    requires Sorted(s) && r < |s| && s[r].key == key
    ensures BelowCut(s, key, r) && AboveCut(s, key, r + 1)
  {
  }

  lemma MissCuts(s: seq<Item>, key: int, p: nat)
    requires InsertionPoint(s, key, p)
    ensures BelowCut(s, key, p) && AboveCut(s, key, p) && Absent(s, key) && p <= |s|
  {
    forall i | 0 <= i < |s| ensures if i < p then s[i].key < key else key < s[i].key {
      PointAt(s, key, p, i);
    }
  }

  /** The key was found at r. */
  lemma StartedHit(s: seq<Item>, mode: StartMode, key: int, r: nat)
    requires Sorted(s) && r < |s| && s[r].key == key
    ensures mode in {FindKey, LowerBoundInclusive, UpperBoundInclusive} ==> Started(s, mode, key, true, r)
    ensures mode == LowerBoundExclusive ==> Started(s, mode, key, r + 1 < |s|, r + 1)
    ensures mode == UpperBoundExclusive && 0 < r ==> Started(s, mode, key, true, r - 1)
    ensures mode == UpperBoundExclusive && 0 == r ==> Started(s, mode, key, false, 0)
  {
    HitCuts(s, key, r);
    hide BelowCut, AboveCut, Sorted;
  }

  /** The key is not there; it would have to go to p. */
  lemma StartedMiss(s: seq<Item>, mode: StartMode, key: int, p: nat)
    requires InsertionPoint(s, key, p)
    ensures p <= |s|
    ensures mode == FindKey ==> Started(s, mode, key, false, p)
    ensures mode in {LowerBoundInclusive, LowerBoundExclusive} ==> Started(s, mode, key, p < |s|, p)
    ensures mode in {UpperBoundInclusive, UpperBoundExclusive} && 0 < p ==> Started(s, mode, key, true, p - 1)
    ensures mode in {UpperBoundInclusive, UpperBoundExclusive} && 0 == p ==> Started(s, mode, key, false, 0)
  {
    MissCuts(s, key, p);
    hide BelowCut, AboveCut, InsertionPoint;
  }

  /** The way down to the key, with its path. */
  ghost predicate Closing(w: Whole, c: Spot, path: seq<Pos>, key: int) {
    Standing(w, c, path) && Around(c.fs, c.t, key, w.s)
  }

  lemma ClosingStart(w: Whole, root: Node, height: nat, key: int)
    requires Planted(w, root, height)
    ensures Closing(w, Spot([], w.tp, 0, height), [Pos(root, 0)], key) && 1 <= height == w.height
  {
    AtRoot(w, root, height, 0);
    hide Standing, Shape;
    assert [] + Flat(w.tp) + [] == Flat(w.tp);
  }

  lemma ClosingNode(w: Whole, c: Spot, path: seq<Pos>, key: int)
    requires Closing(w, c, path, key) && Rep(w.tp, w.maxItems)
    ensures c.t.node.Fits() && c.t.node.Items() == c.t.items && c.t.node.numItems == |c.t.items| && Sorted(c.t.items)
    ensures Standing(w, c, path) && Sorted(w.s)
    ensures path != [] && path[|path| - 1] == Pos(c.t.node, c.idx) && |path| == |c.fs| + 1 && w.height == |c.fs| + c.h
  {
    hide Placed, Around;
    SeekNode(w.tp, c.fs, c.t, path[..|c.fs|], c.h, w.s, w.maxItems);
    AroundSorted(c.fs, c.t, key, w.s);
  }

  lemma AroundSorted(fs: seq<Frame>, t: Tree, key: int, s: seq<Item>)
    requires Around(fs, t, key, s)
    ensures Sorted(s)
  {
  }

  lemma ClosingTurn(w: Whole, c: Spot, path: seq<Pos>, key: int, idx: nat)
    requires Closing(w, c, path, key)
    ensures path != [] && Closing(w, Turned(c, idx), path[|path| - 1 := Pos(path[|path| - 1].node, idx)], key)
    ensures Turned(c, idx).idx == idx && Turned(c, idx).t == c.t && Turned(c, idx).h == c.h && Turned(c, idx).fs == c.fs
  {
    Turn(w, c, path, idx);
    hide Standing, Around;
  }

  lemma ClosingDown(w: Whole, c: Spot, path: seq<Pos>, key: int)
    requires Closing(w, c, path, key) && Rep(w.tp, w.maxItems) && 1 < c.h && InsertionPoint(c.t.items, key, c.idx)
    ensures c.idx < |c.t.kids| && c.idx < c.t.node.children.Length && c.t.node.children[c.idx] == c.t.kids[c.idx].node
    ensures Closing(w, Down(c, 0), path + [Pos(c.t.kids[c.idx].node, 0)], key)
  {
    hide Standing, Around;
    PointBound(c.t.items, key, c.idx);
    GoDown(w, c, path, 0);
    RootedKids(w, c, path);
    AroundDown(c.fs, c.t, c.idx, key, w.s);
  }

  lemma ClosingLeaf(w: Whole, c: Spot, path: seq<Pos>, key: int)
    requires Closing(w, c, path, key) && c.h == 1 && InsertionPoint(c.t.items, key, c.idx)
    ensures InsertionPoint(w.s, key, Rank(c)) && c.idx <= |c.t.items| && Standing(w, c, path)
  {
    hide Standing;
    RootedKids(w, c, path);
    assert Flat(c.t) == c.t.items;
    hide Shape, Rebuild, Flat, Pre, Post;
    LeafPoint(Pre(c.fs), c.t.items, Post(c.fs), c.idx, key);
  }

  /** The way down to the key: at the item, or at the place in a leaf where it would go. */
  method Approach(root: Node, height: nat, key: int, linearSearchThreshold: nat, ghost w: Whole)
    returns (hit: bool, path: seq<Pos>, ghost c: Spot)
    requires Planted(w, root, height) && Rep(w.tp, w.maxItems) && height <= 32
    ensures Standing(w, c, path) && c.idx <= |c.t.items| && Sorted(w.s)
    ensures hit ==> c.idx < |c.t.items| && c.t.items[c.idx].key == key
    ensures !hit ==> c.h == 1 && InsertionPoint(w.s, key, Rank(c))
  {
    FootAllocated(w.tp);
    ClosingStart(w, root, height, key);
    RootCount(w, root, height);
    hide *;
    var node := root;
    path, c := [Pos(node, 0)], Spot([], w.tp, 0, height);
    while true
      invariant Closing(w, c, path, key) && Rep(w.tp, w.maxItems) && node == c.t.node && |path| <= height == w.height
      decreases height - |path|
    {
      ClosingNode(w, c, path, key);
      var idx;
      hit, idx := NodeSearch(node, key, linearSearchThreshold);
      ClosingTurn(w, c, path, key, idx);
      path := path[|path| - 1 := Pos(node, idx)];
      c := Turned(c, idx);
      if hit {
        ClosingNode(w, c, path, key);
        return;
      }
      if |path| == height {
        ClosingNode(w, c, path, key);
        ClosingLeaf(w, c, path, key);
        return;
      }
      ClosingDown(w, c, path, key);
      Lengths(c);
      node := node.children[idx];
      path := path + [Pos(node, 0)];
      c := Down(c, 0);
    }
  }

  lemma HitItem(w: Whole, c: Spot, path: seq<Pos>)
    requires Standing(w, c, path) && c.idx < |c.t.items| && Rep(w.tp, w.maxItems)
    ensures On(w, c, path, Rank(c)) && Rank(c) < |w.s| && w.s[Rank(c)] == c.t.items[c.idx]
    ensures c.idx < c.t.node.items.Length && c.t.node.items[c.idx] == c.t.items[c.idx]
    ensures path != [] && path[|path| - 1] == Pos(c.t.node, c.idx)
  {
    RankItem(w, c, path);
    InHand(w, c, path);
  }

  lemma BehindIs(c: Spot)
    ensures Behind(c) == if c.idx < |c.t.items| then Rank(c) + 1 else Rank(c)
  {
  }

  /** The search ended at an item with the key. */
  method StartAtHit(path0: seq<Pos>, height: nat, mode: StartMode, ghost key: int, ghost w: Whole, ghost c0: Spot)
    returns (found: bool, item: Item, path: seq<Pos>, ghost c: Spot, ghost r: nat)
    requires Standing(w, c0, path0) && Rep(w.tp, w.maxItems) && height == w.height <= 32 && Sorted(w.s)
    requires c0.idx < |c0.t.items| && c0.t.items[c0.idx].key == key
    ensures Started(w.s, mode, key, found, r) && (mode == FindKey ==> found)
    ensures found ==> On(w, c, path, r) && r < |w.s| && item == w.s[r]
    ensures !found ==> path == []
  {
    hide *;
    HitItem(w, c0, path0);
    StartedHit(w.s, mode, key, Rank(c0));
    BehindIs(c0);
    if mode == LowerBoundExclusive {
      found, item, path, c := Next(path0, height, w, c0);
      r := Behind(c0);
    } else if mode == UpperBoundExclusive {
      found, item, path, c := Prev(path0, height, w, c0);
      r := if found then Rank(c0) - 1 else 0;
    } else {
      found, path, c, r := true, path0, c0, Rank(c0);
      item := path[|path| - 1].node.items[path[|path| - 1].idx];
    }
  }

  /** The path leads to the place in a leaf where the key would go, with r items in front. */
  ghost predicate Vacant(w: Whole, c: Spot, path: seq<Pos>, key: int, r: nat) {
    Standing(w, c, path) && c.h == 1 && c.idx <= |c.t.items| && Rank(c) == r && InsertionPoint(w.s, key, r)
  }

  lemma FoldVacant(w: Whole, c: Spot, path: seq<Pos>, key: int)
    requires Standing(w, c, path) && c.h == 1 && c.idx <= |c.t.items| && InsertionPoint(w.s, key, Rank(c))
    ensures Vacant(w, c, path, key, Rank(c))
  {
  }

  /** The search ended in a leaf, at the place where the key would go. */
  method StartAtMiss(path0: seq<Pos>, height: nat, mode: StartMode, ghost key: int, ghost w: Whole, ghost c0: Spot)
    returns (found: bool, item: Item, path: seq<Pos>, ghost c: Spot, ghost r: nat)
    requires Standing(w, c0, path0) && Rep(w.tp, w.maxItems) && height == w.height <= 32
    requires c0.idx <= |c0.t.items| && c0.h == 1 && InsertionPoint(w.s, key, Rank(c0))
    ensures Started(w.s, mode, key, found, r)
    ensures found ==> On(w, c, path, r) && r < |w.s| && item == w.s[r]
    ensures !found && mode != FindKey ==> path == []
    ensures !found && mode == FindKey ==> Vacant(w, c, path, key, r)
  {
    hide *;
    FoldVacant(w, c0, path0, key);
    StartedMiss(w.s, mode, key, Rank(c0));
    BehindIs(c0);
    Facts(w, c0, path0);
    match mode {
      case FindKey =>
        found, item, path, c, r := false, Item(0, 0), path0, c0, Rank(c0);
      case LowerBoundInclusive | LowerBoundExclusive =>
        var pos := path0[|path0| - 1];
        if pos.idx == pos.node.numItems {
          found, item, path, c := Next(path0, height, w, c0);
          r := Rank(c0);
        } else {
          HitItem(w, c0, path0);
          found, path, c, r := true, path0, c0, Rank(c0);
          item := pos.node.items[pos.idx];
        }
      case UpperBoundInclusive | UpperBoundExclusive =>
        found, item, path, c := Prev(path0, height, w, c0);
        r := if found then Rank(c0) - 1 else 0;
    }
  }

  /** The exact inclusive or exclusive bound of a key. */
  method StartAt(root: Node, height: nat, key: int, mode: StartMode, linearSearchThreshold: nat, ghost w: Whole)
    returns (found: bool, item: Item, path: seq<Pos>, ghost c: Spot, ghost r: nat)
    requires Planted(w, root, height) && Rep(w.tp, w.maxItems) && height <= 32
    ensures Started(w.s, mode, key, found, r)
    ensures found ==> On(w, c, path, r) && r < |w.s| && item == w.s[r]
    ensures !found && mode != FindKey ==> path == []
    ensures !found && mode == FindKey ==> Vacant(w, c, path, key, r)
  {
    FootAllocated(w.tp);
    RootCount(w, root, height);
    hide *;
    var hit, path0;
    ghost var c0;
    hit, path0, c0 := Approach(root, height, key, linearSearchThreshold, w);
    if hit {
      found, item, path, c, r := StartAtHit(path0, height, mode, key, w, c0);
    } else {
      found, item, path, c, r := StartAtMiss(path0, height, mode, key, w, c0);
    }
  }
}
