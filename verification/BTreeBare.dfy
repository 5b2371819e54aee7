/** Insertion as a textbook has it, on trees that are told apart by their items and their form only. */
module BTreeBare {
  import opened BTreeNode
  import opened BTreeTree
  import opened BTreePath
  import opened BTreeSearch

  /** A tree without the nodes it is stored in. */
  datatype Bare = Bare(items: seq<Item>, kids: seq<Bare>)

  /** An inner node without one of its subtrees. */
  datatype Hole = Hole(items: seq<Item>, left: seq<Bare>, right: seq<Bare>)

  ghost function Strip(t: Tree): Bare
    decreases t, 1
  {
    Bare(t.items, StripK(t.kids))
  }

  ghost function StripK(kids: seq<Tree>): (bs: seq<Bare>)
    ensures |bs| == |kids| && forall i :: 0 <= i < |kids| ==> bs[i] == Strip(kids[i])
    decreases kids, 0
  {
    seq(|kids|, i requires 0 <= i < |kids| => Strip(kids[i]))
  }

  ghost function StripF(f: Frame): Hole {
    Hole(f.items, StripK(f.left), StripK(f.right))
  }

  ghost function Fill(f: Hole, b: Bare): Bare {
    Bare(f.items, f.left + [b] + f.right)
  }

  lemma StripAppend(a: seq<Tree>, b: seq<Tree>)
    ensures StripK(a + b) == StripK(a) + StripK(b)
  {
  }

  lemma StripOne(t: Tree)
    ensures StripK([t]) == [Strip(t)]
  {
  }

  lemma StripPlug(f: Frame, t: Tree)
    ensures Strip(Plug(f, t)) == Fill(StripF(f), Strip(t))
  {
    StripAppend(f.left + [t], f.right);
    StripAppend(f.left, [t]);
    StripOne(t);
  }

  /** The number of items below the key. */
  ghost function Point(items: seq<Item>, key: int): (p: nat)
    ensures p <= |items|
  {
    if items == [] || items[0].key > key then 0 else 1 + Point(items[1..], key)
  }

  lemma {:induction false} PointIs(items: seq<Item>, key: int, idx: nat)
    requires InsertionPoint(items, key, idx)
    ensures Point(items, key) == idx
  {
    if items != [] {
      if idx > 0 {
        assert items[..idx][0] == items[0];
        assert items[1..][..idx - 1] == items[..idx][1..] && items[1..][idx - 1..] == items[idx..];
        PointIs(items[1..], key, idx - 1);
      } else {
        assert items[0..][0] == items[0];
      }
    }
  }

  /** The two halves of an overfull or full node around item m. */
  ghost function Lower(b: Bare, m: nat): Bare
    requires m < |b.items|
  {
    Bare(b.items[..m], if m < |b.kids| then b.kids[..m + 1] else b.kids)
  }

  ghost function Upper(b: Bare, m: nat): Bare
    requires m < |b.items|
  {
    Bare(b.items[m + 1..], if m < |b.kids| then b.kids[m + 1..] else [])
  }

  /** Split parts of a tree are the halves of the tree without nodes. */
  lemma HalvesAre(items: seq<Item>, kids: seq<Tree>, median: Item, l: Tree, r: Tree, m: nat)
    requires l.items + [median] + r.items == items && |l.items| == m && l.kids + r.kids == kids
    requires kids == [] ==> l.kids == [] && r.kids == []
    requires kids != [] ==> |l.kids| == m + 1
    ensures m < |items| && median == items[m]
    ensures Lower(Bare(items, StripK(kids)), m) == Strip(l) && Upper(Bare(items, StripK(kids)), m) == Strip(r)
  {
    var b := Bare(items, StripK(kids));
    assert items[..m] == l.items && items[m + 1..] == r.items;
    StripAppend(l.kids, r.kids);
    assert b.kids == StripK(l.kids) + StripK(r.kids);
  }

  // ---------------------------------------------------------------- even capacity: up from the leaf

  /** What a node becomes when a subtree may have got one item too many. */
  ghost function Raise(f: Hole, c: Bare, maxItems: nat): Bare {
    if |c.items| <= maxItems || |f.left| > |f.items| then Fill(f, c)
    else
      var m := maxItems / 2;
      Bare(Inserted(f.items, |f.left|, c.items[m]), f.left + [Lower(c, m), Upper(c, m)] + f.right)
  }

  /** What the whole tree becomes when its root may have got one item too many. */
  ghost function Crown(c: Bare, maxItems: nat): Bare {
    if |c.items| <= maxItems then c else Bare([c.items[maxItems / 2]], [Lower(c, maxItems / 2), Upper(c, maxItems / 2)])
  }

  /** The subtree with the item, possibly one item too many in its root. */
  ghost function Grow(b: Bare, h: nat, item: Item, maxItems: nat): Bare
    decreases h
  {
    var p := Point(b.items, item.key);
    if h <= 1 || p >= |b.kids| then Bare(Inserted(b.items, p, item), b.kids)
    else Raise(Hole(b.items, b.kids[..p], b.kids[p + 1..]), Grow(b.kids[p], h - 1, item, maxItems), maxItems)
  }

  // ---------------------------------------------------------------- odd capacity: down to the leaf

  /** Insertion below a node with room, when everything on the way below it is full. */
  ghost function Descend(b: Bare, h: nat, item: Item, maxItems: nat): Bare
    decreases h
  {
    var p, m := Point(b.items, item.key), maxItems / 2;
    if h <= 1 || p >= |b.kids| || m >= |b.kids[p].items| then Bare(Inserted(b.items, p, item), b.kids)
    else
      var c := b.kids[p];
      var lower, median, upper := Lower(c, m), c.items[m], Upper(c, m);
      if item.key < median.key then
        Bare(Inserted(b.items, p, median), b.kids[..p] + [Descend(lower, h - 1, item, maxItems), upper] + b.kids[p + 1..])
      else
        Bare(Inserted(b.items, p, median), b.kids[..p] + [lower, Descend(upper, h - 1, item, maxItems)] + b.kids[p + 1..])
  }

  /** All nodes on the way of the key are full. */
  ghost predicate FullWay(b: Bare, h: nat, key: int, maxItems: nat)
    decreases h
  {
    |b.items| == maxItems && (h <= 1 || (Point(b.items, key) < |b.kids| && FullWay(b.kids[Point(b.items, key)], h - 1, key, maxItems)))
  }

  /** Splitting starts at the last node with room. */
  ghost function OddBelow(b: Bare, h: nat, item: Item, maxItems: nat): Bare
    decreases h
  {
    var p := Point(b.items, item.key);
    if h <= 1 || p >= |b.kids| || FullWay(b.kids[p], h - 1, item.key, maxItems) then Descend(b, h, item, maxItems)
    else Bare(b.items, b.kids[p := OddBelow(b.kids[p], h - 1, item, maxItems)])
  }

  // ---------------------------------------------------------------- both

  /** The tree after the insertion of an item whose key is not in it. */
  ghost function InsertedTree(b: Bare, h: nat, item: Item, maxItems: nat): Bare {
    if maxItems % 2 == 0 then Crown(Grow(b, h, item, maxItems), maxItems)
    else if FullWay(b, h, item.key, maxItems) then Descend(Bare([], [b]), h + 1, item, maxItems)
    else OddBelow(b, h, item, maxItems)
  }

  // ---------------------------------------------------------------- what is above a node

  /** The whole tree once a node with enough room has changed. */
  ghost function Put(fs: seq<Frame>, c: Bare): Bare {
    if fs == [] then c else Put(Init(fs), Fill(StripF(Last(fs)), c))
  }

  lemma {:induction false} PutStrip(fs: seq<Frame>, t: Tree)
    ensures Put(fs, Strip(t)) == Strip(Rebuild(fs, t))
  {
    if fs != [] {
      StripPlug(Last(fs), t);
      PutStrip(Init(fs), Plug(Last(fs), t));
    }
  }

  /** The whole tree once a node, possibly with an item too many, has been dealt with on the way up. */
  ghost function Finish(fs: seq<Frame>, c: Bare, maxItems: nat): Bare {
    if fs == [] then Crown(c, maxItems) else Finish(Init(fs), Raise(StripF(Last(fs)), c, maxItems), maxItems)
  }

  /** With room in the node, nothing above it changes. */
  lemma {:induction false} FinishStrip(fs: seq<Frame>, t: Tree, h: nat, maxItems: nat)
    requires ShapeP(fs, h, maxItems) && |t.items| <= maxItems
    ensures Finish(fs, Strip(t), maxItems) == Strip(Rebuild(fs, t))
  {
    if fs != [] {
      StripPlug(Last(fs), t);
      FinishStrip(Init(fs), Plug(Last(fs), t), h + 1, maxItems);
    }
  }

  /** The key's way leads through this frame. */
  ghost predicate AtPoint(f: Frame, key: int) {
    FrameOk(f) && InsertionPoint(f.items, key, |f.left|)
  }

  lemma AtPointIs(f: Frame, t: Tree, key: int)
    requires AtPoint(f, key)
    ensures var b := Strip(Plug(f, t));
      b.items == f.items && Point(b.items, key) == |f.left| < |b.kids| && b.kids[|f.left|] == Strip(t)
    ensures var b := Strip(Plug(f, t));
      StripF(f) == Hole(b.items, b.kids[..|f.left|], b.kids[|f.left| + 1..])
  {
    PointIs(f.items, key, |f.left|);
    StripPlug(f, t);
  }

  /** The key's way leads through all of these frames. */
  ghost predicate OnWay(fs: seq<Frame>, key: int) {
    forall j :: 0 <= j < |fs| ==> AtPoint(fs[j], key)
  }

  lemma WayOpen(fs: seq<Frame>, t: Tree, key: int)
    requires OnWay(fs, key)
    ensures fs == [] ==> Rebuild(fs, t) == t
    ensures fs != [] ==> AtPoint(Last(fs), key) && OnWay(Init(fs), key) && |Init(fs)| == |fs| - 1
    ensures fs != [] ==> Rebuild(fs, t) == Rebuild(Init(fs), Plug(Last(fs), t))
  {
    hide AtPoint;
  }

  lemma FinishOpen(fs: seq<Frame>, c: Bare, maxItems: nat)
    ensures Finish(fs, c, maxItems) ==
      if fs == [] then Crown(c, maxItems) else Finish(Init(fs), Raise(StripF(Last(fs)), c, maxItems), maxItems)
  {
  }

  lemma PutOpen(fs: seq<Frame>, c: Bare)
    ensures Put(fs, c) == if fs == [] then c else Put(Init(fs), Fill(StripF(Last(fs)), c))
  {
  }

  lemma RaiseUp(f: Frame, t: Tree, h: nat, item: Item, maxItems: nat)
    requires h >= 1 && AtPoint(f, item.key)
    ensures Grow(Strip(Plug(f, t)), h + 1, item, maxItems) == Raise(StripF(f), Grow(Strip(t), h, item, maxItems), maxItems)
  {
    AtPointIs(f, t, item.key);
    hide Raise, Strip, StripF, AtPoint;
  }

  lemma {:induction false} GrowUp(fs: seq<Frame>, t: Tree, h: nat, item: Item, maxItems: nat)
    requires h >= 1 && OnWay(fs, item.key)
    ensures Finish(fs, Grow(Strip(t), h, item, maxItems), maxItems) ==
      Crown(Grow(Strip(Rebuild(fs, t)), h + |fs|, item, maxItems), maxItems)
    decreases |fs|
  {
    hide *;
    WayOpen(fs, t, item.key);
    FinishOpen(fs, Grow(Strip(t), h, item, maxItems), maxItems);
    if fs != [] {
      RaiseUp(Last(fs), t, h, item, maxItems);
      GrowUp(Init(fs), Plug(Last(fs), t), h + 1, item, maxItems);
    }
  }

  lemma PutUp(f: Frame, t: Tree, h: nat, item: Item, maxItems: nat)
    requires h >= 1 && AtPoint(f, item.key) && !FullWay(Strip(t), h, item.key, maxItems)
    ensures Fill(StripF(f), OddBelow(Strip(t), h, item, maxItems)) == OddBelow(Strip(Plug(f, t)), h + 1, item, maxItems)
    ensures !FullWay(Strip(Plug(f, t)), h + 1, item.key, maxItems)
  {
    AtPointIs(f, t, item.key);
    var b := Strip(Plug(f, t));
    hide StripF, Strip, StripK, Descend;
    var p := |f.left|;
    assert b.kids[p := OddBelow(Strip(t), h, item, maxItems)] == b.kids[..p] + [OddBelow(Strip(t), h, item, maxItems)] + b.kids[p + 1..];
  }

  lemma {:induction false} OddUp(fs: seq<Frame>, t: Tree, h: nat, item: Item, maxItems: nat)
    requires h >= 1 && OnWay(fs, item.key) && !FullWay(Strip(t), h, item.key, maxItems)
    ensures Put(fs, OddBelow(Strip(t), h, item, maxItems)) == OddBelow(Strip(Rebuild(fs, t)), h + |fs|, item, maxItems)
    ensures !FullWay(Strip(Rebuild(fs, t)), h + |fs|, item.key, maxItems)
    decreases |fs|
  {
    hide *;
    WayOpen(fs, t, item.key);
    PutOpen(fs, OddBelow(Strip(t), h, item, maxItems));
    if fs != [] {
      PutUp(Last(fs), t, h, item, maxItems);
      OddUp(Init(fs), Plug(Last(fs), t), h + 1, item, maxItems);
    }
  }
}
