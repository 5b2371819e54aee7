/** Insertion: the way down, the overwrite of an item already there, and both ways of making room. */
module BTreeInsert {
  import opened BTreeNode
  import opened BTreeTree
  import opened BTreePath
  import opened BTreeSearch
  import opened BTreeClimb
  import opened BTreeInsertEven
  import opened BTreeInsertOdd
  import opened BTreeWalk
  import opened BTreeGrow
  import opened BTreeBare

  /** A root node in memory with the items s in its tree; only a brand-new root may be empty (lo == 0). */
  ghost predicate Loaded(root: Node, height: nat, tp: Tree, s: seq<Item>, lo: nat, maxItems: nat)
    reads Foot(tp)
  {
    2 <= maxItems && lo <= 1 && (lo == 0 ==> height == 1) && root == tp.node && Rep(tp, maxItems) &&
    Shape(tp, height, lo, maxItems) && Flat(tp) == s && Sorted(s)
  }

  lemma LoadedTracking(root: Node, height: nat, tp: Tree, s: seq<Item>, lo: nat, maxItems: nat, key: int)
    requires Loaded(root, height, tp, s, lo, maxItems)
    ensures Tracking(tp, [], tp, [], 0, key, height, s, lo, maxItems)
    ensures 2 <= maxItems && 1 <= height && Rep(tp, maxItems) && root == tp.node
  {
    TrackStart(tp, key, height, s, lo, maxItems);
  }

  /** The path that insertion starts from: it ends at a leaf with the insertion point. */
  ghost predicate Arrived(tp: Tree, fs: seq<Frame>, t: Tree, path: seq<Pos>, d: nat, item: Item, idx: nat, lastNonfull: nat,
                          height: nat, s: seq<Item>, lo: nat, maxItems: nat)
  {
    Tracking(tp, fs, t, path, d, item.key, 1, s, lo, maxItems) && InsertionPoint(t.items, item.key, idx) &&
    |fs| + 1 == height == |path| && path[|fs|] == Pos(t.node, idx) &&
    lastNonfull == if |t.items| < maxItems then |fs| + 1 else d
  }

  lemma ArrivedPoint(tp: Tree, fs: seq<Frame>, t: Tree, path: seq<Pos>, d: nat, item: Item, idx: nat, lastNonfull: nat,
                     height: nat, s: seq<Item>, lo: nat, maxItems: nat)
    returns (p: nat)
    requires Arrived(tp, fs, t, path, d, item, idx, lastNonfull, height, s, lo, maxItems)
    ensures InsertionPoint(s, item.key, p) && p <= |s|
  {
    p := |Pre(fs)| + idx;
    PointOfLeaf(tp, fs, t, idx, item.key, s, lo, maxItems);
  }

  /** The start of bottom-up insertion. */
  lemma ArrivedEven(tp: Tree, fs: seq<Frame>, t: Tree, path: seq<Pos>, d: nat, item: Item, idx: nat, lastNonfull: nat,
                    height: nat, s: seq<Item>, lo: nat, maxItems: nat, p: nat)
    requires Arrived(tp, fs, t, path, d, item, idx, lastNonfull, height, s, lo, maxItems)
    requires InsertionPoint(s, item.key, p) && Rep(tp, maxItems)
    ensures p <= |s| && Climbing(fs, t, idx, item, [], 1, Inserted(s, p, item), maxItems)
    ensures InMemory(fs, t, [], maxItems) && Touched(fs, t, []) == Foot(tp)
    ensures PathMatches(path, fs) && Rebuild(fs, t) == tp
  {
    StartEven(tp, fs, t, idx, item, s, p, lo, maxItems);
    WalkMemory(tp, fs, t, maxItems);
  }

  /** The start of top-down insertion. */
  lemma ArrivedOdd(tp: Tree, fs: seq<Frame>, t: Tree, path: seq<Pos>, d: nat, item: Item, idx: nat, lastNonfull: nat,
                   height: nat, s: seq<Item>, lo: nat, maxItems: nat)
    returns (gs: seq<Frame>, g: Tree)
    requires Arrived(tp, fs, t, path, d, item, idx, lastNonfull, height, s, lo, maxItems)
    requires Rep(tp, maxItems) && maxItems % 2 == 1
    ensures Recorded(path, lastNonfull, gs, g, tp.node, item.key, s, maxItems)
    ensures InMemory(gs, g, [], maxItems) && Touched(gs, g, []) == Foot(tp)
    ensures Rebuild(gs, g) == tp && OnTrack(gs, item.key)
  {
    if |t.items| < maxItems {
      gs, g := fs, t;
      StartAtLeaf(tp, fs, t, path, idx, item.key, s, lo, maxItems);
    } else {
      ArrivedFull(tp, fs, t, path, d, item, idx, lastNonfull, height, s, lo, maxItems);
      gs, g := StartOdd(tp, fs, t, path, |fs|, d, item.key, 1, s, maxItems);
    }
    WalkMemory(tp, gs, g, maxItems);
  }

  lemma ArrivedFull(tp: Tree, fs: seq<Frame>, t: Tree, path: seq<Pos>, d: nat, item: Item, idx: nat, lastNonfull: nat,
                    height: nat, s: seq<Item>, lo: nat, maxItems: nat)
    requires Arrived(tp, fs, t, path, d, item, idx, lastNonfull, height, s, lo, maxItems)
    requires maxItems % 2 == 1 && |t.items| == maxItems
    ensures Followed(tp, fs, t, path, |fs|, d, item.key, 1, s, maxItems)
  {
    FullLeaf(t, path, |fs|, idx, item.key, maxItems);
  }

  // ---------------------------------------------------------------- the tree that results

  lemma TrackIsWay(fs: seq<Frame>, key: int)
    requires OnTrack(fs, key)
    ensures OnWay(fs, key)
  {
  }

  /** Bottom-up insertion is what the textbook has. */
  lemma EvenIs(tp: Tree, fs: seq<Frame>, t: Tree, path: seq<Pos>, d: nat, item: Item, idx: nat, lastNonfull: nat,
               height: nat, s: seq<Item>, lo: nat, maxItems: nat)
    requires Arrived(tp, fs, t, path, d, item, idx, lastNonfull, height, s, lo, maxItems) && maxItems % 2 == 0
    ensures Finish(fs, Strip(TakenIn(t, idx, item, [])), maxItems) == InsertedTree(Strip(tp), height, item, maxItems)
  {
    TrackIsWay(fs, item.key);
    PointIs(t.items, item.key, idx);
    assert Strip(TakenIn(t, idx, item, [])) == Grow(Strip(t), 1, item, maxItems);
    hide Grow, Finish, Crown, Strip, OnWay, TakenIn;
    GrowUp(fs, t, 1, item, maxItems);
  }

  lemma {:induction false} FullIs(c: Tree, steps: seq<Pos>, key: int, maxItems: nat)
    requires FullBelow(c, steps, key, maxItems)
    ensures FullWay(Strip(c), |steps|, key, maxItems)
    decreases |steps|
  {
    PointIs(c.items, key, steps[0].idx);
    if |steps| > 1 {
      FullIs(c.kids[steps[0].idx], steps[1..], key, maxItems);
    }
  }

  /** Where the splitting starts. */
  lemma StartIs(fs: seq<Frame>, t: Tree, idx: nat, steps: seq<Pos>, item: Item, h: nat, s: seq<Item>, maxItems: nat)
    requires Descending(fs, t, idx, steps, item.key, h, s, maxItems)
    ensures 1 <= h && !FullWay(Strip(t), h, item.key, maxItems)
    ensures OddBelow(Strip(t), h, item, maxItems) == Descend(Strip(t), h, item, maxItems)
  {
    PointIs(t.items, item.key, idx);
    if h > 1 {
      FullIs(t.kids[idx], steps, item.key, maxItems);
    }
    hide Descend;
  }

  lemma FullRootIs(path: seq<Pos>, t: Tree, root: Node, item: Item, s: seq<Item>, maxItems: nat)
    requires Recorded(path, 0, [], t, root, item.key, s, maxItems)
    ensures maxItems % 2 == 1
    ensures InsertedTree(Strip(t), |path|, item, maxItems) == Descend(Bare([], [Strip(t)]), |path| + 1, item, maxItems)
  {
    FullIs(t, path, item.key, maxItems);
    hide Descend;
  }

  lemma RecordedParts(path: seq<Pos>, lastNonfull: nat, fs: seq<Frame>, t: Tree, root: Node, key: int, s: seq<Item>, maxItems: nat)
    requires Recorded(path, lastNonfull, fs, t, root, key, s, maxItems)
    ensures maxItems % 2 == 1 && lastNonfull <= |path| && (lastNonfull == 0 ==> fs == [])
    ensures lastNonfull > 0 ==> |fs| == lastNonfull - 1
    ensures lastNonfull > 0 ==>
      Descending(fs, t, path[lastNonfull - 1].idx, path[lastNonfull..], key, |path| - lastNonfull + 1, s, maxItems)
  {
  }

  lemma OddTree(b: Bare, h: nat, item: Item, maxItems: nat)
    requires maxItems % 2 == 1 && !FullWay(b, h, item.key, maxItems)
    ensures InsertedTree(b, h, item, maxItems) == OddBelow(b, h, item, maxItems)
  {
  }

  /** Top-down insertion is what the textbook has. */
  lemma OddIs(path: seq<Pos>, lastNonfull: nat, tp: Tree, fs: seq<Frame>, t: Tree, item: Item, s: seq<Item>, maxItems: nat)
    requires Recorded(path, lastNonfull, fs, t, tp.node, item.key, s, maxItems) && Rebuild(fs, t) == tp && OnTrack(fs, item.key)
    ensures lastNonfull <= |path|
    ensures InsertedTree(Strip(tp), |path|, item, maxItems) ==
      if lastNonfull == 0 then Descend(Bare([], [Strip(t)]), |path| + 1, item, maxItems)
      else Onward(fs, t, |path| - lastNonfull + 1, item, maxItems)
  {
    hide *;
    RecordedParts(path, lastNonfull, fs, t, tp.node, item.key, s, maxItems);
    if lastNonfull == 0 {
      FullRootIs(path, t, tp.node, item, s, maxItems);
      RootedAt(t);
    } else {
      var h := |path| - lastNonfull + 1;
      TrackIsWay(fs, item.key);
      StartIs(fs, t, path[lastNonfull - 1].idx, path[lastNonfull..], item, h, s, maxItems);
      OddUp(fs, t, h, item, maxItems);
      OddTree(Strip(tp), |path|, item, maxItems);
      OnwardIs(fs, t, h, item, maxItems);
    }
  }

  /** Makes room in the way the parity of the capacity asks for. */
  method InsertAndRebalance(root: Node, item: Item, idx: nat, node: Node, path: seq<Pos>, depth: nat, lastNonfull: nat,
                            maxItems: nat, ghost tp: Tree, ghost fs: seq<Frame>, ghost t: Tree, ghost d: nat,
                            ghost s: seq<Item>, ghost lo: nat)
    returns (newRoot: Node, grown: bool, ghost q: Tree, ghost p: nat, ghost news: set<object>)
    requires Arrived(tp, fs, t, path, d, item, idx, lastNonfull, depth, s, lo, maxItems) && Rep(tp, maxItems)
    requires root == tp.node && node == t.node && 2 <= maxItems
    modifies Foot(tp)
    ensures newRoot == q.node && (!grown ==> newRoot == root)
    ensures Rep(q, maxItems) && Shape(q, if grown then depth + 1 else depth, 1, maxItems)
    ensures InsertionPoint(s, item.key, p) && p <= |s| && Flat(q) == Inserted(s, p, item)
    ensures fresh(news) && Foot(q) <= Foot(tp) + news
    ensures Strip(q) == InsertedTree(Strip(tp), depth, item, maxItems)
  {
    assert |fs| + 1 == depth == |path| && path[|fs|] == Pos(node, idx);
    p := ArrivedPoint(tp, fs, t, path, d, item, idx, lastNonfull, depth, s, lo, maxItems);
    hide *;
    if maxItems % 2 == 1 {
      ghost var gs, g := ArrivedOdd(tp, fs, t, path, d, item, idx, lastNonfull, depth, s, lo, maxItems);
      OddIs(path, lastNonfull, tp, gs, g, item, s, maxItems);
      newRoot, grown, q, news :=
        InsertAndRebalanceOdd(root, item, idx, node, path, depth, lastNonfull, maxItems, gs, g, s, p, Foot(tp));
    } else {
      ArrivedEven(tp, fs, t, path, d, item, idx, lastNonfull, depth, s, lo, maxItems, p);
      EvenIs(tp, fs, t, path, d, item, idx, lastNonfull, depth, s, lo, maxItems);
      newRoot, grown, q, news :=
        InsertAndRebalanceEven(root, item, idx, node, path, depth, maxItems, fs, t, Inserted(s, p, item), Foot(tp));
    }
  }

  ghost function Overwritten(t: Tree, idx: nat, item: Item): Tree
    requires idx < |t.items|
  {
    Tree(t.node, t.items[idx := item], t.kids)
  }

  /** Where item idx of the subtree t stands among all items. */
  lemma Position(fs: seq<Frame>, t: Tree, idx: nat, item: Item, s: seq<Item>) returns (at: nat)
    requires PathOk(fs) && Pre(fs) + Flat(t) + Post(fs) == s
    requires idx < |t.items| && (t.kids == [] || |t.kids| == |t.items| + 1)
    ensures at < |s| && s[at] == t.items[idx]
    ensures Flat(Rebuild(fs, Overwritten(t, idx, item))) == s[at := item]
  {
    var u := Overwritten(t, idx, item);
    FlatAt(t, idx);
    FlatUpdate(t, idx, item);
    RebuildFlat(fs, u);
    hide Flat, Pre, Post, LeftOf, RightOf;
    at := |Pre(fs)| + |LeftOf(t, idx)|;
    Middle(Pre(fs), LeftOf(t, idx), t.items[idx], item, RightOf(t, idx), Post(fs));
  }

  lemma Middle<T>(a: seq<T>, l: seq<T>, x: T, y: T, r: seq<T>, b: seq<T>)
    ensures var s := a + (l + [x] + r) + b;
      s[|a| + |l|] == x && a + (l + [y] + r) + b == s[|a| + |l| := y]
  {
  }

  lemma OverwrittenShape(tp: Tree, fs: seq<Frame>, t: Tree, path: seq<Pos>, d: nat, key: int, h: nat, s: seq<Item>,
                         lo: nat, maxItems: nat, idx: nat, item: Item, height: nat)
    requires Tracking(tp, fs, t, path, d, key, h, s, lo, maxItems) && idx < |t.items| && h + |fs| == height
    ensures Shape(Rebuild(fs, Overwritten(t, idx, item)), height, 1, maxItems)
  {
    RebuildShape(fs, Overwritten(t, idx, item), h, maxItems);
  }

  /** The item in place is overwritten by one with the same key. */
  method Overwrite(node: Node, idx: nat, item: Item, ghost tp: Tree, ghost fs: seq<Frame>, ghost t: Tree,
                   ghost path: seq<Pos>, ghost d: nat, ghost h: nat, ghost height: nat, ghost s: seq<Item>, ghost lo: nat,
                   ghost maxItems: nat)
    returns (ghost q: Tree, ghost at: nat)
    requires Tracking(tp, fs, t, path, d, item.key, h, s, lo, maxItems) && Rep(tp, maxItems) && node == t.node
    requires idx < |t.items| && h + |fs| == height
    modifies Foot(tp)
    ensures q.node == tp.node && Rep(q, maxItems) && Foot(q) == Foot(tp)
    ensures Shape(q, height, 1, maxItems)
    ensures at < |s| && s[at] == t.items[idx] && Flat(q) == s[at := item]
  {
    WalkMemory(tp, fs, t, maxItems);
    hide *;
    ghost var u := Overwritten(t, idx, item);
    OverwriteFacts(tp, fs, t, path, d, h, s, lo, maxItems, idx, item);
    at := Position(fs, t, idx, item, s);
    OverwrittenShape(tp, fs, t, path, d, item.key, h, s, lo, maxItems, idx, item, height);
    SetItem(node, idx, item, fs, t, maxItems);
    q := Rebuild(fs, u);
    RebuildRep(fs, u, maxItems);
  }

  lemma OverwriteFacts(tp: Tree, fs: seq<Frame>, t: Tree, path: seq<Pos>, d: nat, h: nat, s: seq<Item>, lo: nat,
                       maxItems: nat, idx: nat, item: Item)
    requires Tracking(tp, fs, t, path, d, item.key, h, s, lo, maxItems) && idx < |t.items|
    requires Touched(fs, t, []) == Foot(tp)
    ensures Rebuild(fs, Overwritten(t, idx, item)).node == tp.node && PathOk(fs)
    ensures Pre(fs) + Flat(t) + Post(fs) == s && (t.kids == [] || |t.kids| == |t.items| + 1)
    ensures FootP(fs) + Foot(Overwritten(t, idx, item)) == Foot(tp) && t.node.items in Foot(tp)
  {
    RebuildNode(fs, t, Overwritten(t, idx, item));
  }

  method SetItem(node: Node, idx: nat, item: Item, ghost fs: seq<Frame>, ghost t: Tree, ghost maxItems: nat)
    requires RepP(fs, t.node, maxItems) && Rep(t, maxItems) && FootP(fs) !! Foot(t)
    requires node == t.node && idx < |t.items|
    modifies node.items
    ensures var u := Overwritten(t, idx, item);
      RepP(fs, u.node, maxItems) && Rep(u, maxItems) && FootP(fs) !! Foot(u)
  {
    hide RepP, FootP, RepK, FootK;
    node.items[idx] := item;
    assert node.Items() == t.items[idx := item];
  }

  /** What insertion did: nothing or an overwrite if the key was there, otherwise one more item in its place. */
  ghost predicate InsertionDone(s: seq<Item>, item: Item, update: bool, inserted: bool, at: nat, s1: seq<Item>) {
    if inserted then InsertionPoint(s, item.key, at) && s1 == Inserted(s, at, item)
    else at < |s| && s[at].key == item.key && s1 == if update then s[at := item] else s
  }

  lemma FoundAt(tp: Tree, fs: seq<Frame>, t: Tree, path: seq<Pos>, d: nat, key: int, idx: nat, h: nat, height: nat,
                s: seq<Item>, lo: nat, maxItems: nat)
    returns (at: nat)
    requires Tracking(tp, fs, t, path, d, key, h, s, lo, maxItems) && idx < |t.items| && h + |fs| == height
    ensures at < |s| && s[at] == t.items[idx] && Flat(tp) == s && Shape(tp, height, 1, maxItems)
  {
    at := Position(fs, t, idx, t.items[idx], s);
    RebuildFlat(fs, t);
    RebuildShape(fs, t, h, maxItems);
  }

  lemma FoldArrived(tp: Tree, fs: seq<Frame>, t: Tree, path: seq<Pos>, d: nat, item: Item, idx: nat, lastNonfull: nat,
                    height: nat, s: seq<Item>, lo: nat, maxItems: nat)
    requires Tracking(tp, fs, t, path, d, item.key, 1, s, lo, maxItems) && InsertionPoint(t.items, item.key, idx)
    requires |fs| + 1 == height == |path| && path[|fs|] == Pos(t.node, idx)
    requires lastNonfull == if |t.items| < maxItems then |fs| + 1 else d
    ensures Arrived(tp, fs, t, path, d, item, idx, lastNonfull, height, s, lo, maxItems)
  {
  }

  lemma FoldDone(s: seq<Item>, item: Item, update: bool, inserted: bool, at: nat, s1: seq<Item>)
    requires if inserted then at <= |s| && InsertionPoint(s, item.key, at) && s1 == Inserted(s, at, item)
             else at < |s| && s[at].key == item.key && s1 == if update then s[at := item] else s
    ensures InsertionDone(s, item, update, inserted, at, s1)
  {
  }

  method InsertItem(root: Node, height: nat, item: Item, update: bool, linearSearchThreshold: nat, maxItems: nat,
                    ghost tp: Tree, ghost s: seq<Item>, ghost lo: nat)
    returns (inserted: bool, newRoot: Node, grown: bool, ghost q: Tree, ghost at: nat, ghost news: set<object>)
    requires Loaded(root, height, tp, s, lo, maxItems) && height <= 32
    modifies Foot(tp)
    ensures newRoot == q.node && (grown ==> inserted) && (inserted ==> at <= |s|)
    ensures Rep(q, maxItems) && Shape(q, if grown then height + 1 else height, 1, maxItems)
    ensures InsertionDone(s, item, update, inserted, at, Flat(q))
    ensures fresh(news) && Foot(q) <= Foot(tp) + news
    ensures inserted ==> Strip(q) == InsertedTree(Strip(tp), height, item, maxItems)
  {
    LoadedTracking(root, height, tp, s, lo, maxItems, item.key);
    FootAllocated(tp);
    hide *;
    var found, idx, node, path, lastNonfull, fs, t, d, h :=
      WalkTo(root, height, item.key, linearSearchThreshold, maxItems, tp, s, lo);
    news := {};
    if found {
      inserted, newRoot, grown, q := false, root, false, tp;
      at := FoundAt(tp, fs, t, path, d, item.key, idx, h, height, s, lo, maxItems);
      if update {
        q, at := Overwrite(node, idx, item, tp, fs, t, path, d, h, height, s, lo, maxItems);
      }
      FoldDone(s, item, update, false, at, Flat(q));
    } else {
      FoldArrived(tp, fs, t, path, d, item, idx, lastNonfull, height, s, lo, maxItems);
      newRoot, grown, q, at, news := InsertAndRebalance(root, item, idx, node, path, height, lastNonfull, maxItems,
                                                        tp, fs, t, d, s, lo);
      inserted := true;
      FoldDone(s, item, update, true, at, Flat(q));
    }
  }

  /** Insertion that first tries the right edge of the tree. */
  method InsertItemSequential(root: Node, height: nat, item: Item, linearSearchThreshold: nat, maxItems: nat,
                              ghost tp: Tree, ghost s: seq<Item>)
    returns (inserted: bool, newRoot: Node, grown: bool, ghost q: Tree, ghost at: nat, ghost news: set<object>)
    requires Loaded(root, height, tp, s, 1, maxItems) && height <= 32
    modifies Foot(tp)
    ensures newRoot == q.node && (grown ==> inserted) && (inserted ==> at <= |s|)
    ensures Rep(q, maxItems) && Shape(q, if grown then height + 1 else height, 1, maxItems)
    ensures InsertionDone(s, item, false, inserted, at, Flat(q))
    ensures fresh(news) && Foot(q) <= Foot(tp) + news
    ensures inserted ==> Strip(q) == InsertedTree(Strip(tp), height, item, maxItems)
  {
    LoadedTracking(root, height, tp, s, 1, maxItems, item.key);
    FootAllocated(tp);
    hide *;
    var greatest, idx, node, path, lastNonfull, fs, t, d := WalkRight(root, height, item.key, maxItems, tp, s);
    if !greatest {
      inserted, newRoot, grown, q, at, news := InsertItem(root, height, item, false, linearSearchThreshold, maxItems, tp, s, 1);
    } else {
      FoldArrived(tp, fs, t, path, d, item, idx, lastNonfull, height, s, 1, maxItems);
      newRoot, grown, q, at, news := InsertAndRebalance(root, item, idx, node, path, height, lastNonfull, maxItems,
                                                        tp, fs, t, d, s, 1);
      inserted := true;
      FoldDone(s, item, false, true, at, Flat(q));
    }
  }
}
