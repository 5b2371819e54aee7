/** Top-down insertion, used when the capacity is odd: from the last node with room on the way down,
    every full node below it is split before it is entered. */
module BTreeInsertOdd {
  import opened BTreeNode
  import opened BTreeTree
  import opened BTreePath
  import opened BTreeGrow
  import opened BTreeSearch
  import opened BTreeClimb
  import opened BTreeSplitChild
  import opened BTreeBare

  /** The recorded steps lead from c to a leaf, through full nodes only, and each step is the key's
      insertion point. */
  ghost predicate FullBelow(c: Tree, steps: seq<Pos>, key: int, maxItems: nat)
    decreases |steps|
  {
    steps != [] && steps[0].node == c.node && |c.items| == maxItems && InsertionPoint(c.items, key, steps[0].idx) &&
    if |steps| == 1 then c.kids == []
    else |c.kids| == |c.items| + 1 && FullBelow(c.kids[steps[0].idx], steps[1..], key, maxItems)
  }

  /** Where the descent stands: t has room, its subtree idx is the next full node to be split. */
  ghost predicate Descending(fs: seq<Frame>, t: Tree, idx: nat, steps: seq<Pos>, key: int, h: nat, s: seq<Item>, maxItems: nat) {
    2 <= maxItems && maxItems % 2 == 1 && Around(fs, t, key, s) && ShapeP(fs, h, maxItems) &&
    Shape(t, h, if fs == [] then 0 else maxItems / 2, maxItems) && |t.items| < maxItems &&
    InsertionPoint(t.items, key, idx) && |steps| == h - 1 &&
    (h > 1 ==> |t.kids| == |t.items| + 1 && FullBelow(t.kids[idx], steps, key, maxItems))
  }

  /** The two halves of the full child on the way. */
  ghost predicate Split(c: Tree, median: Item, l: Tree, r: Tree, maxItems: nat) {
    l.items + [median] + r.items == c.items && |l.items| == |r.items| == maxItems / 2 &&
    l.kids + r.kids == c.kids && l.node == c.node &&
    (c.kids == [] ==> l.kids == [] && r.kids == []) &&
    (c.kids != [] ==> |l.kids| == |r.kids| == maxItems / 2 + 1)
  }

  /** The half in which the descent goes on, and the insertion point there. */
  lemma LeftHalf(c: Tree, median: Item, l: Tree, r: Tree, steps: seq<Pos>, key: int, maxItems: nat)
    requires FullBelow(c, steps, key, maxItems) && Split(c, median, l, r, maxItems) && key < median.key
    ensures InsertionPoint(l.items, key, steps[0].idx)
    ensures |steps| > 1 ==> |l.kids| == |l.items| + 1 && FullBelow(l.kids[steps[0].idx], steps[1..], key, maxItems)
  {
    var k, m := steps[0].idx, maxItems / 2;
    assert c.items[m] == median;
    PointAt(c.items, key, k, m);
    assert l.items[..k] == c.items[..k] && l.items[k..] == c.items[k..][..m - k];
    if |steps| > 1 {
      assert l.kids[k] == c.kids[k];
    }
  }

  lemma RightHalf(c: Tree, median: Item, l: Tree, r: Tree, steps: seq<Pos>, key: int, maxItems: nat)
    requires FullBelow(c, steps, key, maxItems) && Split(c, median, l, r, maxItems) && median.key <= key
    ensures maxItems / 2 + 1 <= steps[0].idx && median.key < key
    ensures InsertionPoint(r.items, key, steps[0].idx - maxItems / 2 - 1)
    ensures |steps| > 1 ==>
      |r.kids| == |r.items| + 1 && FullBelow(r.kids[steps[0].idx - maxItems / 2 - 1], steps[1..], key, maxItems)
  {
    var k, m := steps[0].idx, maxItems / 2;
    assert c.items[m] == median;
    PointAt(c.items, key, k, m);
    assert r.items[k - m - 1..] == c.items[k..] && r.items[..k - m - 1] == c.items[..k][m + 1..];
    if |steps| > 1 {
      assert r.kids[k - m - 1] == c.kids[k];
    }
  }

  /** After the split the node reads the same, has one item more and is a proper tree. */
  lemma SplitNode(fs: seq<Frame>, t: Tree, idx: nat, steps: seq<Pos>, key: int, h: nat, s: seq<Item>, maxItems: nat,
                  median: Item, l: Tree, r: Tree)
    requires Descending(fs, t, idx, steps, key, h, s, maxItems) && 1 < h
    requires Split(t.kids[idx], median, l, r, maxItems)
    ensures Around(fs, AfterSplit(t, idx, median, l, r), key, s)
    ensures Shape(AfterSplit(t, idx, median, l, r), h, RootMin(|fs|, maxItems), maxItems)
    ensures Shape(l, h - 1, maxItems / 2, maxItems) && Shape(r, h - 1, maxItems / 2, maxItems)
  {
    AfterSplitFlat(t, idx, median, l, r);
    AfterSplitShape(t, idx, median, l, r, h - 1, maxItems);
    var q := AfterSplit(t, idx, median, l, r);
    assert q.kids[idx] == l && q.kids[idx + 1] == r;
  }

  lemma GoLeft(fs: seq<Frame>, t: Tree, idx: nat, steps: seq<Pos>, key: int, h: nat, s: seq<Item>, maxItems: nat,
               median: Item, l: Tree, r: Tree)
    requires Descending(fs, t, idx, steps, key, h, s, maxItems) && 1 < h
    requires Split(t.kids[idx], median, l, r, maxItems) && key < median.key
    ensures Descending(Deeper(fs, AfterSplit(t, idx, median, l, r), idx), l, steps[0].idx, steps[1..], key, h - 1, s, maxItems)
  {
    var q := AfterSplit(t, idx, median, l, r);
    SplitNode(fs, t, idx, steps, key, h, s, maxItems, median, l, r);
    LeftHalf(t.kids[idx], median, l, r, steps, key, maxItems);
    assert q.kids[idx] == l;
    assert q.items[..idx] == t.items[..idx] && q.items[idx..] == [median] + t.items[idx..];
    AroundDown(fs, q, idx, key, s);
    PushShape(fs, q, idx, h, maxItems);
  }

  lemma GoRight(fs: seq<Frame>, t: Tree, idx: nat, steps: seq<Pos>, key: int, h: nat, s: seq<Item>, maxItems: nat,
                median: Item, l: Tree, r: Tree)
    requires Descending(fs, t, idx, steps, key, h, s, maxItems) && 1 < h
    requires Split(t.kids[idx], median, l, r, maxItems) && median.key <= key
    ensures maxItems / 2 + 1 <= steps[0].idx
    ensures Descending(Deeper(fs, AfterSplit(t, idx, median, l, r), idx + 1), r, steps[0].idx - maxItems / 2 - 1,
                       steps[1..], key, h - 1, s, maxItems)
  {
    var q := AfterSplit(t, idx, median, l, r);
    SplitNode(fs, t, idx, steps, key, h, s, maxItems, median, l, r);
    RightHalf(t.kids[idx], median, l, r, steps, key, maxItems);
    assert q.kids[idx + 1] == r;
    assert q.items[..idx + 1] == t.items[..idx] + [median] && q.items[idx + 1..] == t.items[idx..];
    AroundDown(fs, q, idx + 1, key, s);
    PushShape(fs, q, idx + 1, h, maxItems);
  }

  /** The child on the way is split; what is above the node stays as it is. */
  method SplitHere(node: Node, idx: nat, leaf: bool, ghost maxItems: nat, ghost fs: seq<Frame>, ghost t: Tree)
    returns (median: Item, right: Node, ghost l: Tree, ghost r: Tree)
    requires InMemory(fs, t, [], maxItems) && t.node == node && idx < |t.kids| && idx <= |t.items| < maxItems
    requires |t.kids[idx].items| == maxItems && maxItems % 2 == 1 && (leaf <==> t.kids[idx].kids == [])
    modifies Foot(t)
    ensures fresh(Own(right)) && Split(t.kids[idx], median, l, r, maxItems)
    ensures InMemory(fs, AfterSplit(t, idx, median, l, r), [], maxItems)
    ensures Foot(AfterSplit(t, idx, median, l, r)) == Foot(t) + Own(right)
  {
    FootPAllocated(fs);
    KidInMemory(t, idx, maxItems);
    hide RepP, Rep, FootP, Foot, AfterSplit, Own;
    median, right, l, r := SplitChild(node, idx, leaf, t, maxItems);
  }

  lemma EnterMemory(fs: seq<Frame>, q: Tree, i: nat, maxItems: nat)
    requires InMemory(fs, q, [], maxItems) && i < |q.kids|
    ensures i < q.node.children.Length && q.node.children[i] == q.kids[i].node
    ensures InMemory(Deeper(fs, q, i), q.kids[i], [], maxItems)
    ensures Touched(Deeper(fs, q, i), q.kids[i], []) == Touched(fs, q, [])
    ensures Rebuild(Deeper(fs, q, i), q.kids[i]) == Rebuild(fs, q)
  {
    KidInMemory(q, i, maxItems);
    PushRep(fs, q, i, maxItems);
    PushRebuild(fs, q, i);
  }

  /** The descent has moved on from (fs, t) to (gs, u). */
  ghost predicate Entered(fs: seq<Frame>, t: Tree, q: Tree, gs: seq<Frame>, u: Tree, uIdx: nat, steps: seq<Pos>, key: int,
                          h: nat, s: seq<Item>, maxItems: nat)
    reads FootP(gs), Foot(u), FootK([])
  {
    1 < h && steps != [] && |gs| == |fs| + 1 && Descending(gs, u, uIdx, steps[1..], key, h - 1, s, maxItems) && InMemory(gs, u, [], maxItems) &&
    Rebuild(gs, u).node == Rebuild(fs, t).node && Touched(gs, u, []) == Touched(fs, q, [])
  }

  lemma EnterLeft(fs: seq<Frame>, t: Tree, idx: nat, steps: seq<Pos>, key: int, h: nat, s: seq<Item>, maxItems: nat,
                  median: Item, l: Tree, r: Tree)
    requires Descending(fs, t, idx, steps, key, h, s, maxItems) && 1 < h
    requires Split(t.kids[idx], median, l, r, maxItems) && key < median.key
    requires InMemory(fs, AfterSplit(t, idx, median, l, r), [], maxItems)
    ensures idx < t.node.children.Length && t.node.children[idx] == l.node
    ensures var q := AfterSplit(t, idx, median, l, r);
      idx < |q.kids| && Entered(fs, t, q, Deeper(fs, q, idx), l, steps[0].idx, steps, key, h, s, maxItems)
  {
    var q := AfterSplit(t, idx, median, l, r);
    AfterSplitKids(t, idx, median, l, r);
    hide Descending, Split, InMemory, AfterSplit, Rebuild, Touched, FrameAt;
    GoLeft(fs, t, idx, steps, key, h, s, maxItems, median, l, r);
    EnterMemory(fs, q, idx, maxItems);
    RebuildNode(fs, t, q);
  }

  lemma EnterRight(fs: seq<Frame>, t: Tree, idx: nat, steps: seq<Pos>, key: int, h: nat, s: seq<Item>, maxItems: nat,
                   median: Item, l: Tree, r: Tree, childIdx: nat, next: int)
    requires Descending(fs, t, idx, steps, key, h, s, maxItems) && 1 < h
    requires Split(t.kids[idx], median, l, r, maxItems) && median.key <= key
    requires InMemory(fs, AfterSplit(t, idx, median, l, r), [], maxItems)
    requires steps != [] && childIdx == steps[0].idx && next == childIdx - maxItems / 2 - 1
    ensures idx + 1 < t.node.children.Length && t.node.children[idx + 1] == r.node
    ensures 0 <= next
    ensures var q := AfterSplit(t, idx, median, l, r);
      idx + 1 < |q.kids| && Entered(fs, t, q, Deeper(fs, q, idx + 1), r, next, steps, key, h, s, maxItems)
  {
    var q := AfterSplit(t, idx, median, l, r);
    AfterSplitKids(t, idx, median, l, r);
    hide Descending, Split, InMemory, AfterSplit, Rebuild, Touched, FrameAt;
    GoRight(fs, t, idx, steps, key, h, s, maxItems, median, l, r);
    EnterMemory(fs, q, idx + 1, maxItems);
    RebuildNode(fs, t, q);
  }

  // ---------------------------------------------------------------- the tree that results

  /** The whole tree if insertion goes on from here. */
  ghost function Onward(fs: seq<Frame>, t: Tree, h: nat, item: Item, maxItems: nat): Bare {
    Put(fs, Descend(Strip(t), h, item, maxItems))
  }

  lemma PutDeeper(fs: seq<Frame>, q: Tree, i: nat, x: Bare)
    requires i < |q.kids|
    ensures Put(Deeper(fs, q, i), x) == Put(fs, Bare(q.items, StripK(q.kids[..i]) + [x] + StripK(q.kids[i + 1..])))
  {
    assert Init(Deeper(fs, q, i)) == fs && Last(Deeper(fs, q, i)) == FrameAt(q, i);
  }

  /** The split child, in the tree without nodes. */
  lemma SplitBare(t: Tree, idx: nat, median: Item, l: Tree, r: Tree, h: nat, item: Item, maxItems: nat)
    requires 1 < h && idx < |t.kids| && InsertionPoint(t.items, item.key, idx) && Split(t.kids[idx], median, l, r, maxItems)
    requires |t.kids[idx].items| == maxItems && maxItems % 2 == 1
    ensures Descend(Strip(t), h, item, maxItems) == Bare(Inserted(t.items, idx, median), StripK(t.kids[..idx]) +
      (if item.key < median.key then [Descend(Strip(l), h - 1, item, maxItems), Strip(r)]
       else [Strip(l), Descend(Strip(r), h - 1, item, maxItems)]) + StripK(t.kids[idx + 1..]))
  {
    var c := t.kids[idx];
    PointIs(t.items, item.key, idx);
    HalvesAre(c.items, c.kids, median, l, r, maxItems / 2);
    assert Strip(t).kids[..idx] == StripK(t.kids[..idx]) && Strip(t).kids[idx + 1..] == StripK(t.kids[idx + 1..]);
    hide StripK;
  }

  /** Both sides of the lower half, and of the upper half, in the node after the split. */
  lemma AfterSplitBare(t: Tree, idx: nat, median: Item, l: Tree, r: Tree)
    requires idx < |t.kids| && idx <= |t.items|
    ensures var q := AfterSplit(t, idx, median, l, r);
      idx + 1 < |q.kids| && q.items == Inserted(t.items, idx, median) &&
      StripK(q.kids[..idx]) == StripK(t.kids[..idx]) && StripK(q.kids[idx + 1..]) == [Strip(r)] + StripK(t.kids[idx + 1..]) &&
      StripK(q.kids[..idx + 1]) == StripK(t.kids[..idx]) + [Strip(l)] && StripK(q.kids[idx + 2..]) == StripK(t.kids[idx + 1..])
  {
    var q := AfterSplit(t, idx, median, l, r);
    assert q.kids[..idx] == t.kids[..idx] && q.kids[idx + 1..] == [r] + t.kids[idx + 1..];
    assert q.kids[..idx + 1] == t.kids[..idx] + [l] && q.kids[idx + 2..] == t.kids[idx + 1..];
    StripAppend([r], t.kids[idx + 1..]);
    StripAppend(t.kids[..idx], [l]);
    StripOne(r);
    StripOne(l);
    hide StripK, Strip;
  }

  lemma Between<T>(a: seq<T>, x: T, y: T, b: seq<T>)
    ensures a + [x] + ([y] + b) == a + [x, y] + b && (a + [x]) + [y] + b == a + [x, y] + b
  {
  }

  lemma OnwardIs(fs: seq<Frame>, t: Tree, h: nat, item: Item, maxItems: nat)
    ensures Onward(fs, t, h, item, maxItems) == Put(fs, Descend(Strip(t), h, item, maxItems))
  {
  }

  lemma OnwardLeft(fs: seq<Frame>, t: Tree, idx: nat, median: Item, l: Tree, r: Tree, h: nat, item: Item, maxItems: nat)
    requires 1 < h && idx < |t.kids| && InsertionPoint(t.items, item.key, idx) && Split(t.kids[idx], median, l, r, maxItems)
    requires |t.kids[idx].items| == maxItems && maxItems % 2 == 1 && item.key < median.key && idx <= |t.items|
    ensures var q := AfterSplit(t, idx, median, l, r);
      idx < |q.kids| && Onward(Deeper(fs, q, idx), l, h - 1, item, maxItems) == Onward(fs, t, h, item, maxItems)
  {
    hide *;
    var q := AfterSplit(t, idx, median, l, r);
    SplitBare(t, idx, median, l, r, h, item, maxItems);
    AfterSplitBare(t, idx, median, l, r);
    var x := Descend(Strip(l), h - 1, item, maxItems);
    PutDeeper(fs, q, idx, x);
    Between(StripK(t.kids[..idx]), x, Strip(r), StripK(t.kids[idx + 1..]));
    OnwardIs(Deeper(fs, q, idx), l, h - 1, item, maxItems);
    OnwardIs(fs, t, h, item, maxItems);
  }

  lemma OnwardRight(fs: seq<Frame>, t: Tree, idx: nat, median: Item, l: Tree, r: Tree, h: nat, item: Item, maxItems: nat)
    requires 1 < h && idx < |t.kids| && InsertionPoint(t.items, item.key, idx) && Split(t.kids[idx], median, l, r, maxItems)
    requires |t.kids[idx].items| == maxItems && maxItems % 2 == 1 && median.key <= item.key && idx <= |t.items|
    ensures var q := AfterSplit(t, idx, median, l, r);
      idx + 1 < |q.kids| && Onward(Deeper(fs, q, idx + 1), r, h - 1, item, maxItems) == Onward(fs, t, h, item, maxItems)
  {
    hide *;
    var q := AfterSplit(t, idx, median, l, r);
    SplitBare(t, idx, median, l, r, h, item, maxItems);
    AfterSplitBare(t, idx, median, l, r);
    var x := Descend(Strip(r), h - 1, item, maxItems);
    PutDeeper(fs, q, idx + 1, x);
    Between(StripK(t.kids[..idx]), Strip(l), x, StripK(t.kids[idx + 1..]));
    OnwardIs(Deeper(fs, q, idx + 1), r, h - 1, item, maxItems);
    OnwardIs(fs, t, h, item, maxItems);
  }

  lemma PointHere(fs: seq<Frame>, t: Tree, idx: nat, steps: seq<Pos>, key: int, h: nat, s: seq<Item>, maxItems: nat)
    requires Descending(fs, t, idx, steps, key, h, s, maxItems)
    ensures InsertionPoint(t.items, key, idx)
  {
  }

  /** In a leaf with room. */
  lemma LeafBare(fs: seq<Frame>, t: Tree, idx: nat, item: Item, s: seq<Item>, maxItems: nat)
    requires Descending(fs, t, idx, [], item.key, 1, s, maxItems)
    ensures Onward(fs, t, 1, item, maxItems) == Strip(Rebuild(fs, TakenIn(t, idx, item, [])))
  {
    PointIs(t.items, item.key, idx);
    var q := TakenIn(t, idx, item, []);
    assert Strip(q) == Bare(Inserted(t.items, idx, item), StripK(t.kids));
    PutStrip(fs, q);
  }

  /** One round of the loop: the child on the way is split, and the descent enters one of its halves. */
  method SplitAndEnter(node: Node, idx: nat, childIdx: nat, leaf: bool, item: Item, maxItems: nat,
                       ghost fs: seq<Frame>, ghost t: Tree, ghost steps: seq<Pos>, ghost h: nat, ghost s: seq<Item>)
    returns (next: Node, nextIdx: nat, ghost gs: seq<Frame>, ghost u: Tree, ghost q: Tree, ghost news: set<object>)
    requires Descending(fs, t, idx, steps, item.key, h, s, maxItems) && 1 < h && InMemory(fs, t, [], maxItems)
    requires t.node == node && steps != [] && childIdx == steps[0].idx && (leaf <==> |steps| == 1)
    modifies Foot(t)
    ensures u.node == next && Entered(fs, t, q, gs, u, nextIdx, steps, item.key, h, s, maxItems)
    ensures fresh(news) && Foot(q) == Foot(t) + news
    ensures Onward(gs, u, h - 1, item, maxItems) == Onward(fs, t, h, item, maxItems)
  {
    NextIsFull(fs, t, idx, steps, item.key, h, s, maxItems);
    hide *;
    PointHere(fs, t, idx, steps, item.key, h, s, maxItems);
    var median, right, l, r := SplitHere(node, idx, leaf, maxItems, fs, t);
    q := AfterSplit(t, idx, median, l, r);
    news := Own(right);
    if item.key < median.key {
      EnterLeft(fs, t, idx, steps, item.key, h, s, maxItems, median, l, r);
      OnwardLeft(fs, t, idx, median, l, r, h, item, maxItems);
      gs, u := Deeper(fs, q, idx), l;
      next, nextIdx := node.children[idx], childIdx;
    } else {
      var i := childIdx - maxItems / 2 - 1;
      EnterRight(fs, t, idx, steps, item.key, h, s, maxItems, median, l, r, childIdx, i);
      OnwardRight(fs, t, idx, median, l, r, h, item, maxItems);
      gs, u := Deeper(fs, q, idx + 1), r;
      next, nextIdx := node.children[idx + 1], i;
    }
  }

  lemma TouchedAlone(fs: seq<Frame>, t: Tree)
    ensures Touched(fs, t, []) == FootP(fs) + Foot(t)
  {
  }

  lemma AfterSplitKids(t: Tree, idx: nat, median: Item, l: Tree, r: Tree)
    requires idx < |t.kids| && idx <= |t.items|
    ensures var q := AfterSplit(t, idx, median, l, r);
      q.node == t.node && idx + 1 < |q.kids| && q.kids[idx] == l && q.kids[idx + 1] == r
  {
  }

  lemma NextIsFull(fs: seq<Frame>, t: Tree, idx: nat, steps: seq<Pos>, key: int, h: nat, s: seq<Item>, maxItems: nat)
    requires Descending(fs, t, idx, steps, key, h, s, maxItems) && 1 < h
    ensures idx < |t.kids| && idx <= |t.items| < maxItems && maxItems % 2 == 1
    ensures |t.kids[idx].items| == maxItems && (t.kids[idx].kids == [] <==> |steps| == 1)
  {
  }

  lemma StepsLeft(fs: seq<Frame>, t: Tree, idx: nat, steps: seq<Pos>, key: int, h: nat, s: seq<Item>, maxItems: nat)
    requires Descending(fs, t, idx, steps, key, h, s, maxItems)
    ensures |steps| == h - 1 && idx <= |t.items| < maxItems
    ensures Foot(t) <= Touched(fs, t, [])
  {
  }

  lemma MovedOn(fs: seq<Frame>, t: Tree, q: Tree, gs: seq<Frame>, u: Tree, uIdx: nat, steps: seq<Pos>, key: int,
                h: nat, s: seq<Item>, maxItems: nat, news: set<object>)
    requires Entered(fs, t, q, gs, u, uIdx, steps, key, h, s, maxItems) && Foot(q) == Foot(t) + news
    ensures steps != [] && 1 < h && |gs| == |fs| + 1
    ensures Descending(gs, u, uIdx, steps[1..], key, h - 1, s, maxItems) && InMemory(gs, u, [], maxItems)
    ensures Rebuild(gs, u).node == Rebuild(fs, t).node && Touched(gs, u, []) <= Touched(fs, t, []) + news
  {
  }

  /** A leaf with room, reached at the insertion point: the item can settle. */
  lemma AtLeaf(fs: seq<Frame>, t: Tree, idx: nat, item: Item, s: seq<Item>, p: nat, maxItems: nat)
    requires Descending(fs, t, idx, [], item.key, 1, s, maxItems) && InsertionPoint(s, item.key, p)
    ensures p <= |s| && Climbing(fs, t, idx, item, [], 1, Inserted(s, p, item), maxItems)
    ensures |t.items| < maxItems && Linked(null, []) && Own(t.node) <= Touched(fs, t, [])
  {
    assert t.kids == [] && Flat(t) == t.items;
    LeafInsert(Pre(fs), t.items, Post(fs), idx, item, p);
  }

  /** The loop: from a node with room down to the leaf, splitting every full child before entering it. */
  method SplitDown(item: Item, idx0: nat, node0: Node, path: seq<Pos>, depth: nat, d0: nat, maxItems: nat,
                   ghost fs0: seq<Frame>, ghost t0: Tree, ghost s: seq<Item>, ghost p: nat, ghost mem: set<object>)
    returns (ghost q: Tree, ghost news: set<object>)
    requires d0 <= depth == |path| && t0.node == node0
    requires Descending(fs0, t0, idx0, path[d0..], item.key, depth - d0 + 1, s, maxItems)
    requires InMemory(fs0, t0, [], maxItems) && InsertionPoint(s, item.key, p) && mem == Touched(fs0, t0, [])
    modifies mem
    ensures q.node == Rebuild(fs0, t0).node && Rep(q, maxItems) && Flat(q) == Inserted(s, p, item)
    ensures Shape(q, depth - d0 + 1 + |fs0|, 1, maxItems)
    ensures fresh(news) && Foot(q) <= mem + news
    ensures Strip(q) == Onward(fs0, t0, depth - d0 + 1, item, maxItems)
  {
    hide *;
    var idx, node, d := idx0, node0, d0;
    ghost var fs, t, h, steps := fs0, t0, depth - d0 + 1, path[d0..];
    news := {};
    while d != depth
      invariant d0 <= d <= depth && h == depth - d + 1 && steps == path[d..] && t.node == node
      invariant Descending(fs, t, idx, steps, item.key, h, s, maxItems) && InMemory(fs, t, [], maxItems)
      invariant Rebuild(fs, t).node == Rebuild(fs0, t0).node && |fs| + h == |fs0| + depth - d0 + 1
      invariant fresh(news) && Touched(fs, t, []) <= mem + news
      invariant Onward(fs, t, h, item, maxItems) == Onward(fs0, t0, depth - d0 + 1, item, maxItems)
      decreases depth - d
    {
      d := d + 1;
      ghost var gs, u, q1, n;
      StepsLeft(fs, t, idx, steps, item.key, h, s, maxItems);
      node, idx, gs, u, q1, n := SplitAndEnter(node, idx, path[d - 1].idx, d == depth, item, maxItems, fs, t, steps, h, s);
      MovedOn(fs, t, q1, gs, u, idx, steps, item.key, h, s, maxItems, n);
      fs, t, h, steps := gs, u, h - 1, steps[1..];
      news := news + n;
    }
    assert path[depth..] == [];
    AtLeaf(fs, t, idx, item, s, p, maxItems);
    LeafBare(fs, t, idx, item, s, maxItems);
    q := Settle(node, idx, item, null, fs, t, [], 1, Inserted(s, p, item), maxItems);
  }

  /** What is known when the way down has ended: (fs, t) is the last node with room, or the whole
      tree if every node on the way is full. */
  ghost predicate Recorded(path: seq<Pos>, lastNonfull: nat, fs: seq<Frame>, t: Tree, root: Node, key: int, s: seq<Item>,
                           maxItems: nat)
  {
    lastNonfull <= |path| && 3 <= maxItems && maxItems % 2 == 1 && Rebuild(fs, t).node == root &&
    if lastNonfull == 0 then
      fs == [] && Around([], t, key, s) && Shape(t, |path|, 1, maxItems) && FullBelow(t, path, key, maxItems)
    else
      |fs| == lastNonfull - 1 && path[lastNonfull - 1].node == t.node &&
      Descending(fs, t, path[lastNonfull - 1].idx, path[lastNonfull..], key, |path| - lastNonfull + 1, s, maxItems)
  }

  /** A new root without items above a full old root: the next split fills it. */
  method EmptyRoot(root: Node, maxItems: nat, ghost t: Tree, ghost path: seq<Pos>, ghost key: int, ghost s: seq<Item>)
    returns (newRoot: Node, ghost u: Tree)
    requires Recorded(path, 0, [], t, root, key, s, maxItems) && InMemory([], t, [], maxItems)
    ensures u == Tree(newRoot, [], [t]) && fresh(Own(newRoot)) && Foot(u) == Foot(t) + Own(newRoot)
    ensures Descending([], u, 0, path, key, |path| + 1, s, maxItems) && InMemory([], u, [], maxItems)
  {
    FootAllocated(t);
    newRoot := new Node(false, maxItems);
    newRoot.children[0] := root;
    u := Tree(newRoot, [], [t]);
    assert newRoot.Items() == [] && newRoot.Kids() == [root] == Roots([t]);
    RepOne(t, maxItems);
    EmptyRootShape(newRoot, t, path, root, key, s, maxItems);
  }

  lemma EmptyRootShape(n: Node, t: Tree, path: seq<Pos>, root: Node, key: int, s: seq<Item>, maxItems: nat)
    requires Recorded(path, 0, [], t, root, key, s, maxItems)
    ensures Descending([], Tree(n, [], [t]), 0, path, key, |path| + 1, s, maxItems)
  {
    assert Flat(Tree(n, [], [t])) == Flat(t);
    FullRoot(t, path, key, maxItems);
  }

  lemma FullRoot(t: Tree, path: seq<Pos>, key: int, maxItems: nat)
    requires 2 <= maxItems && Shape(t, |path|, 1, maxItems) && FullBelow(t, path, key, maxItems)
    ensures Shape(t, |path|, maxItems / 2, maxItems)
  {
  }

  method InsertAndRebalanceOdd(root: Node, item: Item, idx: nat, node: Node, path: seq<Pos>, depth: nat, lastNonfull: nat,
                               maxItems: nat, ghost fs: seq<Frame>, ghost t: Tree, ghost s: seq<Item>, ghost p: nat,
                               ghost mem: set<object>)
    returns (newRoot: Node, grown: bool, ghost q: Tree, ghost news: set<object>)
    requires 1 <= depth == |path| && path[depth - 1] == Pos(node, idx)
    requires Recorded(path, lastNonfull, fs, t, root, item.key, s, maxItems)
    requires InMemory(fs, t, [], maxItems) && InsertionPoint(s, item.key, p) && mem == Touched(fs, t, [])
    modifies mem
    ensures newRoot == q.node && (!grown ==> newRoot == root)
    ensures Rep(q, maxItems) && p <= |s| && Flat(q) == Inserted(s, p, item)
    ensures Shape(q, if grown then depth + 1 else depth, 1, maxItems)
    ensures fresh(news) && Foot(q) <= mem + news
    ensures Strip(q) == if lastNonfull == 0 then Descend(Bare([], [Strip(t)]), depth + 1, item, maxItems)
                        else Onward(fs, t, depth - lastNonfull + 1, item, maxItems)
  {
    hide Descend, Onward, Strip, Put;
    hide Descending, InMemory, Touched, Rebuild, FullBelow, Around, InsertionPoint, Rep, Shape, Flat, Foot;
    assert p <= |s| by { PointInRange(s, item.key, p); }
    if lastNonfull == 0 {
      // the root itself is full
      ghost var u;
      newRoot, u := EmptyRoot(root, maxItems, t, path, item.key, s);
      grown := true;
      assert path[0..] == path;
      ghost var m := Touched([], u, []);
      ghost var more;
      RootedAt(u);
      TouchedAlone([], u);
      TouchedAlone([], t);
      FootPEmpty();
      q, more := SplitDown(item, 0, newRoot, path, depth, 0, maxItems, [], u, s, p, m);
      news := Own(newRoot) + more;
      UnderEmptyRoot(newRoot, t, depth + 1, item, maxItems);
    } else {
      newRoot, grown := root, false;
      var at := path[lastNonfull - 1];
      q, news := SplitDown(item, at.idx, at.node, path, depth, lastNonfull, maxItems, fs, t, s, p, mem);
    }
  }

  lemma PointInRange(s: seq<Item>, key: int, p: nat)
    requires InsertionPoint(s, key, p)
    ensures p <= |s|
  {
  }

  lemma UnderEmptyRoot(n: Node, t: Tree, h: nat, item: Item, maxItems: nat)
    ensures Onward([], Tree(n, [], [t]), h, item, maxItems) == Descend(Bare([], [Strip(t)]), h, item, maxItems)
  {
    StripOne(t);
    hide Descend;
  }

  lemma RootedAt(u: Tree)
    ensures Rebuild([], u) == u
  {
  }

  lemma FootPEmpty()
    ensures FootP([]) == {}
  {
  }
}
