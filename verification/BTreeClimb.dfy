/** Insertion for even capacities: from the leaf upwards, splitting every full node on the way. */
module BTreeClimb {
  import opened BTreeNode
  import opened BTreeTree
  import opened BTreePath
  import opened BTreeRepair
  import opened BTreeGrow
  import opened BTreeBare

  /** Where insertion stands while it climbs: t, at the end of the path fs, still has to take in
      item and pending, and then the whole tree will read target. */
  ghost predicate Climbing(fs: seq<Frame>, t: Tree, idx: nat, item: Item, pending: seq<Tree>, h: nat,
                           target: seq<Item>, maxItems: nat)
  {
    2 <= maxItems && Pending(t, idx, pending) && PathOk(fs) && ShapeP(fs, h, maxItems) &&
    Shape(t, h, RootLow(|fs|, h, maxItems), maxItems) && (h > 1 ==> Shapes(pending, h - 1, maxItems)) &&
    Pre(fs) + PendingFlat(t, idx, item, pending) + Post(fs) == target
  }

  /** A brand-new root leaf is the only node that may be empty. */
  ghost function RootLow(depth: nat, h: nat, maxItems: nat): nat {
    if depth == 0 && h == 1 then 0 else RootMin(depth, maxItems)
  }

  ghost predicate InMemory(fs: seq<Frame>, t: Tree, pending: seq<Tree>, maxItems: nat)
    reads FootP(fs), Foot(t), FootK(pending)
  {
    RepP(fs, t.node, maxItems) && Rep(t, maxItems) && RepK(pending, maxItems) &&
    FootP(fs) !! Foot(t) !! FootK(pending)
  }

  /** The memory insertion has to do with. */
  ghost function Touched(fs: seq<Frame>, t: Tree, pending: seq<Tree>): set<object> {
    FootP(fs) + Foot(t) + FootK(pending)
  }

  ghost predicate Linked(right: Node?, pending: seq<Tree>) {
    if pending == [] then right == null else right == pending[0].node
  }

  lemma {:induction false} FootPAllocated(fs: seq<Frame>)
    ensures forall o :: o in FootP(fs) ==> allocated(o)
  {
    if fs != [] {
      FootPAllocated(Init(fs));
      FootKAllocated(Last(fs).left);
      FootKAllocated(Last(fs).right);
    }
  }

  /** The climb ends at a node with room. */
  method Settle(node: Node, idx: nat, item: Item, right: Node?, ghost fs: seq<Frame>, ghost t: Tree,
                ghost pending: seq<Tree>, ghost h: nat, ghost target: seq<Item>, ghost maxItems: nat)
    returns (ghost q: Tree)
    requires Climbing(fs, t, idx, item, pending, h, target, maxItems) && InMemory(fs, t, pending, maxItems)
    requires t.node == node && |t.items| < maxItems
    requires Linked(right, pending)
    modifies Own(node)
    ensures Rep(q, maxItems) && Shape(q, h + |fs|, 1, maxItems) && Flat(q) == target
    ensures Foot(q) == Touched(fs, t, pending)
    ensures q.node == Rebuild(fs, t).node && q == Rebuild(fs, TakenIn(t, idx, item, pending))
  {
    FootPAllocated(fs);
    hide RepP, Rep, RepK, FootP, FootK, Flat, PathOk, ShapeP, Shape, PendingFlat, Rebuild;
    ghost var s := TakeIn(node, idx, item, right, t, pending, maxItems);
    q := Rebuild(fs, s);
    RebuildRep(fs, s, maxItems);
    Settled(fs, t, idx, item, pending, h, target, maxItems, s);
  }

  lemma Settled(fs: seq<Frame>, t: Tree, idx: nat, item: Item, pending: seq<Tree>, h: nat, target: seq<Item>,
                maxItems: nat, s: Tree)
    requires Climbing(fs, t, idx, item, pending, h, target, maxItems) && |t.items| < maxItems
    requires s == Tree(t.node, Inserted(t.items, idx, item), WithKid(t.kids, idx, pending))
    ensures Shape(Rebuild(fs, s), h + |fs|, 1, maxItems) && Flat(Rebuild(fs, s)) == target
    ensures Rebuild(fs, s).node == Rebuild(fs, t).node
  {
    TakenInShape(t, idx, item, pending, h, |t.items|, maxItems);
    RebuildFlat(fs, s);
    RebuildShape(fs, s, h, maxItems);
    RebuildNode(fs, t, s);
  }

  lemma {:induction false} RebuildNode(fs: seq<Frame>, s: Tree, t: Tree)
    requires s.node == t.node
    ensures Rebuild(fs, s).node == Rebuild(fs, t).node
  {
    if fs != [] {
      RebuildNode(Init(fs), Plug(Last(fs), s), Plug(Last(fs), t));
    }
  }

  /** A node has been split into l and r, with median to go between them one level up. */
  ghost predicate SplitUp(fs: seq<Frame>, l: Tree, median: Item, r: Tree, h: nat, target: seq<Item>, maxItems: nat) {
    2 <= maxItems && PathOk(fs) && ShapeP(fs, h, maxItems) &&
    Shape(l, h, maxItems / 2, maxItems) && Shape(r, h, maxItems / 2, maxItems) &&
    Pre(fs) + (Flat(l) + [median] + Flat(r)) + Post(fs) == target
  }

  ghost predicate BothInMemory(fs: seq<Frame>, l: Tree, r: Tree, maxItems: nat)
    reads FootP(fs), Foot(l), Foot(r)
  {
    RepP(fs, l.node, maxItems) && Rep(l, maxItems) && Rep(r, maxItems) && FootP(fs) !! Foot(l) !! Foot(r)
  }

  /** What splitting leaves of a full node that had to take in item and pending. */
  ghost predicate SplitParts(t: Tree, idx: nat, item: Item, pending: seq<Tree>, median: Item, l: Tree, r: Tree, maxItems: nat)
  {
    Pending(t, idx, pending) && |t.items| == maxItems && maxItems % 2 == 0 && 2 <= maxItems &&
    |l.items| == |r.items| == maxItems / 2 &&
    l.items + [median] + r.items == Inserted(t.items, idx, item) &&
    l.kids + r.kids == WithKid(t.kids, idx, pending) &&
    (t.kids == [] ==> l.kids == [] && r.kids == []) &&
    (t.kids != [] ==> |l.kids| == |r.kids| == maxItems / 2 + 1)
  }

  method SplitInMemory(node: Node, idx: nat, item: Item, right: Node?, ghost fs: seq<Frame>, ghost t: Tree,
                       ghost pending: seq<Tree>, ghost maxItems: nat)
    returns (median: Item, newNode: Node, ghost l: Tree, ghost r: Tree)
    requires InMemory(fs, t, pending, maxItems)
    requires Pending(t, idx, pending) && |t.items| == maxItems && maxItems % 2 == 0 && 2 <= maxItems
    requires t.node == node && Linked(right, pending)
    modifies Own(node)
    ensures l.node == node && r.node == newNode
    ensures SplitParts(t, idx, item, pending, median, l, r, maxItems) && BothInMemory(fs, l, r, maxItems)
    ensures Foot(l) + Foot(r) == Foot(t) + FootK(pending) + Own(newNode) && fresh(Own(newNode))
  {
    FootPAllocated(fs);
    FootKAllocated(t.kids + pending);
    FootAppend(t.kids, pending);
    median, newNode, l, r := TakeInAndSplit(node, idx, item, right, t, pending, maxItems);
    SplitRep(l, r, maxItems);
  }

  /** The climb passes a full node. */
  method SplitStep(node: Node, idx: nat, item: Item, right: Node?, ghost fs: seq<Frame>, ghost t: Tree,
                   ghost pending: seq<Tree>, ghost h: nat, ghost target: seq<Item>, ghost maxItems: nat)
    returns (median: Item, newNode: Node, ghost l: Tree, ghost r: Tree)
    requires Climbing(fs, t, idx, item, pending, h, target, maxItems) && InMemory(fs, t, pending, maxItems)
    requires t.node == node && |t.items| == maxItems && maxItems % 2 == 0
    requires Linked(right, pending)
    modifies Own(node)
    ensures l.node == node && r.node == newNode && SplitParts(t, idx, item, pending, median, l, r, maxItems)
    ensures SplitUp(fs, l, median, r, h, target, maxItems) && BothInMemory(fs, l, r, maxItems)
    ensures Foot(l) + Foot(r) == Foot(t) + FootK(pending) + Own(newNode) && fresh(Own(newNode))
  {
    median, newNode, l, r := SplitInMemory(node, idx, item, right, fs, t, pending, maxItems);
    SplitDone(t, idx, item, pending, median, l, r, h, 0, maxItems);
  }

  /** One level up, the split becomes a pending item with a pending subtree. */
  lemma UpStep(fs: seq<Frame>, f: Frame, l: Tree, median: Item, r: Tree, h: nat, target: seq<Item>, maxItems: nat)
    requires SplitUp(fs + [f], l, median, r, h, target, maxItems)
    ensures Climbing(fs, Plug(f, l), |f.left|, median, [r], h + 1, target, maxItems)
  {
    PushFrame(fs, f);
    assert PathOk(fs) by {
      assert forall i :: 0 <= i < |fs| ==> fs[i] == (fs + [f])[i];
    }
    var t, k := Plug(f, l), |f.left|;
    var items := Inserted(f.items, k, median);
    assert WithKid(t.kids, k, [r]) == f.left + [l, r] + f.right;
    PairFlat(f.node, items, f.left, l, r, f.right);
    assert items[..k] == f.items[..k] && items[k] == median && items[k + 1..] == f.items[k..];
    var x := Flat(l) + [median] + Flat(r);
    assert PendingFlat(t, k, median, [r]) == FramePre(f) + x + FramePost(f);
    Assoc(Pre(fs), FramePre(f) + x, FramePost(f));
    Assoc(Pre(fs), FramePre(f), x);
    Assoc(Pre(fs + [f]) + x, FramePost(f), Post(fs));
    PlugShape(f, l, h, RootMin(|fs|, maxItems), maxItems);
  }

  lemma UpStepMemory(fs: seq<Frame>, f: Frame, l: Tree, r: Tree, maxItems: nat)
    requires BothInMemory(fs + [f], l, r, maxItems)
    ensures InMemory(fs, Plug(f, l), [r], maxItems)
    ensures Touched(fs, Plug(f, l), [r]) == FootP(fs + [f]) + Foot(l) + Foot(r)
  {
    PushFrame(fs, f);
    PlugRep(f, l, maxItems);
    RepOne(r, maxItems);
  }

  /** The root itself was split: the tree grows by one level. */
  method NewRoot(median: Item, left: Node, right: Node, maxItems: nat, ghost l: Tree, ghost r: Tree, ghost h: nat,
                 ghost target: seq<Item>)
    returns (newRoot: Node, ghost q: Tree)
    requires SplitUp([], l, median, r, h, target, maxItems) && BothInMemory([], l, r, maxItems)
    requires left == l.node && right == r.node
    ensures q == Tree(newRoot, [median], [l, r]) && fresh(Own(newRoot))
    ensures Rep(q, maxItems) && Shape(q, h + 1, 1, maxItems) && Flat(q) == target
    ensures Foot(q) == Own(newRoot) + Foot(l) + Foot(r)
  {
    FootAllocated(l);
    FootAllocated(r);
    newRoot := RootAbove(median, left, right, maxItems);
    q := Tree(newRoot, [median], [l, r]);
    RootRep(q, l, r, maxItems);
    RootFlat(l, median, r);
    BothShapes(l, r, h, maxItems);
    assert [] + (Flat(l) + [median] + Flat(r)) + [] == Flat(l) + [median] + Flat(r);
  }

  method RootAbove(median: Item, left: Node, right: Node, maxItems: nat) returns (newRoot: Node)
    requires 1 <= maxItems
    ensures fresh(Own(newRoot)) && Holds(newRoot, Held([median], [left, right]), maxItems)
  {
    newRoot := new Node(false, maxItems);
    newRoot.items[0] := median;
    newRoot.numItems := 1;
    newRoot.children[0] := left;
    newRoot.children[1] := right;
  }

  lemma RootRep(q: Tree, l: Tree, r: Tree, maxItems: nat)
    requires q.kids == [l, r] && Holds(q.node, Held(q.items, [l.node, r.node]), maxItems)
    requires Own(q.node) !! Foot(l) !! Foot(r) && Rep(l, maxItems) && Rep(r, maxItems)
    ensures Rep(q, maxItems) && Foot(q) == Own(q.node) + Foot(l) + Foot(r)
  {
    KidsAt([], l, [r], maxItems);
    RepOne(r, maxItems);
    assert [] + [l] + [r] == [l, r];
    assert Roots([l, r]) == [l.node, r.node];
  }

  lemma RootFlat(l: Tree, x: Item, r: Tree)
    ensures Weave([l, r], [x]) == Flat(l) + [x] + Flat(r)
  {
    WeaveJoin([l], [], x, [r], []);
    assert [l] + [r] == [l, r] && [] + [x] + [] == [x];
  }

  lemma BothShapes(l: Tree, r: Tree, h: nat, maxItems: nat)
    requires Shape(l, h, maxItems / 2, maxItems) && Shape(r, h, maxItems / 2, maxItems)
    ensures Shapes([l, r], h, maxItems)
  {
  }

  // ---------------------------------------------------------------- the tree that results

  /** The parent gets the median of an overfull node and its upper half. */
  lemma RaiseIs(f: Frame, t: Tree, idx: nat, item: Item, pending: seq<Tree>, median: Item, l: Tree, r: Tree, maxItems: nat)
    requires FrameOk(f) && SplitParts(t, idx, item, pending, median, l, r, maxItems)
    ensures Raise(StripF(f), Strip(TakenIn(t, idx, item, pending)), maxItems) == Strip(TakenIn(Plug(f, l), |f.left|, median, [r]))
  {
    var items, kids := Inserted(t.items, idx, item), WithKid(t.kids, idx, pending);
    HalvesAre(items, kids, median, l, r, maxItems / 2);
    assert WithKid(Plug(f, l).kids, |f.left|, [r]) == f.left + [l, r] + f.right;
    StripAppend(f.left + [l, r], f.right);
    StripAppend(f.left, [l, r]);
    StripTwo(l, r);
    hide StripK;
  }

  lemma StripTwo(l: Tree, r: Tree)
    ensures StripK([l, r]) == [Strip(l), Strip(r)]
  {
  }

  lemma CrownIs(n: Node, t: Tree, idx: nat, item: Item, pending: seq<Tree>, median: Item, l: Tree, r: Tree, maxItems: nat)
    requires SplitParts(t, idx, item, pending, median, l, r, maxItems)
    ensures Finish([], Strip(TakenIn(t, idx, item, pending)), maxItems) == Strip(Tree(n, [median], [l, r]))
  {
    HalvesAre(Inserted(t.items, idx, item), WithKid(t.kids, idx, pending), median, l, r, maxItems / 2);
    StripTwo(l, r);
    hide StripK;
  }

  lemma SettledBare(fs: seq<Frame>, t: Tree, idx: nat, item: Item, pending: seq<Tree>, h: nat, target: seq<Item>, maxItems: nat)
    requires Climbing(fs, t, idx, item, pending, h, target, maxItems) && |t.items| < maxItems
    ensures Finish(fs, Strip(TakenIn(t, idx, item, pending)), maxItems) == Strip(Rebuild(fs, TakenIn(t, idx, item, pending)))
  {
    FinishStrip(fs, TakenIn(t, idx, item, pending), h, maxItems);
  }

  lemma LastOk(fs: seq<Frame>, t: Tree, idx: nat, item: Item, pending: seq<Tree>, h: nat, target: seq<Item>, maxItems: nat)
    requires Climbing(fs, t, idx, item, pending, h, target, maxItems) && fs != []
    ensures FrameOk(Last(fs))
  {
  }
}
