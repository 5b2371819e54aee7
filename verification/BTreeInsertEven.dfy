/** Bottom-up insertion, used when the capacity is even. */
module BTreeInsertEven {
  import opened BTreeNode
  import opened BTreeTree
  import opened BTreePath
  import opened BTreeClimb
  import opened BTreeGrow
  import opened BTreeBare

  /** The recorded steps are those of the path. */
  ghost predicate PathMatches(path: seq<Pos>, fs: seq<Frame>) {
    |fs| <= |path| && forall j :: 0 <= j < |fs| ==> path[j] == Pos(fs[j].node, |fs[j].left|)
  }

  /** The node in hand, seen from the loop. */
  ghost predicate AtNode(t: Tree, node: Node, maxItems: nat)
    reads node
  {
    t.node == node && node.numItems == |t.items| <= maxItems
  }

  lemma ClimbingAtNode(fs: seq<Frame>, t: Tree, idx: nat, item: Item, pending: seq<Tree>, h: nat,
                       target: seq<Item>, maxItems: nat)
    requires Climbing(fs, t, idx, item, pending, h, target, maxItems) && InMemory(fs, t, pending, maxItems)
    ensures AtNode(t, t.node, maxItems) && Own(t.node) <= Touched(fs, t, pending)
  {
  }

  /** One round of the loop: the node is full and gets split; the median goes one level up. */
  method ClimbOne(node: Node, idx: nat, item: Item, right: Node?, ghost fs: seq<Frame>, ghost t: Tree,
                  ghost pending: seq<Tree>, ghost h: nat, ghost target: seq<Item>, ghost maxItems: nat)
    returns (median: Item, newNode: Node, ghost up: Tree, ghost r: Tree)
    requires Climbing(fs, t, idx, item, pending, h, target, maxItems) && InMemory(fs, t, pending, maxItems)
    requires t.node == node && |t.items| == maxItems && maxItems % 2 == 0 && Linked(right, pending) && fs != []
    modifies Own(node)
    ensures r.node == newNode && up.node == Last(fs).node
    ensures Rebuild(Init(fs), up).node == Rebuild(fs, t).node
    ensures Finish(Init(fs), Strip(TakenIn(up, |Last(fs).left|, median, [r])), maxItems) ==
      Finish(fs, Strip(TakenIn(t, idx, item, pending)), maxItems)
    ensures Climbing(Init(fs), up, |Last(fs).left|, median, [r], h + 1, target, maxItems)
    ensures InMemory(Init(fs), up, [r], maxItems)
    ensures fresh(Own(newNode)) && Touched(Init(fs), up, [r]) <= Touched(fs, t, pending) + Own(newNode)
  {
    hide Climbing, InMemory, SplitUp, BothInMemory, FootP, Foot, FootK, SplitParts, TakenIn, Finish, Raise, Strip, StripF, FrameOk;
    ghost var l;
    median, newNode, l, r := SplitStep(node, idx, item, right, fs, t, pending, h, target, maxItems);
    ghost var init, f := Init(fs), Last(fs);
    up := Plug(f, l);
    assert fs == init + [f];
    UpStep(init, f, l, median, r, h, target, maxItems);
    UpStepMemory(init, f, l, r, maxItems);
    RebuildNode(fs, t, l);
    LastOk(fs, t, idx, item, pending, h, target, maxItems);
    RaiseIs(f, t, idx, item, pending, median, l, r, maxItems);
    FinishOpen(fs, Strip(TakenIn(t, idx, item, pending)), maxItems);
  }

  /** Last round of the loop: the root is full and gets split under a new root. */
  method SplitRoot(node: Node, idx: nat, item: Item, right: Node?, maxItems: nat, ghost t: Tree,
                   ghost pending: seq<Tree>, ghost h: nat, ghost target: seq<Item>)
    returns (newRoot: Node, ghost q: Tree, ghost news: set<object>)
    requires Climbing([], t, idx, item, pending, h, target, maxItems) && InMemory([], t, pending, maxItems)
    requires t.node == node && |t.items| == maxItems && maxItems % 2 == 0 && Linked(right, pending)
    modifies Own(node)
    ensures q.node == newRoot && Rep(q, maxItems) && Shape(q, h + 1, 1, maxItems) && Flat(q) == target
    ensures fresh(news) && Foot(q) <= Touched([], t, pending) + news
    ensures Strip(q) == Finish([], Strip(TakenIn(t, idx, item, pending)), maxItems)
  {
    hide Climbing, InMemory, SplitUp, BothInMemory, Rep, Shape, Flat, Foot, FootK, SplitParts, TakenIn, Finish, Strip;
    var median, newNode, l, r := SplitStep(node, idx, item, right, [], t, pending, h, target, maxItems);
    newRoot, q := NewRoot(median, node, newNode, maxItems, l, r, h, target);
    CrownIs(newRoot, t, idx, item, pending, median, l, r, maxItems);
    news := Own(newNode) + Own(newRoot);
  }

  /** The tree grew by one level, or its root stayed the same. */
  method InsertAndRebalanceEven(root: Node, item0: Item, idx0: nat, node0: Node, path: seq<Pos>, depth0: nat, maxItems: nat,
                                ghost fs0: seq<Frame>, ghost t0: Tree, ghost target: seq<Item>, ghost mem: set<object>)
    returns (newRoot: Node, grown: bool, ghost q: Tree, ghost news: set<object>)
    requires Climbing(fs0, t0, idx0, item0, [], 1, target, maxItems) && InMemory(fs0, t0, [], maxItems)
    requires maxItems % 2 == 0 && t0.node == node0 && PathMatches(path, fs0) && depth0 == |fs0| + 1
    requires root == Rebuild(fs0, t0).node
    requires mem == Touched(fs0, t0, [])
    modifies mem
    ensures newRoot == q.node && (!grown ==> newRoot == root)
    ensures Rep(q, maxItems) && Flat(q) == target
    ensures Shape(q, if grown then depth0 + 1 else depth0, 1, maxItems)
    ensures fresh(news) && Foot(q) <= mem + news
    ensures Strip(q) == Finish(fs0, Strip(TakenIn(t0, idx0, item0, [])), maxItems)
  {
    hide Climbing, InMemory, Touched, Rebuild, Rep, Shape, Flat, Foot, FootK, TakenIn, Finish, Strip;
    var item, idx, node, depth := item0, idx0, node0, depth0;
    var right: Node? := null;
    ghost var fs, t, pending, h := fs0, t0, [], 1;
    news := {};
    while true
      invariant Climbing(fs, t, idx, item, pending, h, target, maxItems) && InMemory(fs, t, pending, maxItems)
      invariant t.node == node && Linked(right, pending) && 1 <= depth <= depth0
      invariant fs == fs0[..depth - 1] && h + |fs| == depth0
      invariant Rebuild(fs, t).node == root
      invariant fresh(news) && Touched(fs, t, pending) <= mem + news
      invariant Finish(fs, Strip(TakenIn(t, idx, item, pending)), maxItems) == Finish(fs0, Strip(TakenIn(t0, idx0, item0, [])), maxItems)
      decreases depth
    {
      ClimbingAtNode(fs, t, idx, item, pending, h, target, maxItems);
      if node.numItems < maxItems {
        SettledBare(fs, t, idx, item, pending, h, target, maxItems);
        q := Settle(node, idx, item, right, fs, t, pending, h, target, maxItems);
        return root, false, q, news;
      }
      if depth == 1 {
        break;
      }
      ghost var up, r;
      item, right, up, r := ClimbOne(node, idx, item, right, fs, t, pending, h, target, maxItems);
      depth := depth - 1;
      idx := path[depth - 1].idx;
      node := path[depth - 1].node;
      news := news + Own(right);
      fs, t, pending, h := Init(fs), up, [r], h + 1;
    }
    ghost var more;
    newRoot, q, more := SplitRoot(node, idx, item, right, maxItems, t, pending, h, target);
    news := news + more;
    grown := true;
  }
}
