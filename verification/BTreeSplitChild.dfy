/** Top-down insertion's step: a full child of a node with room is split in two. */
module BTreeSplitChild {
  import opened BTreeNode
  import opened BTreeTree
  import opened BTreePath
  import opened BTreeRepair
  import opened BTreeGrow

  lemma InsertedSecond<T>(a: seq<T>, x: T, y: T, b: seq<T>)
    ensures Inserted(a + [x] + b, |a| + 1, y) == a + [x, y] + b
  {
  }

  /** A node with room takes in an item and the child behind child x. */
  method InsertBehind(node: Node, idx: nat, item: Item, right: Node, ghost maxItems: nat, ghost items: seq<Item>,
                      ghost pre: seq<Node?>, ghost x: Node, ghost post: seq<Node?>)
    requires Holds(node, Held(items, pre + [x] + post), maxItems)
    requires idx == |pre| && idx <= |items| < maxItems
    modifies Own(node)
    ensures Holds(node, Held(Inserted(items, idx, item), pre + [x, right] + post), maxItems)
  {
    node.InsertAt(idx, item, right);
    InsertedSecond<Node?>(pre, x, right, post);
  }

  /** A full node of odd capacity is split into two halves around its middle item. */
  method SplitHeld(child: Node, leaf: bool, ghost maxItems: nat, ghost c: Tree)
    returns (median: Item, right: Node, ghost l: Tree, ghost r: Tree)
    requires c.node == child && (leaf <==> c.kids == []) && Holds(child, Held(c.items, Roots(c.kids)), maxItems)
    requires |c.items| == maxItems && maxItems % 2 == 1
    modifies child
    ensures fresh(Own(right)) && l.node == child && r.node == right
    ensures l.items + [median] + r.items == c.items && |l.items| == |r.items| == maxItems / 2
    ensures l.kids + r.kids == c.kids && (leaf ==> l.kids == [] && r.kids == [])
    ensures !leaf ==> |l.kids| == |r.kids| == maxItems / 2 + 1
    ensures Holds(l.node, Held(l.items, Roots(l.kids)), maxItems) && Holds(r.node, Held(r.items, Roots(r.kids)), maxItems)
  {
    median, right := child.Split(leaf);
    l, r := Divide(child, right, c.kids);
  }

  /** Both halves of the step; memory around the two nodes stays as it is. */
  method SplitBelow(node: Node, idx: nat, child: Node, leaf: bool, ghost maxItems: nat, ghost items: seq<Item>,
                    ghost pre: seq<Node?>, ghost c: Tree, ghost post: seq<Node?>, ghost rest: seq<Tree>)
    returns (median: Item, right: Node, ghost l: Tree, ghost r: Tree)
    requires Own(node) !! Own(child) && Own(node) + Own(child) !! FootK(rest) && RepK(rest, maxItems)
    requires Holds(node, Held(items, pre + [child] + post), maxItems) && idx == |pre| && idx <= |items| < maxItems
    requires c.node == child && (leaf <==> c.kids == []) && Holds(child, Held(c.items, Roots(c.kids)), maxItems)
    requires |c.items| == maxItems && maxItems % 2 == 1
    modifies Own(node), child
    ensures fresh(Own(right)) && l.node == child && r.node == right
    ensures l.items + [median] + r.items == c.items && |l.items| == |r.items| == maxItems / 2
    ensures l.kids + r.kids == c.kids && (leaf ==> l.kids == [] && r.kids == [])
    ensures !leaf ==> |l.kids| == |r.kids| == maxItems / 2 + 1
    ensures Holds(node, Held(Inserted(items, idx, median), pre + [child, right] + post), maxItems)
    ensures Holds(l.node, Held(l.items, Roots(l.kids)), maxItems) && Holds(r.node, Held(r.items, Roots(r.kids)), maxItems)
    ensures RepK(rest, maxItems) && Own(node) !! Own(child) !! Own(right) !! FootK(rest)
  {
    FootKAllocated(rest);
    hide Roots, RepK, FootK, Holds;
    median, right, l, r := SplitHeld(child, leaf, maxItems, c);
    InsertBehind(node, idx, median, right, maxItems, items, pre, child, post);
  }

  ghost function AfterSplit(t: Tree, idx: nat, median: Item, l: Tree, r: Tree): Tree
    requires idx < |t.kids| && idx <= |t.items|
  {
    Pair(t.node, Inserted(t.items, idx, median), t.kids[..idx], l, r, t.kids[idx + 1..])
  }

  method SplitChild(node: Node, idx: nat, leaf: bool, ghost t: Tree, ghost maxItems: nat)
    returns (median: Item, right: Node, ghost l: Tree, ghost r: Tree)
    requires Rep(t, maxItems) && t.node == node && idx < |t.kids| && idx <= |t.items| < maxItems
    requires |t.kids[idx].items| == maxItems && maxItems % 2 == 1 && (leaf <==> t.kids[idx].kids == [])
    modifies Foot(t)
    ensures fresh(Own(right)) && l.node == t.kids[idx].node && r.node == right
    ensures l.items + [median] + r.items == t.kids[idx].items && |l.items| == |r.items| == maxItems / 2
    ensures l.kids + r.kids == t.kids[idx].kids && (leaf ==> l.kids == [] && r.kids == [])
    ensures !leaf ==> |l.kids| == |r.kids| == maxItems / 2 + 1
    ensures Rep(AfterSplit(t, idx, median, l, r), maxItems)
    ensures Foot(AfterSplit(t, idx, median, l, r)) == Foot(t) + Own(right)
  {
    ghost var a, c, b := t.kids[..idx], t.kids[idx], t.kids[idx + 1..];
    OpenChild(t, idx, maxItems);
    hide Rep, RepK, FootK, Foot, Roots, Holds;
    RootsLength(a);
    var child := node.children[idx];
    median, right, l, r := SplitBelow(node, idx, child, leaf, maxItems, t.items, Roots(a), c, Roots(b), a + c.kids + b);
    AfterSplitRep(t, idx, median, l, r, maxItems);
  }

  lemma AfterSplitRep(t: Tree, idx: nat, median: Item, l: Tree, r: Tree, maxItems: nat)
    requires idx < |t.kids| && idx <= |t.items|
    requires var a, b := t.kids[..idx], t.kids[idx + 1..];
      Holds(t.node, Held(Inserted(t.items, idx, median), Roots(a) + [l.node, r.node] + Roots(b)), maxItems) &&
      RepK(a + t.kids[idx].kids + b, maxItems) &&
      Own(t.node) !! Own(l.node) !! Own(r.node) !! FootK(a + t.kids[idx].kids + b)
    requires l.kids + r.kids == t.kids[idx].kids
    requires Holds(l.node, Held(l.items, Roots(l.kids)), maxItems) && Holds(r.node, Held(r.items, Roots(r.kids)), maxItems)
    ensures Rep(AfterSplit(t, idx, median, l, r), maxItems)
    ensures Foot(AfterSplit(t, idx, median, l, r)) ==
      Own(t.node) + Own(l.node) + Own(r.node) + FootK(t.kids[..idx] + t.kids[idx].kids + t.kids[idx + 1..])
  {
    hide Rep, RepK, FootK, Foot, Roots, Holds;
    var a, b := t.kids[..idx], t.kids[idx + 1..];
    Assoc(a, l.kids, r.kids);
    PairRep(t.node, Inserted(t.items, idx, median), a, l, r, b, maxItems);
  }

  lemma RootsLength(kids: seq<Tree>)
    ensures |Roots(kids)| == |kids|
  {
  }

  /** A tree with its node and one child laid open. */
  lemma OpenChild(t: Tree, idx: nat, maxItems: nat)
    requires Rep(t, maxItems) && idx < |t.kids|
    ensures var a, c, b := t.kids[..idx], t.kids[idx], t.kids[idx + 1..];
      Holds(t.node, Held(t.items, Roots(a) + [c.node] + Roots(b)), maxItems) &&
      Holds(c.node, Held(c.items, Roots(c.kids)), maxItems) && RepK(a + c.kids + b, maxItems) &&
      Own(t.node) !! Own(c.node) !! FootK(a + c.kids + b) &&
      Foot(t) == Own(t.node) + Own(c.node) + FootK(a + c.kids + b)
    ensures idx < t.node.children.Length && t.node.children[idx] == t.kids[idx].node
  {
    var a, c, b := t.kids[..idx], t.kids[idx], t.kids[idx + 1..];
    assert t.kids == a + [c] + b;
    OpenKid(a, c, b, maxItems);
    RootsAt(a, c, b);
    assert t.node.Kids()[idx] == Roots(t.kids)[idx];
  }

  /** Splitting a child neither adds, drops nor reorders items. */
  lemma AfterSplitFlat(t: Tree, idx: nat, median: Item, l: Tree, r: Tree)
    requires |t.kids| == |t.items| + 1 && idx < |t.kids|
    requires l.items + [median] + r.items == t.kids[idx].items && l.kids + r.kids == t.kids[idx].kids
    requires Balanced(l.kids, l.items) && Balanced(r.kids, r.items) && (l.kids == [] <==> r.kids == [])
    ensures Flat(AfterSplit(t, idx, median, l, r)) == Flat(t)
  {
    var items := Inserted(t.items, idx, median);
    PairFlat(t.node, items, t.kids[..idx], l, r, t.kids[idx + 1..]);
    WeaveJoin(l.kids, l.items, median, r.kids, r.items);
    FrameAtPlug(t, idx);
    PlugFlat(FrameAt(t, idx), t.kids[idx]);
    assert items[..idx] == t.items[..idx] && items[idx] == median && items[idx + 1..] == t.items[idx..];
  }

  lemma AfterSplitShape(t: Tree, idx: nat, median: Item, l: Tree, r: Tree, h: nat, maxItems: nat)
    requires 1 <= h && Shape(t, h + 1, 0, maxItems) && idx < |t.kids| && |t.items| < maxItems && 2 <= maxItems
    requires l.kids + r.kids == t.kids[idx].kids && |l.items| == |r.items| == maxItems / 2
    requires h == 1 ==> l.kids == [] && r.kids == []
    requires h > 1 ==> |l.kids| == |r.kids| == maxItems / 2 + 1
    ensures Shape(AfterSplit(t, idx, median, l, r), h + 1, |t.items| + 1, maxItems)
  {
    var c := t.kids[idx];
    if h > 1 {
      assert forall i :: 0 <= i < |l.kids| ==> l.kids[i] == c.kids[i];
      assert forall i :: 0 <= i < |r.kids| ==> r.kids[i] == c.kids[|l.kids| + i];
    }
    assert Shape(l, h, maxItems / 2, maxItems);
    assert Shape(r, h, maxItems / 2, maxItems);
  }
}
