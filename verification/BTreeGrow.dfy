/** Insertion's work on single nodes: taking in an item together with the subtree to its right, and splitting. */
module BTreeGrow {
  import opened BTreeNode
  import opened BTreeTree
  import opened BTreePath

  /** The subtrees once the pending one, if there is one, stands behind subtree idx. */
  ghost function WithKid(kids: seq<Tree>, idx: nat, pending: seq<Tree>): seq<Tree>
    requires |pending| <= 1 && (pending == [] || idx < |kids|)
  {
    if pending == [] then kids else Inserted(kids, idx + 1, pending[0])
  }

  /** An item, and at most one subtree that belongs to its right, are still to go into t. */
  ghost predicate Pending(t: Tree, idx: nat, pending: seq<Tree>) {
    idx <= |t.items| && |pending| <= 1 && (pending == [] <==> t.kids == []) &&
    (t.kids == [] || |t.kids| == |t.items| + 1)
  }

  /** The items once the pending ones are in. */
  ghost function PendingFlat(t: Tree, idx: nat, item: Item, pending: seq<Tree>): seq<Item>
    requires Pending(t, idx, pending)
  {
    Weave(WithKid(t.kids, idx, pending), Inserted(t.items, idx, item))
  }

  /** The node with the pending item and subtree in place, whether there is room or not. */
  ghost function TakenIn(t: Tree, idx: nat, item: Item, pending: seq<Tree>): Tree {
    if Pending(t, idx, pending) then Tree(t.node, Inserted(t.items, idx, item), WithKid(t.kids, idx, pending)) else t
  }

  lemma RootsWithKid(kids: seq<Tree>, idx: nat, pending: seq<Tree>)
    requires |pending| <= 1 && (pending == [] || idx < |kids|)
    ensures pending == [] ==> Roots(WithKid(kids, idx, pending)) == Roots(kids)
    ensures pending != [] ==> Roots(WithKid(kids, idx, pending)) == Inserted(Roots(kids), idx + 1, pending[0].node)
  {
  }

  lemma RepWithKid(kids: seq<Tree>, idx: nat, pending: seq<Tree>, maxItems: nat)
    requires |pending| <= 1 && (pending == [] || idx < |kids|)
    ensures FootK(WithKid(kids, idx, pending)) == FootK(kids) + FootK(pending)
    ensures RepK(WithKid(kids, idx, pending), maxItems) <==>
      RepK(kids, maxItems) && RepK(pending, maxItems) && FootK(kids) !! FootK(pending)
  {
    if pending != [] {
      var a, b := kids[..idx + 1], kids[idx + 1..];
      assert kids == a + b && pending == [pending[0]];
      KidsAt(a, pending[0], b, maxItems);
      RepAppend(a, b, maxItems);
      RepOne(pending[0], maxItems);
    }
  }

  /** A node with room takes in the pending item and subtree. */
  method TakeIn(node: Node, idx: nat, item: Item, right: Node?, ghost t: Tree, ghost pending: seq<Tree>, ghost maxItems: nat)
    returns (ghost q: Tree)
    requires Rep(t, maxItems) && RepK(pending, maxItems) && Foot(t) !! FootK(pending) && t.node == node
    requires Pending(t, idx, pending) && |t.items| < maxItems
    requires if pending == [] then right == null else right == pending[0].node
    modifies Own(node)
    ensures q == Tree(node, Inserted(t.items, idx, item), WithKid(t.kids, idx, pending))
    ensures Rep(q, maxItems) && Foot(q) == Foot(t) + FootK(pending)
  {
    FootKAllocated(t.kids);
    FootKAllocated(pending);
    node.InsertAt(idx, item, right);
    q := Tree(node, Inserted(t.items, idx, item), WithKid(t.kids, idx, pending));
    RootsWithKid(t.kids, idx, pending);
    RepWithKid(t.kids, idx, pending, maxItems);
  }

  lemma TakenInShape(t: Tree, idx: nat, item: Item, pending: seq<Tree>, h: nat, lo: nat, maxItems: nat)
    requires Pending(t, idx, pending) && |t.items| < maxItems && Shape(t, h, lo, maxItems)
    requires h > 1 ==> Shapes(pending, h - 1, maxItems)
    ensures Shape(Tree(t.node, Inserted(t.items, idx, item), WithKid(t.kids, idx, pending)), h, lo, maxItems)
  {
  }

  /** A full node of even capacity takes in the pending item and subtree and splits. */
  method TakeInAndSplit(node: Node, idx: nat, item: Item, right: Node?, ghost t: Tree, ghost pending: seq<Tree>,
                        ghost maxItems: nat)
    returns (median: Item, newNode: Node, ghost l: Tree, ghost r: Tree)
    requires Rep(t, maxItems) && RepK(pending, maxItems) && Foot(t) !! FootK(pending) && t.node == node
    requires Pending(t, idx, pending) && |t.items| == maxItems && maxItems % 2 == 0 && 2 <= maxItems
    requires if pending == [] then right == null else right == pending[0].node
    modifies Own(node)
    ensures l.node == node && r.node == newNode && fresh(Own(newNode))
    ensures |l.items| == |r.items| == maxItems / 2
    ensures l.items + [median] + r.items == Inserted(t.items, idx, item)
    ensures l.kids + r.kids == WithKid(t.kids, idx, pending)
    ensures t.kids == [] ==> l.kids == [] && r.kids == []
    ensures t.kids != [] ==> |l.kids| == |r.kids| == maxItems / 2 + 1
    ensures Holds(l.node, Held(l.items, Roots(l.kids)), maxItems) && Holds(r.node, Held(r.items, Roots(r.kids)), maxItems)
    ensures RepK(l.kids + r.kids, maxItems) && FootK(l.kids + r.kids) == FootK(t.kids) + FootK(pending)
  {
    FootKAllocated(t.kids);
    FootKAllocated(pending);
    median, newNode := node.SplitAndInsert(idx, item, right);
    RootsWithKid(t.kids, idx, pending);
    RepWithKid(t.kids, idx, pending, maxItems);
    l, r := Divide(node, newNode, WithKid(t.kids, idx, pending));
  }

  /** Reads the two halves of a split back from memory. */
  lemma Divide(node: Node, newNode: Node, kids: seq<Tree>) returns (l: Tree, r: Tree)
    requires node.Fits() && newNode.Fits() && node.numItems == newNode.numItems
    requires node.Kids() + newNode.Kids() == Roots(kids)
    requires kids == [] <==> node.children.Length == 0
    requires kids == [] <==> newNode.children.Length == 0
    ensures l.node == node && r.node == newNode && l.kids + r.kids == kids
    ensures node.Items() == l.items && node.Kids() == Roots(l.kids)
    ensures newNode.Items() == r.items && newNode.Kids() == Roots(r.kids)
    ensures kids == [] ==> l.kids == [] && r.kids == []
    ensures kids != [] ==> |l.kids| == |r.kids| == node.numItems + 1
  {
    var m := if kids == [] then 0 else node.numItems + 1;
    l, r := Tree(node, node.Items(), kids[..m]), Tree(newNode, newNode.Items(), kids[m..]);
    var both := node.Kids() + newNode.Kids();
    assert node.Kids() == both[..m] && newNode.Kids() == both[m..];
    assert Roots(l.kids) == Roots(kids)[..m] && Roots(r.kids) == Roots(kids)[m..];
  }

  /** Both halves are proper trees again, and nothing is lost: half, median, half. */
  lemma SplitDone(t: Tree, idx: nat, item: Item, pending: seq<Tree>, median: Item, l: Tree, r: Tree, h: nat, lo: nat, maxItems: nat)
    requires Pending(t, idx, pending) && |t.items| == maxItems && maxItems % 2 == 0 && 2 <= maxItems
    requires Shape(t, h, lo, maxItems) && (h > 1 ==> Shapes(pending, h - 1, maxItems))
    requires |l.items| == |r.items| == maxItems / 2
    requires l.items + [median] + r.items == Inserted(t.items, idx, item)
    requires l.kids + r.kids == WithKid(t.kids, idx, pending)
    requires t.kids == [] ==> l.kids == [] && r.kids == []
    requires t.kids != [] ==> |l.kids| == |r.kids| == maxItems / 2 + 1
    ensures Shape(l, h, maxItems / 2, maxItems) && Shape(r, h, maxItems / 2, maxItems)
    ensures Flat(l) + [median] + Flat(r) == PendingFlat(t, idx, item, pending)
  {
    WeaveJoin(l.kids, l.items, median, r.kids, r.items);
    if h > 1 {
      HalvesShape(t, idx, pending, l, r, h, maxItems);
    }
  }

  lemma HalvesShape(t: Tree, idx: nat, pending: seq<Tree>, l: Tree, r: Tree, h: nat, maxItems: nat)
    requires Pending(t, idx, pending) && 1 < h
    requires Shapes(t.kids, h - 1, maxItems) && Shapes(pending, h - 1, maxItems)
    requires l.kids + r.kids == WithKid(t.kids, idx, pending)
    ensures Shapes(l.kids, h - 1, maxItems) && Shapes(r.kids, h - 1, maxItems)
  {
    hide Shape;
    var all := WithKid(t.kids, idx, pending);
    assert Shapes(all, h - 1, maxItems);
    assert forall i :: 0 <= i < |l.kids| ==> l.kids[i] == all[i];
    assert forall i :: 0 <= i < |r.kids| ==> r.kids[i] == all[|l.kids| + i];
  }

  lemma SplitRep(l: Tree, r: Tree, maxItems: nat)
    requires Holds(l.node, Held(l.items, Roots(l.kids)), maxItems) && Holds(r.node, Held(r.items, Roots(r.kids)), maxItems)
    requires RepK(l.kids + r.kids, maxItems) && Own(l.node) !! Own(r.node) !! FootK(l.kids + r.kids)
    ensures Rep(l, maxItems) && Rep(r, maxItems) && Foot(l) !! Foot(r)
    ensures Foot(l) + Foot(r) == Own(l.node) + Own(r.node) + FootK(l.kids + r.kids)
  {
    RepAppend(l.kids, r.kids, maxItems);
  }
}
