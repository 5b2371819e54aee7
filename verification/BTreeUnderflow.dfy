/** Deletion's repair of one underfull child: which sibling is chosen and what comes out. */
module BTreeUnderflow {
  import opened BTreeNode
  import opened BTreeTree
  import opened BTreePath
  import opened BTreeRepair

  /** An inner node all of whose subtrees have height h; subtree idx is one item short. */
  ghost predicate Underfull(p: Tree, idx: nat, h: nat, maxItems: nat) {
    1 <= |p.items| <= maxItems && |p.kids| == |p.items| + 1 && idx < |p.kids| && 2 <= maxItems &&
    |p.kids[idx].items| == maxItems / 2 - 1 &&
    Shape(p.kids[idx], h, maxItems / 2 - 1, maxItems) &&
    forall i :: 0 <= i < |p.kids| && i != idx ==> Shape(p.kids[i], h, maxItems / 2, maxItems)
  }

  /** The repaired node: same items in the same order, no memory but the old one, at most one item less. */
  ghost predicate Repaired(p: Tree, q: Tree, h: nat, maxItems: nat) {
    p.items != [] && q.node == p.node && Foot(q) <= Foot(p) && Flat(q) == Flat(p) &&
    Shape(q, h + 1, |p.items| - 1, maxItems)
  }

  /** Chooses the left one of the two neighbours to work on; prefers to merge with the left sibling. */
  method PickNeighbours(node: Node, idx: nat, maxItems: nat, ghost p: Tree) returns (i: nat)
    requires Rep(p, maxItems) && p.node == node && idx < |p.kids| && |p.kids| == |p.items| + 1 && p.items != []
    ensures i == idx || i + 1 == idx
    ensures i + 1 < |p.kids|
    ensures i + 1 == idx <==> idx == |p.items| || (idx > 0 && |p.kids[idx - 1].items| + |p.kids[idx].items| < maxItems)
  {
    i := idx;
    KidInMemory(p, idx, maxItems);
    if idx == node.numItems {
      i := idx - 1;
    } else if idx != 0 {
      KidInMemory(p, idx - 1, maxItems);
      if node.children[idx - 1].numItems + node.children[idx].numItems < maxItems {
        i := idx - 1;
      }
    }
  }

  /** Which of two neighbours may have how many items, when one of them is one item short. */
  ghost predicate Neighbours(l: Tree, r: Tree, h: nat, maxItems: nat) {
    2 <= maxItems &&
    ((Shape(l, h, maxItems / 2, maxItems) && Shape(r, h, maxItems / 2 - 1, maxItems) && |r.items| == maxItems / 2 - 1) ||
     (Shape(l, h, maxItems / 2 - 1, maxItems) && Shape(r, h, maxItems / 2, maxItems) && |l.items| == maxItems / 2 - 1))
  }

  lemma PairParts(p: Tree, i: nat)
    requires i + 1 < |p.kids| && |p.kids| == |p.items| + 1
    ensures p == Pair(p.node, p.items, p.kids[..i], p.kids[i], p.kids[i + 1], p.kids[i + 2..])
    ensures p.items == p.items[..i] + [p.items[i]] + p.items[i + 1..]
  {
  }

  lemma MergeShape(n: Node, items: seq<Item>, a: seq<Tree>, l: Tree, r: Tree, b: seq<Tree>, h: nat, maxItems: nat)
    requires |items| == |a| + 1 + |b| <= maxItems
    requires Shapes(a, h, maxItems) && Shapes(b, h, maxItems) && Neighbours(l, r, h, maxItems)
    requires |l.items| + |r.items| < maxItems
    ensures Shape(AfterMerge(n, items, a, l, r, b), h + 1, |items| - 1, maxItems)
  {
    var m := Merged(items, |a|, l, r);
    assert Shape(m, h, maxItems / 2, maxItems);
  }

  lemma RotatedShape(n: Node, items: seq<Item>, a: seq<Tree>, l: Tree, r: Tree, b: seq<Tree>, h: nat, maxItems: nat)
    requires |items| == |a| + 1 + |b| <= maxItems
    requires Shapes(a, h, maxItems) && Shapes(b, h, maxItems) && Shapes([l, r], h, maxItems) && 1 <= h
    ensures Shape(Pair(n, items, a, l, r, b), h + 1, |items| - 1, maxItems)
  {
    assert [l, r][0] == l && [l, r][1] == r;
  }

  /** Item x, and the subtree next to it if there is one, has moved from the end of l1 to the front of r1. */
  ghost predicate Shifted(l1: Tree, r: Tree, l: Tree, r1: Tree, x: Item, sep: Item, moved: seq<Tree>) {
    |moved| <= 1 && Balanced(l.kids, l.items) && Balanced(r.kids, r.items) &&
    (moved == [] <==> l.kids == []) && (moved == [] <==> r.kids == []) &&
    l1 == Tree(l.node, l.items + [x], l.kids + moved) && r1 == Tree(r.node, [sep] + r.items, moved + r.kids)
  }

  lemma ShiftRightShape(l1: Tree, r: Tree, l: Tree, r1: Tree, x: Item, sep: Item, moved: seq<Tree>, h: nat, maxItems: nat)
    requires Shifted(l1, r, l, r1, x, sep, moved)
    requires Neighbours(l1, r, h, maxItems) && |l1.items| + |r.items| >= maxItems && |l1.items| > |r.items|
    ensures Shapes([l, r1], h, maxItems)
  {
    assert forall i :: 0 <= i < |l.kids| ==> l.kids[i] == l1.kids[i];
    assert forall i :: 0 <= i < |moved| ==> moved[i] == l1.kids[|l.kids| + i];
    assert Shape(l, h, maxItems / 2, maxItems);
    assert Shape(r1, h, maxItems / 2, maxItems);
  }

  lemma ShiftLeftShape(l1: Tree, r: Tree, l: Tree, r1: Tree, x: Item, sep: Item, moved: seq<Tree>, h: nat, maxItems: nat)
    requires Shifted(l1, r, l, r1, x, sep, moved)
    requires Neighbours(l, r1, h, maxItems) && |l.items| + |r1.items| >= maxItems && |l.items| <= |r1.items|
    ensures Shapes([l1, r], h, maxItems)
  {
    assert forall i :: 0 <= i < |r.kids| ==> r.kids[i] == r1.kids[|moved| + i];
    assert forall i :: 0 <= i < |moved| ==> moved[i] == r1.kids[i];
    assert Shape(l1, h, maxItems / 2, maxItems);
    assert Shape(r, h, maxItems / 2, maxItems);
  }

  method RepairByMerge(node: Node, i: nat, left: Node, right: Node, leaf: bool, ghost p: Tree, ghost h: nat, ghost maxItems: nat)
    returns (ghost q: Tree)
    requires Rep(p, maxItems) && p.node == node && 1 <= |p.items| <= maxItems && |p.kids| == |p.items| + 1
    requires i + 1 < |p.kids| && left == p.kids[i].node && right == p.kids[i + 1].node
    requires Neighbours(p.kids[i], p.kids[i + 1], h, maxItems) && (leaf <==> h == 1)
    requires Shapes(p.kids[..i], h, maxItems) && Shapes(p.kids[i + 2..], h, maxItems)
    requires |p.kids[i].items| + |p.kids[i + 1].items| < maxItems
    modifies Foot(p)
    ensures Rep(q, maxItems) && Repaired(p, q, h, maxItems)
  {
    ghost var a, l, r, b := p.kids[..i], p.kids[i], p.kids[i + 1], p.kids[i + 2..];
    PairParts(p, i);
    PairRep(node, p.items, a, l, r, b, maxItems);
    MergeKids(node, i, left, right, leaf, p.items, a, l, r, b, maxItems);
    q := AfterMerge(node, p.items, a, l, r, b);
    MergeFlat(node, p.items, a, l, r, b);
    MergeShape(node, p.items, a, l, r, b, h, maxItems);
  }

  /** How the last item and subtree of l1 come off. */
  lemma SplitLast(l1: Tree) returns (l: Tree, x: Item, moved: seq<Tree>)
    requires l1.items != [] && (l1.kids == [] || |l1.kids| == |l1.items| + 1)
    ensures l1 == Tree(l.node, l.items + [x], l.kids + moved) && l.node == l1.node
    ensures |moved| <= 1 && (moved == [] <==> l1.kids == []) && (moved == [] <==> l.kids == [])
    ensures Balanced(l.kids, l.items)
  {
    var n, k := |l1.items| - 1, |l1.kids| - 1;
    x := l1.items[n];
    if l1.kids == [] {
      l, moved := Tree(l1.node, l1.items[..n], []), [];
      assert l1.kids == l.kids + moved;
    } else {
      l, moved := Tree(l1.node, l1.items[..n], l1.kids[..k]), [l1.kids[k]];
    }
  }

  /** How the first item and subtree of r1 come off. */
  lemma SplitFirst(r1: Tree) returns (r: Tree, sep: Item, moved: seq<Tree>)
    requires r1.items != [] && (r1.kids == [] || |r1.kids| == |r1.items| + 1)
    ensures r1 == Tree(r.node, [sep] + r.items, moved + r.kids) && r.node == r1.node
    ensures |moved| <= 1 && (moved == [] <==> r1.kids == []) && (moved == [] <==> r.kids == [])
    ensures Balanced(r.kids, r.items)
  {
    sep := r1.items[0];
    if r1.kids == [] {
      r, moved := Tree(r1.node, r1.items[1..], []), [];
      assert r1.kids == moved + r.kids;
    } else {
      r, moved := Tree(r1.node, r1.items[1..], r1.kids[1..]), [r1.kids[0]];
    }
  }

  method RepairFromLeft(node: Node, i: nat, left: Node, right: Node, leaf: bool, ghost p: Tree, ghost h: nat, ghost maxItems: nat)
    returns (ghost q: Tree)
    requires Rep(p, maxItems) && p.node == node && 1 <= |p.items| <= maxItems && |p.kids| == |p.items| + 1
    requires i + 1 < |p.kids| && left == p.kids[i].node && right == p.kids[i + 1].node
    requires Neighbours(p.kids[i], p.kids[i + 1], h, maxItems) && (leaf <==> h == 1)
    requires Shapes(p.kids[..i], h, maxItems) && Shapes(p.kids[i + 2..], h, maxItems)
    requires |p.kids[i].items| + |p.kids[i + 1].items| >= maxItems && |p.kids[i].items| > |p.kids[i + 1].items|
    modifies Foot(p)
    ensures Rep(q, maxItems) && Repaired(p, q, h, maxItems)
  {
    ghost var a, l1, r, b := p.kids[..i], p.kids[i], p.kids[i + 1], p.kids[i + 2..];
    ghost var pre, sep, post := p.items[..i], p.items[i], p.items[i + 1..];
    PairParts(p, i);
    ghost var l, x, moved := SplitLast(l1);
    PairRep(node, p.items, a, l1, r, b, maxItems);
    BorrowLeftKids(node, i, left, right, leaf, pre, sep, post, a, l, x, moved, r, b, maxItems);
    q := RightHeavy(node, pre, sep, post, a, l, x, moved, r, b);
    HeavyFlat(node, pre, sep, post, a, l, x, moved, r, b);
    ghost var r1 := Tree(r.node, [sep] + r.items, moved + r.kids);
    ShiftRightShape(l1, r, l, r1, x, sep, moved, h, maxItems);
    RotatedShape(node, pre + [x] + post, a, l, r1, b, h, maxItems);
  }

  method RepairFromRight(node: Node, i: nat, left: Node, right: Node, leaf: bool, ghost p: Tree, ghost h: nat, ghost maxItems: nat)
    returns (ghost q: Tree)
    requires Rep(p, maxItems) && p.node == node && 1 <= |p.items| <= maxItems && |p.kids| == |p.items| + 1
    requires i + 1 < |p.kids| && left == p.kids[i].node && right == p.kids[i + 1].node
    requires Neighbours(p.kids[i], p.kids[i + 1], h, maxItems) && (leaf <==> h == 1)
    requires Shapes(p.kids[..i], h, maxItems) && Shapes(p.kids[i + 2..], h, maxItems)
    requires |p.kids[i].items| + |p.kids[i + 1].items| >= maxItems && |p.kids[i].items| <= |p.kids[i + 1].items|
    modifies Foot(p)
    ensures Rep(q, maxItems) && Repaired(p, q, h, maxItems)
  {
    ghost var a, l, r1, b := p.kids[..i], p.kids[i], p.kids[i + 1], p.kids[i + 2..];
    ghost var pre, x, post := p.items[..i], p.items[i], p.items[i + 1..];
    PairParts(p, i);
    ghost var r, sep, moved := SplitFirst(r1);
    PairRep(node, p.items, a, l, r1, b, maxItems);
    BorrowRightKids(node, i, left, right, leaf, pre, sep, post, a, l, x, moved, r, b, maxItems);
    q := LeftHeavy(node, pre, sep, post, a, l, x, moved, r, b);
    HeavyFlat(node, pre, sep, post, a, l, x, moved, r, b);
    ghost var l1 := Tree(l.node, l.items + [x], l.kids + moved);
    ShiftLeftShape(l1, r, l, r1, x, sep, moved, h, maxItems);
    RotatedShape(node, pre + [sep] + post, a, l1, r, b, h, maxItems);
  }

  /** The pair that was picked contains the underfull child. */
  lemma PickedPair(p: Tree, idx: nat, i: nat, h: nat, maxItems: nat)
    requires Underfull(p, idx, h, maxItems) && (i == idx || i + 1 == idx) && i + 1 < |p.kids|
    ensures Neighbours(p.kids[i], p.kids[i + 1], h, maxItems)
    ensures Shapes(p.kids[..i], h, maxItems) && Shapes(p.kids[i + 2..], h, maxItems)
  {
  }

  /** One round of deletion's way up: the node's subtree idx is one item short and gets repaired. */
  method RepairChild(node: Node, idx: nat, leaf: bool, maxItems: nat, ghost p: Tree, ghost h: nat)
    returns (ghost q: Tree)
    requires Rep(p, maxItems) && p.node == node
    requires Underfull(p, idx, h, maxItems) && (leaf <==> h == 1)
    modifies Foot(p)
    ensures Rep(q, maxItems) && Repaired(p, q, h, maxItems)
  {
    FootAllocated(p);
    var i := PickNeighbours(node, idx, maxItems, p);
    KidInMemory(p, i, maxItems);
    KidInMemory(p, i + 1, maxItems);
    PickedPair(p, idx, i, h, maxItems);
    var left, right := node.children[i], node.children[i + 1];
    if left.numItems + right.numItems < maxItems {
      q := RepairByMerge(node, i, left, right, leaf, p, h, maxItems);
    } else if left.numItems > right.numItems {
      q := RepairFromLeft(node, i, left, right, leaf, p, h, maxItems);
    } else {
      q := RepairFromRight(node, i, left, right, leaf, p, h, maxItems);
    }
  }
}
