/** One step of deletion's way up: an inner node one of whose subtrees has lost an item too many. */
module BTreeRepair {
  import opened BTreeNode
  import opened BTreeSiblings
  import opened BTreeTree
  import opened BTreePath

  /** All subtrees below an inner node once two neighbouring children are laid open. */
  ghost function Rest(a: seq<Tree>, l: Tree, r: Tree, b: seq<Tree>): seq<Tree> {
    a + l.kids + r.kids + b
  }

  /** An inner node taken apart around two neighbouring subtrees, whose nodes are laid open too. */
  ghost predicate Opened(n: Node, items: seq<Item>, a: seq<Tree>, l: Tree, r: Tree, b: seq<Tree>, maxItems: nat)
    reads Own(n), Own(l.node), Own(r.node), FootK(Rest(a, l, r, b))
  {
    Holds(n, Held(items, Roots(a) + [l.node, r.node] + Roots(b)), maxItems) &&
    Holds(l.node, Held(l.items, Roots(l.kids)), maxItems) &&
    Holds(r.node, Held(r.items, Roots(r.kids)), maxItems) &&
    RepK(Rest(a, l, r, b), maxItems) &&
    Own(n) !! Own(l.node) !! Own(r.node) !! FootK(Rest(a, l, r, b))
  }

  ghost function Pair(n: Node, items: seq<Item>, a: seq<Tree>, l: Tree, r: Tree, b: seq<Tree>): Tree {
    Tree(n, items, a + [l, r] + b)
  }

  lemma PairRep(n: Node, items: seq<Item>, a: seq<Tree>, l: Tree, r: Tree, b: seq<Tree>, maxItems: nat)
    ensures Rep(Pair(n, items, a, l, r, b), maxItems) <==> Opened(n, items, a, l, r, b, maxItems)
    ensures Foot(Pair(n, items, a, l, r, b)) == Own(n) + Own(l.node) + Own(r.node) + FootK(Rest(a, l, r, b))
  {
    PairLists(a, l, r, b);
    OpenKid(a, l, [r] + b, maxItems);
    OpenKid(a + l.kids, r, b, maxItems);
    assert Roots(a + [l, r] + b) == Roots(a) + [l.node, r.node] + Roots(b);
  }

  lemma PairLists(a: seq<Tree>, l: Tree, r: Tree, b: seq<Tree>)
    ensures a + [l, r] + b == a + [l] + ([r] + b)
    ensures a + l.kids + ([r] + b) == a + l.kids + [r] + b
  {
  }

  lemma PairFlat(n: Node, items: seq<Item>, a: seq<Tree>, l: Tree, r: Tree, b: seq<Tree>)
    requires |items| == |a| + 1 + |b|
    ensures Flat(Pair(n, items, a, l, r, b)) ==
      Before(a, items[..|a|]) + (Flat(l) + [items[|a|]] + Flat(r)) + After(items[|a| + 1..], b)
  {
    var f := Frame(n, items, a, [r] + b);
    PairLists(a, l, r, b);
    PlugFlat(f, l);
    WeaveFirst(r, b, items[|a| + 1..]);
    var x, y, z := Flat(l), [items[|a|]], Flat(r);
    var w := After(items[|a| + 1..], b);
    assert items[|a|..][1..] == items[|a| + 1..];
    assert FramePost(f) == y + (z + w);
    Assoc(Before(a, items[..|a|]), x, y + (z + w));
    Assoc(x, y, z + w);
    Assoc(x + y, z, w);
    Assoc(Before(a, items[..|a|]), x + y + z, w);
  }

  // ---------------------------------------------------------------- merging

  /** l and r become one node around the separator. */
  ghost function Merged(items: seq<Item>, idx: nat, l: Tree, r: Tree): Tree
    requires idx < |items|
  {
    Tree(l.node, l.items + [items[idx]] + r.items, l.kids + r.kids)
  }

  ghost function AfterMerge(n: Node, items: seq<Item>, a: seq<Tree>, l: Tree, r: Tree, b: seq<Tree>): Tree
    requires |items| == |a| + 1 + |b|
  {
    Tree(n, Removed(items, |a|), a + [Merged(items, |a|, l, r)] + b)
  }

  lemma MergeFlat(n: Node, items: seq<Item>, a: seq<Tree>, l: Tree, r: Tree, b: seq<Tree>)
    requires |items| == |a| + 1 + |b|
    requires Balanced(l.kids, l.items) && Balanced(r.kids, r.items) && (l.kids == [] <==> r.kids == [])
    ensures Flat(AfterMerge(n, items, a, l, r, b)) == Flat(Pair(n, items, a, l, r, b))
  {
    PairFlat(n, items, a, l, r, b);
    WeaveJoin(l.kids, l.items, items[|a|], r.kids, r.items);
    WeaveAt(a, items[..|a|], Merged(items, |a|, l, r), items[|a| + 1..], b);
  }

  lemma MergeRep(n: Node, items: seq<Item>, a: seq<Tree>, l: Tree, r: Tree, b: seq<Tree>, maxItems: nat)
    requires |items| == |a| + 1 + |b|
    requires Holds(n, Held(Removed(items, |a|), Roots(a) + [l.node] + Roots(b)), maxItems)
    requires Holds(l.node, Held(l.items + [items[|a|]] + r.items, Roots(l.kids) + Roots(r.kids)), maxItems)
    requires RepK(Rest(a, l, r, b), maxItems) && Own(n) !! Own(l.node) !! FootK(Rest(a, l, r, b))
    ensures Rep(AfterMerge(n, items, a, l, r, b), maxItems)
    ensures Foot(AfterMerge(n, items, a, l, r, b)) <= Foot(Pair(n, items, a, l, r, b))
  {
    PairRep(n, items, a, l, r, b, maxItems);
    RootsAppend(l.kids, r.kids);
    Assoc(a, l.kids, r.kids);
    OpenKid(a, Merged(items, |a|, l, r), b, maxItems);
    RootsAt(a, Merged(items, |a|, l, r), b);
  }

  method MergeKids(parent: Node, idx: nat, left: Node, right: Node, leaf: bool,
                   ghost items: seq<Item>, ghost a: seq<Tree>, ghost l: Tree, ghost r: Tree, ghost b: seq<Tree>,
                   ghost maxItems: nat)
    requires Opened(parent, items, a, l, r, b, maxItems) && left == l.node && right == r.node
    requires idx == |a| && |items| == |a| + 1 + |b|
    requires (l.kids == [] <==> leaf) && (r.kids == [] <==> leaf)
    requires |l.items| + |r.items| < maxItems
    modifies Own(parent), Own(left)
    ensures Rep(AfterMerge(parent, items, a, l, r, b), maxItems)
    ensures Foot(AfterMerge(parent, items, a, l, r, b)) <= Foot(Pair(parent, items, a, l, r, b))
  {
    FootKAllocated(Rest(a, l, r, b));
    MergeNodes(parent, idx, left, right, leaf, maxItems,
               Held(items, Roots(a) + [left, right] + Roots(b)), Held(l.items, Roots(l.kids)), Held(r.items, Roots(r.kids)));
    RemovedSecond(Roots(a), left, right, Roots(b));
    MergeRep(parent, items, a, l, r, b, maxItems);
  }

  // ---------------------------------------------------------------- borrowing

  /** Moving the separator, and at most one subtree, across does not change the order of the items. */
  lemma RotateFlat(li: seq<Item>, lk: seq<Tree>, x: Item, moved: seq<Tree>, sep: Item, ri: seq<Item>, rk: seq<Tree>)
    requires Balanced(lk, li) && Balanced(rk, ri) && |moved| <= 1
    requires (moved == [] <==> lk == []) && (moved == [] <==> rk == [])
    ensures Weave(lk + moved, li + [x]) + [sep] + Weave(rk, ri) == Weave(lk, li) + [x] + Weave(moved + rk, [sep] + ri)
  {
    WeaveJoin(lk, li, x, moved, []);
    WeaveJoin(moved, [], sep, rk, ri);
    assert li + [x] + [] == li + [x];
    assert [] + [sep] + ri == [sep] + ri;
    Assoc(Weave(lk, li) + [x], Weave(moved, []) + [sep], Weave(rk, ri));
    Assoc(Weave(lk, li) + [x], Weave(moved, []), [sep]);
  }

  /** The two neighbours with moved on the left of the separator sep, and x the item in front of it. */
  ghost function LeftHeavy(n: Node, pre: seq<Item>, sep: Item, post: seq<Item>, a: seq<Tree>, l: Tree, x: Item,
                           moved: seq<Tree>, r: Tree, b: seq<Tree>): Tree
  {
    Pair(n, pre + [sep] + post, a, Tree(l.node, l.items + [x], l.kids + moved), r, b)
  }

  /** The same neighbours with x as the separator, and sep and moved on its right. */
  ghost function RightHeavy(n: Node, pre: seq<Item>, sep: Item, post: seq<Item>, a: seq<Tree>, l: Tree, x: Item,
                            moved: seq<Tree>, r: Tree, b: seq<Tree>): Tree
  {
    Pair(n, pre + [x] + post, a, l, Tree(r.node, [sep] + r.items, moved + r.kids), b)
  }

  lemma HeavyFlat(n: Node, pre: seq<Item>, sep: Item, post: seq<Item>, a: seq<Tree>, l: Tree, x: Item,
                  moved: seq<Tree>, r: Tree, b: seq<Tree>)
    requires |pre| == |a| && |post| == |b|
    requires Balanced(l.kids, l.items) && Balanced(r.kids, r.items) && |moved| <= 1
    requires (moved == [] <==> l.kids == []) && (moved == [] <==> r.kids == [])
    ensures Flat(LeftHeavy(n, pre, sep, post, a, l, x, moved, r, b)) ==
      Flat(RightHeavy(n, pre, sep, post, a, l, x, moved, r, b))
  {
    PairFlat(n, pre + [sep] + post, a, Tree(l.node, l.items + [x], l.kids + moved), r, b);
    PairFlat(n, pre + [x] + post, a, l, Tree(r.node, [sep] + r.items, moved + r.kids), b);
    assert (pre + [sep] + post)[..|a|] == pre == (pre + [x] + post)[..|a|];
    assert (pre + [sep] + post)[|a| + 1..] == post == (pre + [x] + post)[|a| + 1..];
    RotateFlat(l.items, l.kids, x, moved, sep, r.items, r.kids);
  }

  method BorrowLeftKids(parent: Node, idx: nat, left: Node, right: Node, leaf: bool,
                        ghost pre: seq<Item>, ghost sep: Item, ghost post: seq<Item>, ghost a: seq<Tree>, ghost l: Tree,
                        ghost x: Item, ghost moved: seq<Tree>, ghost r: Tree, ghost b: seq<Tree>, ghost maxItems: nat)
    requires Rep(LeftHeavy(parent, pre, sep, post, a, l, x, moved, r, b), maxItems)
    requires left == l.node && right == r.node && idx == |pre|
    requires (l.kids == [] <==> leaf) && (r.kids == [] <==> leaf) && |moved| == if leaf then 0 else 1
    requires |r.items| < maxItems
    modifies Own(parent), Own(left), Own(right)
    ensures Rep(RightHeavy(parent, pre, sep, post, a, l, x, moved, r, b), maxItems)
    ensures Foot(RightHeavy(parent, pre, sep, post, a, l, x, moved, r, b)) ==
      Foot(LeftHeavy(parent, pre, sep, post, a, l, x, moved, r, b))
  {
    ghost var l1 := Tree(left, l.items + [x], l.kids + moved);
    ghost var r1 := Tree(right, [sep] + r.items, moved + r.kids);
    PairRep(parent, pre + [sep] + post, a, l1, r, b, maxItems);
    RootsAppend(l.kids, moved);
    FootKAllocated(Rest(a, l1, r, b));
    BorrowFromLeftNode(parent, idx, left, right, leaf, maxItems,
      pre, sep, post, Roots(a) + [left, right] + Roots(b), Held(l.items, Roots(l.kids)), x, Roots(moved),
      Held(r.items, Roots(r.kids)));
    RotateRest(a, l, moved, r, b, x, sep);
    RootsAppend(moved, r.kids);
    PairRep(parent, pre + [x] + post, a, l, r1, b, maxItems);
  }

  lemma RotateRest(a: seq<Tree>, l: Tree, moved: seq<Tree>, r: Tree, b: seq<Tree>, x: Item, sep: Item)
    ensures Rest(a, Tree(l.node, l.items + [x], l.kids + moved), r, b) ==
      Rest(a, l, Tree(r.node, [sep] + r.items, moved + r.kids), b)
  {
  }

  method BorrowRightKids(parent: Node, idx: nat, left: Node, right: Node, leaf: bool,
                         ghost pre: seq<Item>, ghost sep: Item, ghost post: seq<Item>, ghost a: seq<Tree>, ghost l: Tree,
                         ghost x: Item, ghost moved: seq<Tree>, ghost r: Tree, ghost b: seq<Tree>, ghost maxItems: nat)
    requires Rep(RightHeavy(parent, pre, sep, post, a, l, x, moved, r, b), maxItems)
    requires left == l.node && right == r.node && idx == |pre|
    requires (l.kids == [] <==> leaf) && (r.kids == [] <==> leaf) && |moved| == if leaf then 0 else 1
    requires |l.items| < maxItems
    modifies Own(parent), Own(left), Own(right)
    ensures Rep(LeftHeavy(parent, pre, sep, post, a, l, x, moved, r, b), maxItems)
    ensures Foot(LeftHeavy(parent, pre, sep, post, a, l, x, moved, r, b)) ==
      Foot(RightHeavy(parent, pre, sep, post, a, l, x, moved, r, b))
  {
    ghost var l1 := Tree(left, l.items + [x], l.kids + moved);
    ghost var r1 := Tree(right, [sep] + r.items, moved + r.kids);
    PairRep(parent, pre + [x] + post, a, l, r1, b, maxItems);
    RootsAppend(moved, r.kids);
    FootKAllocated(Rest(a, l, r1, b));
    BorrowFromRightNode(parent, idx, left, right, leaf, maxItems,
      pre, x, post, Roots(a) + [left, right] + Roots(b), Held(l.items, Roots(l.kids)), sep, Roots(moved),
      Held(r.items, Roots(r.kids)));
    RotateRest(a, l, moved, r, b, x, sep);
    RootsAppend(l.kids, moved);
    PairRep(parent, pre + [sep] + post, a, l1, r, b, maxItems);
  }
}
