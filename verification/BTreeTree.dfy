/** The tree that a B-tree's nodes form in memory: its shape, its in-order items, and the heap
    predicate that ties a tree value to the nodes. */
module BTreeTree {
  import opened BTreeNode

  /** One node with the items it holds and the subtrees below it; a leaf has no subtrees. */
  datatype Tree = Tree(node: Node, items: seq<Item>, kids: seq<Tree>)

  /** Subtrees and separators in order: kids[0], items[0], kids[1], ...; without kids, just the items. */
  ghost function Weave(kids: seq<Tree>, items: seq<Item>): seq<Item>
    decreases kids, 0
  {
    if kids == [] then items
    else if items == [] then Flat(kids[0])
    else Flat(kids[0]) + [items[0]] + Weave(kids[1..], items[1..])
  }

  /** The items of a tree in order. */
  ghost function Flat(t: Tree): seq<Item>
    decreases t, 1
  {
    Weave(t.kids, t.items)
  }

  /** The number of subtrees a node with this many items has. */
  ghost predicate Balanced(kids: seq<Tree>, items: seq<Item>) {
    kids == [] || |kids| == |items| + 1
  }

  /** Two nodes around a separator read like one node: what every split, merge and rotation rests on. */
  lemma {:induction false} WeaveJoin(k1: seq<Tree>, i1: seq<Item>, x: Item, k2: seq<Tree>, i2: seq<Item>)
    requires Balanced(k1, i1) && Balanced(k2, i2) && (k1 == [] <==> k2 == [])
    ensures Weave(k1 + k2, i1 + [x] + i2) == Weave(k1, i1) + [x] + Weave(k2, i2)
    decreases |k1|
  {
    if k1 == [] {
      assert k1 + k2 == [];
    } else if i1 == [] {
      assert (k1 + k2)[1..] == k2;
      assert (i1 + [x] + i2)[1..] == i2;
    } else {
      assert (k1 + k2)[1..] == k1[1..] + k2;
      assert (i1 + [x] + i2)[1..] == i1[1..] + [x] + i2;
      WeaveJoin(k1[1..], i1[1..], x, k2, i2);
    }
  }

  /** Subtrees with the separator that follows each of them. */
  ghost function Before(kids: seq<Tree>, items: seq<Item>): seq<Item>
    requires |kids| == |items|
  {
    if kids == [] then [] else Weave(kids, items[..|items| - 1]) + [items[|items| - 1]]
  }

  /** Subtrees with the separator in front of each of them. */
  ghost function After(items: seq<Item>, kids: seq<Tree>): seq<Item>
    requires |kids| == |items|
  {
    if kids == [] then [] else [items[0]] + Weave(kids, items[1..])
  }

  lemma Assoc<T>(a: seq<T>, b: seq<T>, c: seq<T>)
    ensures a + b + c == a + (b + c)
  {
  }

  lemma WeaveFirst(t: Tree, right: seq<Tree>, items: seq<Item>)
    requires |items| == |right|
    ensures Weave([t] + right, items) == Flat(t) + After(items, right)
  {
    assert ([t] + right)[1..] == right;
  }

  lemma WeaveBehind(left: seq<Tree>, a: seq<Item>, x: Item, t: Tree, b: seq<Item>, right: seq<Tree>)
    requires |left| == |a| + 1 && |b| == |right|
    ensures Weave(left + [t] + right, a + [x] + b) == Weave(left, a) + [x] + Flat(t) + After(b, right)
  {
    WeaveJoin(left, a, x, [t] + right, b);
    WeaveFirst(t, right, b);
    hide Weave, Flat, After;
    Assoc(left, [t], right);
    Assoc(Weave(left, a) + [x], Flat(t), After(b, right));
  }

  /** An inner node reads as what is left of one subtree, that subtree, and what is right of it. */
  lemma WeaveAt(left: seq<Tree>, a: seq<Item>, t: Tree, b: seq<Item>, right: seq<Tree>)
    requires |a| == |left| && |b| == |right|
    ensures Weave(left + [t] + right, a + b) == Before(left, a) + Flat(t) + After(b, right)
  {
    if left == [] {
      WeaveFirst(t, right, b);
      assert left + [t] + right == [t] + right && a + b == b;
    } else {
      var n := |a| - 1;
      WeaveBehind(left, a[..n], a[n], t, b, right);
      assert a == a[..n] + [a[n]];
    }
  }

  /** Height h with all leaves at the bottom, at least lo items in this node and at least half of
      the capacity in every node below. */
  ghost predicate Shape(t: Tree, h: nat, lo: nat, maxItems: nat)
    decreases h
  {
    1 <= h && lo <= |t.items| <= maxItems &&
    if h == 1 then t.kids == []
    else |t.kids| == |t.items| + 1 && forall i :: 0 <= i < |t.kids| ==> Shape(t.kids[i], h - 1, maxItems / 2, maxItems)
  }

  /** All trees of a list have height h and regular occupancy. */
  ghost predicate Shapes(kids: seq<Tree>, h: nat, maxItems: nat) {
    forall i :: 0 <= i < |kids| ==> Shape(kids[i], h, maxItems / 2, maxItems)
  }

  ghost function Pow2(n: nat): nat {
    if n == 0 then 1 else 2 * Pow2(n - 1)
  }

  /** (minItems + 1) ^ n */
  ghost function MinFan(n: nat, maxItems: nat): nat {
    if n == 0 then 1 else (maxItems / 2 + 1) * MinFan(n - 1, maxItems)
  }

  lemma MulMonotone(a: int, b: int, c: nat)
    requires a <= b
    ensures a * c <= b * c
  {
    assert (b - a) * c >= 0;
  }

  lemma {:induction false} WeaveSize(kids: seq<Tree>, items: seq<Item>, h: nat, maxItems: nat)
    requires 2 <= maxItems && |kids| == |items| + 1 && Shapes(kids, h, maxItems)
    ensures |Weave(kids, items)| + 1 >= |kids| * MinFan(h, maxItems)
    decreases h, |kids|
  {
    SubtreeSize(kids[0], h, maxItems);
    if items != [] {
      WeaveSize(kids[1..], items[1..], h, maxItems);
      assert |kids| * MinFan(h, maxItems) == MinFan(h, maxItems) + (|kids| - 1) * MinFan(h, maxItems);
    }
  }

  /** A non-root tree of height h holds at least (minItems + 1)^h - 1 items. */
  lemma {:induction false} SubtreeSize(t: Tree, h: nat, maxItems: nat)
    requires 2 <= maxItems && Shape(t, h, maxItems / 2, maxItems)
    ensures |Flat(t)| + 1 >= MinFan(h, maxItems)
    decreases h, 0
  {
    if h == 1 {
      assert MinFan(0, maxItems) == 1;
    } else {
      WeaveSize(t.kids, t.items, h - 1, maxItems);
      MulMonotone(maxItems / 2 + 1, |t.kids|, MinFan(h - 1, maxItems));
    }
  }

  lemma {:induction false} MinFanGrows(n: nat, maxItems: nat)
    requires 2 <= maxItems
    ensures MinFan(n, maxItems) >= Pow2(n)
  {
    if n > 0 {
      MinFanGrows(n - 1, maxItems);
      MulMonotone(2, maxItems / 2 + 1, MinFan(n - 1, maxItems));
    }
  }

  /** A tree of height h >= 1 holds at least 2 * (minItems + 1)^(h - 1) - 1 items. */
  lemma TreeSize(t: Tree, h: nat, maxItems: nat)
    requires 2 <= maxItems && Shape(t, h, 1, maxItems)
    ensures |Flat(t)| >= 2 * MinFan(h - 1, maxItems) - 1
  {
    if h == 1 {
      assert MinFan(0, maxItems) == 1;
    } else {
      WeaveSize(t.kids, t.items, h - 1, maxItems);
      MulMonotone(2, |t.kids|, MinFan(h - 1, maxItems));
    }
  }

  lemma {:induction false} Pow2Monotone(a: nat, b: nat)
    requires a <= b
    ensures Pow2(a) <= Pow2(b)
  {
    if a < b {
      Pow2Monotone(a, b - 1);
    }
  }

  lemma Pow2Of32()
    ensures Pow2(32) == 0x1_0000_0000
  {
    assert Pow2(8) == 256;
    assert Pow2(16) == 65536;
    assert Pow2(24) == 0x100_0000;
  }

  /** Below 2^33 - 1 items the 32 path entries are enough for every node on the way to a leaf. */
  lemma PathEntriesSuffice(t: Tree, h: nat, maxItems: nat)
    requires 2 <= maxItems && Shape(t, h, 1, maxItems)
    requires |Flat(t)| < 0x2_0000_0000 - 1
    ensures h <= 32
  {
    TreeSize(t, h, maxItems);
    MinFanGrows(h - 1, maxItems);
    Pow2Of32();
    if h > 32 {
      Pow2Monotone(32, h - 1);
    }
  }

  // ---------------------------------------------------------------- memory

  /** Every object a tree is stored in. */
  ghost function Foot(t: Tree): set<object>
    decreases t, 1
  {
    Own(t.node) + FootK(t.kids)
  }

  ghost function FootK(kids: seq<Tree>): set<object>
    decreases kids, 0
  {
    if kids == [] then {} else Foot(kids[0]) + FootK(kids[1..])
  }

  /** A tree value only mentions objects that exist; this lets method calls frame around it. */
  lemma {:induction false} FootAllocated(t: Tree)
    ensures forall o :: o in Foot(t) ==> allocated(o)
    decreases t, 1
  {
    FootKAllocated(t.kids);
  }

  lemma {:induction false} FootKAllocated(kids: seq<Tree>)
    ensures forall o :: o in FootK(kids) ==> allocated(o)
    decreases kids, 0
  {
    if kids != [] {
      FootAllocated(kids[0]);
      FootKAllocated(kids[1..]);
    }
  }

  ghost function Roots(kids: seq<Tree>): seq<Node> {
    seq(|kids|, i requires 0 <= i < |kids| => kids[i].node)
  }

  /** The nodes in memory form the tree t, and no object is used twice. */
  ghost predicate Rep(t: Tree, maxItems: nat)
    reads Foot(t)
    decreases t, 1
  {
    NodeRep(t.node, t.items, Roots(t.kids), maxItems) &&
    Own(t.node) !! FootK(t.kids) && RepK(t.kids, maxItems)
  }

  ghost predicate RepK(kids: seq<Tree>, maxItems: nat)
    reads FootK(kids)
    decreases kids, 0
  {
    kids == [] ||
    (Rep(kids[0], maxItems) && Foot(kids[0]) !! FootK(kids[1..]) && RepK(kids[1..], maxItems))
  }

  lemma {:induction false} FootAppend(a: seq<Tree>, b: seq<Tree>)
    ensures FootK(a + b) == FootK(a) + FootK(b)
  {
    if a == [] {
      assert a + b == b;
    } else {
      assert (a + b)[1..] == a[1..] + b;
      FootAppend(a[1..], b);
    }
  }

  lemma {:induction false} RepAppend(a: seq<Tree>, b: seq<Tree>, maxItems: nat)
    ensures FootK(a + b) == FootK(a) + FootK(b)
    ensures RepK(a + b, maxItems) <==> RepK(a, maxItems) && RepK(b, maxItems) && FootK(a) !! FootK(b)
  {
    FootAppend(a, b);
    if a == [] {
      assert a + b == b;
    } else {
      assert (a + b)[1..] == a[1..] + b;
      FootAppend(a[1..], b);
      RepAppend(a[1..], b, maxItems);
    }
  }

  lemma RepOne(t: Tree, maxItems: nat)
    ensures FootK([t]) == Foot(t)
    ensures RepK([t], maxItems) <==> Rep(t, maxItems)
  {
    assert [t][1..] == [];
  }
}
