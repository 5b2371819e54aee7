/** The read-only interface of a B-tree: lookups and iterators. */
module BTreeIterators {
  import opened BTreeNode
  import opened BTreeTree
  import opened BTreePath
  import opened BTreeInsert
  import opened BTreeSeek
  import opened BTreeFind
  import opened BTreeIter
  import opened BTrees

  /** The tree of a B-tree that is not empty. */
  ghost function WholeOf(tree: BTree): Whole
    requires |tree.top| == 1
    reads tree
  {
    Whole(tree.top[0], tree.height, tree.Contents(), tree.maxItems)
  }

  lemma WholeFacts(tree: BTree)
    requires tree.Valid() && tree.height > 0
    ensures |tree.top| == 1 && tree.root != null && tree.height == WholeOf(tree).height
    ensures tree.PathFits() ==> tree.height <= 32
    ensures Planted(WholeOf(tree), tree.root, tree.height) && Rep(WholeOf(tree).tp, WholeOf(tree).maxItems)
    ensures Loaded(tree.root, tree.height, tree.top[0], tree.Contents(), 1, tree.maxItems)
    ensures WholeOf(tree).s == tree.Contents() && WholeOf(tree).tp == tree.top[0] && WholeOf(tree).maxItems == tree.maxItems
  {
  }

  lemma NothingThere(tree: BTree)
    requires tree.Valid() && tree.height == 0
    ensures tree.Contents() == []
  {
  }

  method Find(tree: BTree, key: int) returns (found: bool, item: Item)
    requires tree.Valid()
    ensures found ==> item in tree.Contents() && item.key == key
    ensures !found ==> forall x :: x in tree.Contents() ==> x.key != key
  {
    hide *;
    if tree.height == 0 {
      NothingThere(tree);
      return false, Item(0, 0);
    }
    WholeFacts(tree);
    ghost var at, s := 0, tree.Contents();
    found, item, at := FindItem(tree.root, tree.height, key, tree.linearSearchThreshold, tree.maxItems, tree.top[0], s);
    if !found {
      AbsentMeans(s, key);
    }
  }

  lemma AbsentMeans(s: seq<Item>, key: int)
    requires Absent(s, key)
    ensures forall x :: x in s ==> x.key != key
  {
  }

  method GetLeftmostRightmost(tree: BTree, leftmost: bool) returns (found: bool, item: Item)
    requires tree.Valid()
    ensures found <==> tree.Contents() != []
    ensures found ==> item == tree.Contents()[if leftmost then 0 else |tree.Contents()| - 1]
  {
    hide *;
    if tree.height == 0 {
      NothingThere(tree);
      return false, Item(0, 0);
    }
    WholeFacts(tree);
    found := true;
    item := LeftmostRightmost(tree.root, tree.height, leftmost, tree.maxItems, tree.top[0], tree.Contents());
  }

  /** An iterator: the recorded path to its current item; no path if it is past the end or the beginning. */
  class BTreeIterator {
    const tree: BTree
    var path: seq<Pos>
    /** The entry the path leads to, if there is a path. */
    ghost var spot: seq<Spot>
    /** The number of the current item in the order of the tree. */
    ghost var rank: nat

    constructor (tree: BTree)
      ensures this.tree == tree && path == []
    {
      this.tree := tree;
      path, spot, rank := [], [], 0;
    }

    ghost predicate Valid()
      reads this, tree, FootK(tree.top)
    {
      tree.Valid() && tree.PathFits() && this !in tree.Repr() &&
      (path != [] ==> |tree.top| == |spot| == 1 && On(WholeOf(tree), spot[0], path, rank))
    }

    /** The iterator is at item number r. */
    ghost predicate At(r: nat): (there: bool)
      reads this, tree, FootK(tree.top)
      ensures there ==> Valid() && path != [] && rank == r
    {
      Valid() && path != [] && rank == r
    }

    /** The path leads to the place in a leaf where the key would go, with r items in front. */
    ghost predicate Missed(key: int, r: nat)
      reads this, tree
    {
      |tree.top| == |spot| == 1 && Vacant(WholeOf(tree), spot[0], path, key, r)
    }

    method Start(rightmost: bool) returns (found: bool, item: Item)
      requires tree.Valid() && tree.PathFits() && this !in tree.Repr()
      modifies this
      ensures found <==> tree.Contents() != []
      ensures found ==> At(if rightmost then |tree.Contents()| - 1 else 0) && item == tree.Contents()[rank]
      ensures !found ==> Valid() && path == []
    {
      hide *;
      if tree.height == 0 {
        Settle([], [], 0);
        NothingThere(tree);
        return false, Item(0, 0);
      }
      WholeFacts(tree);
      FootKAllocated(tree.top);
      ghost var w := WholeOf(tree);
      var newPath;
      ghost var c;
      item, newPath, c := BTreeIter.Start(tree.root, tree.height, rightmost, w);
      found := true;
      OnPath(w, c, newPath, if rightmost then |w.s| - 1 else 0);
      Settle(newPath, [c], if rightmost then |w.s| - 1 else 0);
    }

    method StartAt(key: int, mode: StartMode) returns (found: bool, item: Item, ghost r: nat)
      requires tree.Valid() && tree.PathFits() && this !in tree.Repr()
      modifies this
      ensures Started(tree.Contents(), mode, key, found, r)
      ensures found ==> At(r) && r < |tree.Contents()| && item == tree.Contents()[r]
      ensures !found && mode != FindKey ==> Valid() && path == []
      ensures !found && mode == FindKey ==> if tree.Contents() == [] then path == [] else Missed(key, r)
    {
      hide *;
      if tree.height == 0 {
        Settle([], [], 0);
        NothingThere(tree);
        StartedEmpty(mode, key);
        return false, Item(0, 0), 0;
      }
      WholeFacts(tree);
      FootKAllocated(tree.top);
      ghost var w := WholeOf(tree);
      var newPath;
      ghost var c;
      found, item, newPath, c, r := BTreeIter.StartAt(tree.root, tree.height, key, mode, tree.linearSearchThreshold, w);
      if found {
        OnPath(w, c, newPath, r);
        Settle(newPath, [c], r);
      } else if mode == FindKey {
        path := newPath;
        spot := [c];
        NotEmpty(w, c, newPath, key, r);
        FoldMissed(key, r);
      } else {
        Settle(newPath, [], r);
      }
    }

    method Next() returns (found: bool, item: Item)
      requires Valid()
      modifies this
      ensures Valid() && (!found ==> path == [])
      ensures found <==> old(path) != [] && old(rank) + 1 < |tree.Contents()|
      ensures found ==> At(old(rank) + 1) && item == tree.Contents()[old(rank) + 1]
    {
      hide *;
      if path == [] {
        return false, Item(0, 0);
      }
      ghost var w, c0 := Current();
      var newPath;
      ghost var c;
      OnPath(w, c0, path, rank);
      FootKAllocated(tree.top);
      found, item, newPath, c := BTreeIter.Next(path, tree.height, w, c0);
      if found {
        OnPath(w, c, newPath, rank + 1);
      }
      Settle(newPath, [c], rank + 1);
    }

    method Prev() returns (found: bool, item: Item)
      requires Valid()
      modifies this
      ensures Valid() && (!found ==> path == [])
      ensures found <==> old(path) != [] && 0 < old(rank)
      ensures found ==> At(old(rank) - 1) && old(rank) <= |tree.Contents()| && item == tree.Contents()[old(rank) - 1]
    {
      hide *;
      if path == [] {
        return false, Item(0, 0);
      }
      ghost var w, c0 := Current();
      var newPath;
      ghost var c;
      OnPath(w, c0, path, rank);
      FootKAllocated(tree.top);
      found, item, newPath, c := BTreeIter.Prev(path, tree.height, w, c0);
      if found {
        OnPath(w, c, newPath, rank - 1);
      }
      Settle(newPath, [c], if found then rank - 1 else 0);
    }

    lemma Current() returns (w: Whole, c: Spot)
      requires Valid() && path != []
      ensures |tree.top| == 1 && w == WholeOf(tree) && tree.height == w.height <= 32 && Rep(w.tp, w.maxItems)
      ensures On(w, c, path, rank) && w.s == tree.Contents() && tree.Valid() && tree.PathFits() && this !in tree.Repr()
      ensures rank < |tree.Contents()|
    {
      w, c := WholeOf(tree), spot[0];
      WholeFacts(tree);
      hide Rep, Shape, Standing, Flat, Upto;
      RankItem(w, c, path);
    }

    lemma FoldMissed(key: int, r: nat)
      requires |tree.top| == |spot| == 1 && Vacant(WholeOf(tree), spot[0], path, key, r)
      ensures Missed(key, r)
    {
    }

    /** The iterator takes its new position. */
    method Settle(newPath: seq<Pos>, ghost c: seq<Spot>, ghost r: nat)
      requires tree.Valid() && tree.PathFits() && this !in tree.Repr()
      requires newPath != [] ==> |tree.top| == 1 && |c| == 1 && On(WholeOf(tree), c[0], newPath, r)
      modifies this
      ensures Valid() && path == newPath && (path != [] ==> At(r))
    {
      FootKAllocated(tree.top);
      path := newPath;
      spot, rank := c, r;
    }
  }

  lemma OnPath(w: Whole, c: Spot, path: seq<Pos>, r: nat)
    requires On(w, c, path, r)
    ensures path != [] && Standing(w, c, path) && c.idx < |c.t.items| && Behind(c) == r + 1 && Rank(c) == r
  {
  }

  lemma NotEmpty(w: Whole, c: Spot, path: seq<Pos>, key: int, r: nat)
    requires Vacant(w, c, path, key, r)
    ensures w.s != []
  {
    RootedKids(w, c, path);
    hide Rooted;
    if c.t.kids == [] {
      assert Flat(c.t) == c.t.items;
    }
  }

  lemma StartedEmpty(mode: StartMode, key: int)
    ensures Started([], mode, key, false, 0)
  {
  }

  lemma TreeOnly(tree: BTree)
    ensures tree.Repr() == {tree} + FootK(tree.top)
  {
  }

  ghost function Reversed<T>(s: seq<T>): seq<T> {
    if s == [] then [] else [s[|s| - 1]] + Reversed(s[..|s| - 1])
  }

  lemma {:induction false} ReversedFront<T>(s: seq<T>, i: nat)
    requires i < |s|
    ensures Reversed(s[i..]) == Reversed(s[i + 1..]) + [s[i]]
    decreases |s|
  {
    var t := s[i..];
    if i + 1 < |s| {
      var u := s[..|s| - 1];
      assert t[..|t| - 1] == u[i..] && s[i + 1..][..|t| - 2] == u[i + 1..];
      ReversedFront(u, i);
    } else {
      assert t == [s[i]] && s[i + 1..] == [];
    }
  }

  /** Prev from the rightmost item enumerates all items backwards. */
  method Backward(tree: BTree) returns (items: seq<Item>)
    requires tree.Valid() && tree.PathFits()
    ensures items == Reversed(tree.Contents())
  {
    hide *;
    FootKAllocated(tree.top);
    TreeOnly(tree);
    ReversedEnds(tree.Contents());
    var iter := new BTreeIterator(tree);
    items := [];
    ghost var s, k := tree.Contents(), |tree.Contents()|;
    var found, item := iter.Start(true);
    while found
      invariant iter.tree == tree && fresh(iter) && iter.Valid() && tree.Contents() == s
      invariant found ==> 0 < k <= |s| && iter.At(k - 1) && item == s[k - 1] && items == Reversed(s[k..])
      invariant !found ==> items == Reversed(s)
      decreases if found then k else 0
    {
      ReversedFront(s, k - 1);
      items := items + [item];
      found, item := iter.Prev();
      k := k - 1;
      if k == 0 {
        assert s[0..] == s;
      }
    }
  }

  lemma ReversedEnds<T>(s: seq<T>)
    ensures Reversed(s[|s|..]) == [] && (s == [] ==> Reversed(s) == [])
  {
  }

  /** Next and then Prev leads back to the same item. */
  method ThereAndBack(iter: BTreeIterator) returns (item: Item)
    requires iter.Valid() && iter.path != [] && iter.rank + 1 < |iter.tree.Contents()|
    modifies iter
    ensures iter.At(old(iter.rank)) && item == iter.tree.Contents()[iter.rank]
  {
    hide *;
    var _, _ := iter.Next();
    var _, previous := iter.Prev();
    item := previous;
  }

  /** Next from the leftmost item enumerates all items, in order and once. */
  method Forward(tree: BTree) returns (items: seq<Item>)
    requires tree.Valid() && tree.PathFits()
    ensures items == tree.Contents()
  {
    hide *;
    FootKAllocated(tree.top);
    TreeOnly(tree);
    var iter := new BTreeIterator(tree);
    items := [];
    var found, item := iter.Start(false);
    while found
      invariant iter.tree == tree && fresh(iter) && iter.Valid()
      invariant if found then iter.At(|items|) && iter.rank == |items| < |tree.Contents()| && iter.path != [] else items == tree.Contents()
      invariant found ==> item == tree.Contents()[|items|] && items == tree.Contents()[..|items|]
      decreases if found then |tree.Contents()| - |items| else -1
    {
      items := items + [item];
      found, item := iter.Next();
    }
  }
}
