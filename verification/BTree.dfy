/** The B-tree itself. */
module BTrees {
  import opened BTreeNode
  import opened BTreeTree
  import opened BTreePath
  import opened BTreeSearch
  import opened BTreeBare
  import opened BTreeInsert
  import opened BTreeSeek
  import opened BTreeDelete

  class BTree {
    const maxItems: nat
    const linearSearchThreshold: nat
    var root: Node?
    /** 0 means that there is no root, 1 that the root is a leaf. */
    var height: nat
    /** The tree the nodes form, if there is one. */
    ghost var top: seq<Tree>

    constructor (maxItems: nat, linearSearchThreshold: nat)
      requires 2 <= maxItems
      ensures Valid() && Contents() == [] && this.maxItems == maxItems
      ensures this.linearSearchThreshold == linearSearchThreshold && fresh(Repr()) && PathFits()
    {
      this.maxItems := maxItems;
      this.linearSearchThreshold := linearSearchThreshold;
      root := null;
      height := 0;
      top := [];
    }

    /** All items in key order. */
    ghost function Contents(): seq<Item>
      reads this
    {
      if top == [] then [] else Flat(top[0])
    }

    ghost function Repr(): (r: set<object>)
      reads this
      ensures this in r
    {
      {this} + FootK(top)
    }

    /** The root is in place; only a root that has just been created may hold no item (lo == 0). */
    ghost predicate Rooted(lo: nat)
      reads this, FootK(top)
    {
      2 <= maxItems && lo <= 1 && |top| == 1 && root == top[0].node && Rep(top[0], maxItems) &&
      Shape(top[0], height, lo, maxItems) && (lo == 0 ==> height == 1) && Sorted(Flat(top[0]))
    }

    ghost predicate Valid()
      reads this, FootK(top)
    {
      2 <= maxItems && this !in FootK(top) &&
      if height == 0 then root == null && top == [] else Rooted(1)
    }

    /** The recorded path has room for 32 steps. */
    ghost predicate PathFits()
      reads this
    {
      height <= 32
    }

    /** That is so with fewer than 2^33 - 1 items, whatever the capacity of a node. */
    lemma FewItems()
      requires Valid() && |Contents()| < 0x2_0000_0000 - 1
      ensures PathFits()
    {
      if height > 0 {
        PathEntriesSuffice(top[0], height, maxItems);
      }
    }

    /** The tree without the nodes it is stored in; an empty tree is a leaf without items, on one level. */
    ghost function Form(): Bare
      reads this
    {
      if top == [] then Bare([], []) else Strip(top[0])
    }

    ghost function Levels(): nat
      reads this
    {
      if height == 0 then 1 else height
    }

    lemma InUse()
      requires Valid() && PathFits() && height > 0
      ensures top == [top[0]] && root != null && height <= 32 && Form() == Strip(top[0]) && Levels() == height
      ensures Loaded(root, height, top[0], Contents(), 1, maxItems) && 2 <= maxItems
      ensures Repr() == {this} + Foot(top[0]) && this !in Foot(top[0]) && Sorted(Contents())
    {
      RepOne(top[0], maxItems);
    }

    method Insert(item: Item, update: bool) returns (inserted: bool, ghost at: nat)
      requires Valid() && PathFits()
      modifies Repr()
      ensures Valid() && fresh(Repr() - old(Repr()))
      ensures inserted ==> at <= |old(Contents())|
      ensures InsertionDone(old(Contents()), item, update, inserted, at, Contents())
      ensures inserted ==> Form() == InsertedTree(old(Form()), old(Levels()), item, maxItems)
    {
      hide *;
      ghost var s, mem := Contents(), Repr();
      ghost var tp, lo, news := Prepare();
      var newRoot, grown;
      ghost var q, more;
      inserted, newRoot, grown, q, at, more := InsertItem(root, height, item, update, linearSearchThreshold, maxItems, tp, s, lo);
      DoneSorted(s, item, update, inserted, at, Flat(q));
      Adopt(newRoot, if grown then height + 1 else height, q, mem, news + more);
    }

    /** Insertion for keys that usually come in ascending order. */
    method InsertSequential(item: Item) returns (inserted: bool, ghost at: nat)
      requires Valid() && PathFits()
      modifies Repr()
      ensures Valid() && fresh(Repr() - old(Repr()))
      ensures inserted ==> at <= |old(Contents())|
      ensures InsertionDone(old(Contents()), item, false, inserted, at, Contents())
      ensures inserted ==> Form() == InsertedTree(old(Form()), old(Levels()), item, maxItems)
    {
      if height == 0 {
        inserted, at := Insert(item, false);
      } else {
        inserted, at := InsertRightmost(item);
      }
    }

    method InsertRightmost(item: Item) returns (inserted: bool, ghost at: nat)
      requires Valid() && PathFits() && height > 0
      modifies Repr()
      ensures Valid() && fresh(Repr() - old(Repr()))
      ensures inserted ==> at <= |old(Contents())|
      ensures InsertionDone(old(Contents()), item, false, inserted, at, Contents())
      ensures inserted ==> Form() == InsertedTree(old(Form()), old(Levels()), item, maxItems)
    {
      hide *;
      InUse();
      ghost var s, mem, tp := Contents(), Repr(), top[0];
      var newRoot, grown;
      ghost var q, news;
      inserted, newRoot, grown, q, at, news := InsertItemSequential(root, height, item, linearSearchThreshold, maxItems, tp, s);
      DoneSorted(s, item, false, inserted, at, Flat(q));
      Adopt(newRoot, if grown then height + 1 else height, q, mem, news);
    }

    /** An empty tree gets a root leaf to insert into. */
    method Prepare() returns (ghost tp: Tree, ghost lo: nat, ghost news: set<object>)
      requires Valid() && PathFits()
      modifies this
      ensures root != null && height <= 32 && 2 <= maxItems && this !in Foot(tp)
      ensures Strip(tp) == old(Form()) && height == old(Levels())
      ensures Loaded(root, height, tp, old(Contents()), lo, maxItems) && Sorted(old(Contents()))
      ensures fresh(news) && Foot(tp) <= old(Repr()) + news
    {
      lo, news := 1, {};
      if height == 0 {
        root := new Node(true, maxItems);
        height := 1;
        tp, lo, news := Tree(root, [], []), 0, Own(root);
        EmptyLeaf(tp, maxItems);
      } else {
        InUse();
        tp := top[0];
      }
    }

    /** Deletion of the item with this key, of the first item or of the last one. */
    method Delete(mode: Mode, key: int) returns (deleted: bool, item: Item, ghost at: nat)
      requires Valid() && PathFits()
      modifies Repr()
      ensures Valid() && Repr() <= old(Repr())
      ensures DeletionDone(old(Contents()), mode, key, deleted, item, at, Contents())
    {
      if height == 0 {
        deleted, item, at := false, Item(0, 0), 0;
        FoldEmpty(mode, key, item, at);
        return;
      }
      deleted, item, at := DeleteSome(mode, key);
    }

    method DeleteSome(mode: Mode, key: int) returns (deleted: bool, item: Item, ghost at: nat)
      requires Valid() && PathFits() && height > 0
      modifies Repr()
      ensures Valid() && Repr() <= old(Repr())
      ensures DeletionDone(old(Contents()), mode, key, deleted, item, at, Contents())
    {
      hide *;
      InUse();
      ghost var s, mem, tp := Contents(), Repr(), top[0];
      var newRoot, newHeight;
      ghost var q;
      deleted, item, newRoot, newHeight, q, at := DeleteItem(root, height, mode, key, linearSearchThreshold, maxItems, tp, s);
      DeletedSorted(s, mode, key, deleted, item, at, Items(q));
      Replant(newRoot, newHeight, q, mem);
    }

    /** The root after a deletion is put in place. */
    method Replant(newRoot: Node?, newHeight: nat, ghost q: seq<Tree>, ghost mem: set<object>)
      requires 2 <= maxItems && Planted(newRoot, newHeight, q, maxItems) && this !in FootK(q)
      requires Sorted(Items(q)) && FootK(q) <= mem && this in mem
      modifies this
      ensures Valid() && Contents() == Items(q) && Repr() <= mem
    {
      FootKAllocated(q);
      root := newRoot;
      height := newHeight;
      top := q;
      assert Planted(newRoot, newHeight, q, maxItems);
    }

    /** The new root is put in place. */
    method Adopt(newRoot: Node, newHeight: nat, ghost q: Tree, ghost mem: set<object>, ghost news: set<object>)
      requires 2 <= maxItems && newRoot == q.node && Rep(q, maxItems) && this !in Foot(q)
      requires Shape(q, newHeight, 1, maxItems) && Sorted(Flat(q))
      requires Foot(q) <= mem + news && this in mem
      modifies this
      ensures Valid() && Contents() == Flat(q) && Repr() <= mem + news && Form() == Strip(q)
    {
      FootAllocated(q);
      RepOne(q, maxItems);
      root := newRoot;
      height := newHeight;
      top := [q];
      assert Rep(q, maxItems);
    }
  }

  lemma EmptyLeaf(t: Tree, maxItems: nat)
    requires 2 <= maxItems && t.items == [] && t.kids == [] && Holds(t.node, Held([], []), maxItems)
    ensures Loaded(t.node, 1, t, [], 0, maxItems) && Foot(t) == Own(t.node)
  {
  }

  lemma DoneSorted(s: seq<Item>, item: Item, update: bool, inserted: bool, at: nat, s1: seq<Item>)
    requires InsertionDone(s, item, update, inserted, at, s1) && Sorted(s)
    ensures Sorted(s1)
  {
    if inserted {
      InsertedSorted(s, item, at);
    }
  }

  lemma DeletedSorted(s: seq<Item>, mode: Mode, key: int, deleted: bool, item: Item, at: nat, s1: seq<Item>)
    requires DeletionDone(s, mode, key, deleted, item, at, s1) && Sorted(s)
    ensures Sorted(s1)
  {
  }

  lemma InsertedSorted(s: seq<Item>, item: Item, at: nat)
    requires Sorted(s) && InsertionPoint(s, item.key, at)
    ensures Sorted(Inserted(s, at, item))
  {
    forall i, j | 0 <= i < j <= |s| ensures Inserted(s, at, item)[i].key < Inserted(s, at, item)[j].key {
      if i < at {
        PointAt(s, item.key, at, i);
      }
      if at < j {
        PointAt(s, item.key, at, j - 1);
      }
    }
  }
}
