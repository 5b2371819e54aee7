/** Nodes of the B-tree: fixed-size item and child buffers that are shifted and copied in place. */
module BTreeNode {

  /** An item is a key, which is all that comparisons look at, and an opaque value. */
  datatype Item = Item(key: int, value: int)

  /** memmove inside one buffer: n cells starting at src end up at dst, whether or not the ranges overlap. */
  method MemMove<T>(a: array<T>, dst: nat, src: nat, n: nat)
    requires dst + n <= a.Length && src + n <= a.Length
    modifies a
    ensures forall k :: 0 <= k < a.Length ==>
      a[k] == if dst <= k < dst + n then old(a[src + k - dst]) else old(a[k])
  {
    forall k | 0 <= k < n {
      a[dst + k] := a[src + k];
    }
  }

  /** memcpy between two different buffers. */
  method MemCpy<T>(d: array<T>, dst: nat, s: array<T>, src: nat, n: nat)
    requires d != s
    requires dst + n <= d.Length && src + n <= s.Length
    modifies d
    ensures forall k :: 0 <= k < d.Length ==>
      d[k] == if dst <= k < dst + n then s[src + k - dst] else old(d[k])
  {
    forall k | 0 <= k < n {
      d[dst + k] := s[src + k];
    }
  }

  /** The sequence with x put in front of position idx. */
  function Inserted<T>(s: seq<T>, idx: nat, x: T): seq<T>
    requires idx <= |s|
  {
    s[..idx] + [x] + s[idx..]
  }

  /** The sequence without its element at idx. */
  function Removed<T>(s: seq<T>, idx: nat): seq<T>
    requires idx < |s|
  {
    s[..idx] + s[idx + 1..]
  }

  lemma RemovedSecond<T>(a: seq<T>, x: T, y: T, b: seq<T>)
    ensures Removed(a + [x, y] + b, |a| + 1) == a + [x] + b
  {
  }

  lemma InsertedInPrefix<T>(s: seq<T>, m: nat, idx: nat, x: T)
    requires idx <= m <= |s|
    ensures Inserted(s[..m], idx, x) + s[m..] == Inserted(s, idx, x)
  {
  }

  lemma InsertedInSuffix<T>(s: seq<T>, m: nat, idx: nat, x: T)
    requires m <= idx <= |s|
    ensures s[..m] + Inserted(s[m..], idx - m, x) == Inserted(s, idx, x)
  {
  }

  class Node {
    var numItems: nat
    const items: array<Item>
    /** Empty for a leaf, otherwise one cell more than items. */
    const children: array<Node?>

    constructor (leaf: bool, maxItems: nat)
      ensures numItems == 0 && items.Length == maxItems
      ensures children.Length == if leaf then 0 else maxItems + 1
      ensures fresh(items) && fresh(children)
    {
      numItems := 0;
      items := new Item[maxItems];
      children := new Node?[if leaf then 0 else maxItems + 1];
    }

    ghost predicate Fits()
      reads this
    {
      numItems <= items.Length && (children.Length == 0 || children.Length == items.Length + 1)
    }

    /** The items in use. */
    ghost function Items(): seq<Item>
      requires Fits()
      reads this, items
    {
      items[..numItems]
    }

    /** The child pointers in use; none in a leaf. */
    ghost function Kids(): seq<Node?>
      requires Fits()
      reads this, children
    {
      if children.Length == 0 then [] else children[..numItems + 1]
    }

    method ShiftItemsRight(idx: nat)
      requires idx <= numItems < items.Length
      modifies items
      ensures forall k :: 0 <= k < items.Length ==>
        items[k] == if idx + 1 <= k <= numItems then old(items[k - 1]) else old(items[k])
    {
      MemMove(items, idx + 1, idx, numItems - idx);
    }

    method ShiftChildrenRight(idx: nat)
      requires idx <= numItems + 1 < children.Length
      modifies children
      ensures forall k :: 0 <= k < children.Length ==>
        children[k] == if idx + 1 <= k <= numItems + 1 then old(children[k - 1]) else old(children[k])
    {
      MemMove(children, idx + 1, idx, numItems + 1 - idx);
    }

    method ShiftItemsLeft(idx: nat)
      requires idx < numItems <= items.Length
      modifies items
      ensures forall k :: 0 <= k < items.Length ==>
        items[k] == if idx <= k < numItems - 1 then old(items[k + 1]) else old(items[k])
    {
      MemMove(items, idx, idx + 1, numItems - idx - 1);
    }

    method ShiftChildrenLeft(idx: nat)
      requires idx <= numItems < children.Length
      modifies children
      ensures forall k :: 0 <= k < children.Length ==>
        children[k] == if idx <= k < numItems then old(children[k + 1]) else old(children[k])
    {
      MemMove(children, idx, idx + 1, numItems - idx);
    }

    /** Makes room for the item at idx. */
    method PutItem(idx: nat, item: Item)
      requires idx <= numItems < items.Length
      modifies items
      ensures items[..numItems + 1] == Inserted(old(items[..numItems]), idx, item)
      ensures items[numItems + 1..] == old(items[numItems + 1..])
    {
      ShiftItemsRight(idx);
      items[idx] := item;
    }

    /** Makes room for the child at idx. */
    method PutChild(idx: nat, child: Node)
      requires idx <= numItems + 1 < children.Length
      modifies children
      ensures children[..numItems + 2] == Inserted(old(children[..numItems + 1]), idx, child)
      ensures children[numItems + 2..] == old(children[numItems + 2..])
    {
      ShiftChildrenRight(idx);
      children[idx] := child;
    }

    /** Insertion into a node with room: the item goes to idx and the new right child to idx + 1. */
    method InsertAt(idx: nat, item: Item, right: Node?)
      requires Fits() && idx <= numItems < items.Length
      requires right == null <==> children.Length == 0
      modifies this, items, children
      ensures Fits() && numItems == old(numItems) + 1
      ensures Items() == Inserted(old(Items()), idx, item)
      ensures Kids() == if right == null then [] else Inserted(old(Kids()), idx + 1, right)
    {
      PutItem(idx, item);
      if right != null {
        PutChild(idx + 1, right);
      }
      numItems := numItems + 1;
    }

    /** Removal of an item and the child to its right. */
    method RemoveSeparator(idx: nat)
      requires Fits() && children.Length > 0 && idx < numItems
      modifies this, items, children
      ensures Fits() && numItems == old(numItems) - 1
      ensures Items() == Removed(old(Items()), idx)
      ensures Kids() == Removed(old(Kids()), idx + 1)
    {
      ShiftItemsLeft(idx);
      ShiftChildrenLeft(idx + 1);
      numItems := numItems - 1;
    }

    /** Removal of one item from a leaf. */
    method RemoveAt(idx: nat)
      requires Fits() && children.Length == 0 && idx < numItems
      modifies this, items
      ensures Fits() && numItems == old(numItems) - 1
      ensures Items() == Removed(old(Items()), idx)
    {
      ShiftItemsLeft(idx);
      numItems := numItems - 1;
    }

    /** The item lands in the left half, whose last item becomes the median. */
    method SplitItemsLeft(newNode: Node, idx: nat, item: Item) returns (median: Item)
      requires items.Length == newNode.items.Length && items.Length % 2 == 0
      requires items != newNode.items
      requires idx < items.Length / 2 == numItems
      modifies items, newNode.items
      ensures items[..items.Length / 2] + [median] + newNode.items[..items.Length / 2] ==
        Inserted(old(items[..]), idx, item)
    {
      var minItems := items.Length / 2;
      ghost var s := items[..];
      MemCpy(newNode.items, 0, items, minItems, minItems);
      assert newNode.items[..minItems] == s[minItems..];
      PutItem(idx, item);
      // the median got shifted right by one
      median := items[minItems];
      InsertedInPrefix(s, minItems, idx, item);
      assert items[..minItems] + [median] == items[..minItems + 1];
    }

    /** The item itself is the median. */
    method SplitItemsMiddle(newNode: Node, item: Item) returns (median: Item)
      requires items.Length == newNode.items.Length && items.Length % 2 == 0
      requires items != newNode.items
      modifies newNode.items
      ensures items[..items.Length / 2] + [median] + newNode.items[..items.Length / 2] ==
        Inserted(old(items[..]), items.Length / 2, item)
    {
      var minItems := items.Length / 2;
      median := item;
      MemCpy(newNode.items, 0, items, minItems, minItems);
      assert newNode.items[..minItems] == items[minItems..];
    }

    /** The item lands in the right half; the item in the middle of the old node is the median. */
    method SplitItemsRight(newNode: Node, idx: nat, item: Item) returns (median: Item)
      requires items.Length == newNode.items.Length && items.Length % 2 == 0
      requires items != newNode.items && this != newNode
      requires items.Length / 2 < idx <= items.Length
      modifies newNode, newNode.items
      ensures items[..items.Length / 2] + [median] + newNode.items[..items.Length / 2] ==
        Inserted(old(items[..]), idx, item)
    {
      var minItems := items.Length / 2;
      ghost var s := items[..];
      newNode.numItems := minItems - 1;
      MemCpy(newNode.items, 0, items, minItems + 1, minItems - 1);
      assert newNode.items[..minItems - 1] == s[minItems + 1..];
      newNode.PutItem(idx - (minItems + 1), item);
      median := items[minItems];
      InsertedInSuffix(s, minItems + 1, idx, item);
      assert items[..minItems] + [median] == s[..minItems + 1];
    }

    /** The new child belongs to the left half. */
    method SplitChildrenLeft(newNode: Node, idx: nat, right: Node)
      requires children.Length == newNode.children.Length && children.Length % 2 == 1
      requires children != newNode.children
      requires idx < numItems == children.Length / 2
      modifies children, newNode.children
      ensures children[..numItems + 1] + newNode.children[..numItems + 1] ==
        Inserted(old(children[..]), idx + 1, right)
    {
      var minItems := numItems;
      ghost var s := children[..];
      MemCpy(newNode.children, 0, children, minItems, minItems + 1);
      assert newNode.children[..minItems + 1] == s[minItems..];
      PutChild(idx + 1, right);
      InsertedInPrefix(s, minItems, idx + 1, right);
      assert children[..minItems + 1] == children[..minItems + 2][..minItems + 1];
      assert children[..minItems + 1] == Inserted(s[..minItems], idx + 1, right);
    }

    /** The new child is the first one of the right half. */
    method SplitChildrenMiddle(newNode: Node, right: Node)
      requires children.Length == newNode.children.Length && children.Length % 2 == 1
      requires children != newNode.children
      requires numItems == children.Length / 2
      modifies newNode.children
      ensures children[..numItems + 1] + newNode.children[..numItems + 1] ==
        Inserted(old(children[..]), numItems + 1, right)
    {
      MemCpy(newNode.children, 1, children, numItems + 1, numItems);
      newNode.children[0] := right;
      assert newNode.children[..numItems + 1] == [right] + children[numItems + 1..];
    }

    /** The new child belongs to the right half, behind its first child. */
    method SplitChildrenRight(newNode: Node, idx: nat, right: Node)
      requires children.Length == newNode.children.Length && children.Length % 2 == 1
      requires children != newNode.children && this != newNode
      requires children.Length / 2 == numItems < idx < children.Length
      modifies newNode, newNode.children
      ensures children[..numItems + 1] + newNode.children[..numItems + 1] ==
        Inserted(old(children[..]), idx + 1, right)
    {
      var minItems := numItems;
      ghost var s := children[..];
      newNode.numItems := minItems - 1;
      MemCpy(newNode.children, 0, children, minItems + 1, minItems);
      assert newNode.children[..minItems] == s[minItems + 1..];
      newNode.PutChild(idx - (minItems + 1) + 1, right);
      InsertedInSuffix(s, minItems + 1, idx + 1, right);
    }

    /** Both halves of a node that has just been split around its median. */
    ghost predicate Halves(newNode: Node, median: Item, theItems: seq<Item>, theKids: seq<Node?>)
      requires items.Length == newNode.items.Length && children.Length == newNode.children.Length
      reads items, children, newNode.items, newNode.children
    {
      var m := items.Length / 2;
      items[..m] + [median] + newNode.items[..m] == theItems &&
      (children.Length == items.Length + 1 ==> children[..m + 1] + newNode.children[..m + 1] == theKids)
    }

    /** Distributes items and children of a full node over this node and newNode. */
    method Distribute(newNode: Node, idx: nat, item: Item, right: Node?) returns (median: Item)
      requires items.Length == newNode.items.Length && children.Length == newNode.children.Length
      requires items.Length % 2 == 0 && items.Length >= 2 && idx <= items.Length
      requires children.Length == if right == null then 0 else items.Length + 1
      requires numItems == items.Length / 2
      requires this != newNode && items != newNode.items && children != newNode.children
      modifies items, children, newNode, newNode.items, newNode.children
      ensures Halves(newNode, median, Inserted(old(items[..]), idx, item),
                     if right == null then [] else Inserted(old(children[..]), idx + 1, right))
    {
      var minItems := items.Length / 2;
      if idx < minItems {
        median := SplitItemsLeft(newNode, idx, item);
        if right != null {
          SplitChildrenLeft(newNode, idx, right);
        }
      } else if idx == minItems {
        median := SplitItemsMiddle(newNode, item);
        if right != null {
          SplitChildrenMiddle(newNode, right);
        }
      } else {
        median := SplitItemsRight(newNode, idx, item);
        if right != null {
          SplitChildrenRight(newNode, idx, right);
        }
      }
    }

    /** Splits a full node of even capacity while inserting; the median is handed back. */
    method SplitAndInsert(idx: nat, item: Item, right: Node?) returns (median: Item, newNode: Node)
      requires Fits() && numItems == items.Length && idx <= numItems
      requires items.Length % 2 == 0 && items.Length >= 2
      requires right == null <==> children.Length == 0
      modifies this, items, children
      ensures fresh(newNode) && fresh(newNode.items) && fresh(newNode.children)
      ensures newNode.items.Length == items.Length && newNode.children.Length == children.Length
      ensures Fits() && newNode.Fits()
      ensures numItems == newNode.numItems == items.Length / 2
      ensures Items() + [median] + newNode.Items() == Inserted(old(Items()), idx, item)
      ensures Kids() + newNode.Kids() == if right == null then [] else Inserted(old(Kids()), idx + 1, right)
    {
      newNode := new Node(right == null, items.Length);
      assert items[..] == Items() && (right != null ==> children[..] == Kids());
      numItems := items.Length / 2;
      median := Distribute(newNode, idx, item, right);
      newNode.numItems := items.Length / 2;
    }

    /** Splits a full node of odd capacity around its middle item. */
    method Split(leaf: bool) returns (median: Item, newNode: Node)
      requires Fits() && numItems == items.Length && items.Length % 2 == 1
      requires leaf <==> children.Length == 0
      modifies this
      ensures fresh(newNode) && fresh(newNode.items) && fresh(newNode.children)
      ensures newNode.items.Length == items.Length && newNode.children.Length == children.Length
      ensures Fits() && newNode.Fits()
      ensures numItems == newNode.numItems == items.Length / 2
      ensures Items() + [median] + newNode.Items() == old(Items())
      ensures Kids() + newNode.Kids() == old(Kids())
    {
      newNode := new Node(leaf, items.Length);
      assert items[..] == Items() && (!leaf ==> children[..] == Kids());
      numItems := items.Length / 2;
      median := CopyRightHalf(newNode, leaf);
      newNode.numItems := items.Length / 2;
    }

    method CopyRightHalf(newNode: Node, leaf: bool) returns (median: Item)
      requires items.Length == newNode.items.Length && children.Length == newNode.children.Length
      requires items.Length % 2 == 1 && children.Length == if leaf then 0 else items.Length + 1
      requires items != newNode.items && children != newNode.children
      modifies newNode.items, newNode.children
      ensures Halves(newNode, median, items[..], children[..])
    {
      var minItems := items.Length / 2;
      median := items[minItems];
      MemCpy(newNode.items, 0, items, minItems + 1, minItems);
      assert newNode.items[..minItems] == items[minItems + 1..];
      if !leaf {
        MemCpy(newNode.children, 0, children, minItems + 1, minItems + 1);
        assert newNode.children[..minItems + 1] == children[minItems + 1..];
      }
    }
  }

  /** The objects a node is stored in. */
  ghost function Own(n: Node): set<object> {
    {n, n.items, n.children}
  }

  /** A node in memory holds exactly these items and children. */
  ghost predicate NodeRep(n: Node, items: seq<Item>, kids: seq<Node?>, maxItems: nat)
    reads Own(n)
  {
    n.Fits() && n.items.Length == maxItems && n.Items() == items && n.Kids() == kids
  }

  /** What one node holds. */
  datatype Held = Held(items: seq<Item>, kids: seq<Node?>)

  ghost predicate Holds(n: Node, h: Held, maxItems: nat)
    reads Own(n)
  {
    NodeRep(n, h.items, h.kids, maxItems)
  }
}
