/** The three ways deletion repairs an underfull child: merge with a sibling, or borrow an item
    from the left or from the right one. */
module BTreeSiblings {
  import opened BTreeNode

  /** Two nodes that share neither identity nor buffers. */
  ghost predicate Apart(a: Node, b: Node) {
    a != b && a.items != b.items && a.children != b.children
  }

  /** The separator moves to the end of left. */
  method AppendSeparator(parent: Node, idx: nat, left: Node)
    requires Apart(parent, left) && parent.Fits() && left.Fits() && parent.children.Length > 0
    requires idx < parent.numItems && left.numItems < left.items.Length
    modifies parent, parent.items, parent.children, left.items
    ensures left.items[..left.numItems + 1] == old(left.Items()) + [old(parent.Items())[idx]]
    ensures parent.Fits() && parent.numItems == old(parent.numItems) - 1
    ensures parent.Items() == Removed(old(parent.Items()), idx)
    ensures parent.Kids() == Removed(old(parent.Kids()), idx + 1)
  {
    left.items[left.numItems] := parent.items[idx];
    parent.RemoveSeparator(idx);
  }

  /** Everything in right moves behind the separator already at the end of left. */
  method AppendRight(left: Node, right: Node, leaf: bool)
    requires Apart(left, right) && left.Fits() && right.Fits()
    requires left.items.Length == right.items.Length && left.children.Length == right.children.Length
    requires leaf <==> left.children.Length == 0
    requires left.numItems + right.numItems < left.items.Length
    modifies left, left.items, left.children
    ensures left.Fits() && left.numItems == old(left.numItems) + 1 + right.numItems
    ensures left.Items() == old(left.items[..left.numItems + 1]) + right.Items()
    ensures left.Kids() == old(left.Kids()) + right.Kids()
  {
    left.numItems := left.numItems + 1;
    MemCpy(left.items, left.numItems, right.items, 0, right.numItems);
    if !leaf {
      MemCpy(left.children, left.numItems, right.children, 0, right.numItems + 1);
    }
    left.numItems := left.numItems + right.numItems;
  }

  /** Merges right into left around the separator at idx; right is then garbage. */
  method Merge(parent: Node, idx: nat, left: Node, right: Node, leaf: bool)
    requires Apart(parent, left) && Apart(parent, right) && Apart(left, right)
    requires parent.Fits() && left.Fits() && right.Fits() && parent.children.Length > 0
    requires left.items.Length == right.items.Length && left.children.Length == right.children.Length
    requires leaf <==> left.children.Length == 0
    requires idx < parent.numItems && left.numItems + right.numItems < left.items.Length
    modifies parent, parent.items, parent.children, left, left.items, left.children
    ensures parent.Fits() && parent.numItems == old(parent.numItems) - 1
    ensures parent.Items() == Removed(old(parent.Items()), idx)
    ensures parent.Kids() == Removed(old(parent.Kids()), idx + 1)
    ensures left.Fits() && left.numItems == old(left.numItems + 1 + right.numItems)
    ensures left.Items() == old(left.Items()) + [old(parent.Items())[idx]] + old(right.Items())
    ensures left.Kids() == old(left.Kids()) + old(right.Kids())
  {
    AppendSeparator(parent, idx, left);
    AppendRight(left, right, leaf);
  }

  /** Merge, told in terms of what the three nodes hold. */
  method MergeNodes(parent: Node, idx: nat, left: Node, right: Node, leaf: bool, ghost maxItems: nat,
                    ghost p: Held, ghost l: Held, ghost r: Held)
    requires Apart(parent, left) && Apart(parent, right) && Apart(left, right)
    requires Holds(parent, p, maxItems) && Holds(left, l, maxItems) && Holds(right, r, maxItems)
    requires (l.kids == [] <==> leaf) && (r.kids == [] <==> leaf) && p.kids != []
    requires idx < |p.items| && |l.items| + |r.items| < maxItems
    modifies parent, parent.items, parent.children, left, left.items, left.children
    ensures |p.kids| == |p.items| + 1
    ensures Holds(parent, Held(Removed(p.items, idx), Removed(p.kids, idx + 1)), maxItems)
    ensures Holds(left, Held(l.items + [p.items[idx]] + r.items, l.kids + r.kids), maxItems)
  {
    Merge(parent, idx, left, right, leaf);
  }

  /** The separator moves to the front of right and the last item of left replaces it. */
  method RotateItemRight(parent: Node, idx: nat, left: Node, right: Node)
    requires Apart(parent, left) && Apart(parent, right) && Apart(left, right)
    requires parent.Fits() && left.Fits() && right.Fits()
    requires idx < parent.numItems && 0 < left.numItems && right.numItems < right.items.Length
    modifies parent.items, right.items
    ensures right.items[..right.numItems + 1] == [old(parent.Items())[idx]] + old(right.Items())
    ensures parent.Items() == old(parent.Items())[idx := old(left.Items())[left.numItems - 1]]
  {
    right.ShiftItemsRight(0);
    right.items[0] := parent.items[idx];
    parent.items[idx] := left.items[left.numItems - 1];
  }

  /** The last child of left becomes the first child of right. */
  method RotateChildRight(left: Node, right: Node)
    requires Apart(left, right)
    requires left.Fits() && right.Fits() && left.children.Length > 0 && right.children.Length > 0
    requires right.numItems < right.items.Length
    modifies right.children
    ensures right.children[..right.numItems + 2] == [left.Kids()[left.numItems]] + old(right.Kids())
  {
    right.ShiftChildrenRight(0);
    right.children[0] := left.children[left.numItems];
  }

  /** Borrows one item, and in inner nodes one child, from left. */
  method BorrowFromLeft(parent: Node, idx: nat, left: Node, right: Node, leaf: bool)
    requires Apart(parent, left) && Apart(parent, right) && Apart(left, right)
    requires parent.Fits() && left.Fits() && right.Fits() && parent.children.Length > 0
    requires left.items.Length == right.items.Length && left.children.Length == right.children.Length
    requires leaf <==> left.children.Length == 0
    requires idx < parent.numItems && 0 < left.numItems && right.numItems < right.items.Length
    modifies parent.items, left, right, right.items, right.children
    ensures parent.Kids() == old(parent.Kids())
    ensures left.Fits() && left.numItems == old(left.numItems) - 1
    ensures parent.Items() == old(parent.Items())[idx := old(left.Items())[left.numItems]]
    ensures left.Items() == old(left.Items())[..left.numItems]
    ensures left.Kids() == if leaf then [] else old(left.Kids())[..left.numItems + 1]
    ensures right.Fits() && right.numItems == old(right.numItems) + 1
    ensures right.Items() == [old(parent.Items())[idx]] + old(right.Items())
    ensures right.Kids() == if leaf then [] else [old(left.Kids())[left.numItems + 1]] + old(right.Kids())
  {
    RotateItemRight(parent, idx, left, right);
    if !leaf {
      RotateChildRight(left, right);
    }
    left.numItems := left.numItems - 1;
    right.numItems := right.numItems + 1;
  }

  lemma Swapped<T>(pre: seq<T>, x: T, y: T, post: seq<T>)
    ensures (pre + [x] + post)[|pre| := y] == pre + [y] + post
    ensures (pre + [x] + post)[|pre|] == x
    ensures (pre + [x])[|pre|] == x && (pre + [x])[..|pre|] == pre
    ensures ([x] + post)[0] == x && ([x] + post)[1..] == post
  {
  }

  /** BorrowFromLeft, told in terms of what the three nodes hold. */
  method BorrowFromLeftNode(parent: Node, idx: nat, left: Node, right: Node, leaf: bool, ghost maxItems: nat,
                            ghost pre: seq<Item>, ghost sep: Item, ghost post: seq<Item>, ghost kids: seq<Node?>,
                            ghost l: Held, ghost x: Item, ghost moved: seq<Node?>, ghost r: Held)
    requires Apart(parent, left) && Apart(parent, right) && Apart(left, right)
    requires Holds(parent, Held(pre + [sep] + post, kids), maxItems)
    requires Holds(left, Held(l.items + [x], l.kids + moved), maxItems) && Holds(right, r, maxItems)
    requires |moved| == if leaf then 0 else 1
    requires (l.kids == [] <==> leaf) && (r.kids == [] <==> leaf) && kids != []
    requires idx == |pre| && |r.items| < maxItems
    modifies parent.items, left, right, right.items, right.children
    ensures Holds(parent, Held(pre + [x] + post, kids), maxItems)
    ensures Holds(left, l, maxItems) && Holds(right, Held([sep] + r.items, moved + r.kids), maxItems)
  {
    Swapped(pre, sep, x, post);
    Swapped(l.items, x, x, []);
    Swapped(l.kids, right, right, []);
    BorrowFromLeft(parent, idx, left, right, leaf);
  }

  /** The separator moves to the end of left and the first item of right replaces it. */
  method RotateItemLeft(parent: Node, idx: nat, left: Node, right: Node)
    requires Apart(parent, left) && Apart(parent, right) && Apart(left, right)
    requires parent.Fits() && left.Fits() && right.Fits()
    requires idx < parent.numItems && 0 < right.numItems && left.numItems < left.items.Length
    modifies parent.items, left.items, right.items
    ensures left.items[..left.numItems + 1] == old(left.Items()) + [old(parent.Items())[idx]]
    ensures parent.Items() == old(parent.Items())[idx := old(right.Items())[0]]
    ensures right.items[..right.numItems - 1] == old(right.Items())[1..]
  {
    left.items[left.numItems] := parent.items[idx];
    parent.items[idx] := right.items[0];
    right.ShiftItemsLeft(0);
  }

  /** The first child of right becomes the last child of left. */
  method RotateChildLeft(left: Node, right: Node)
    requires Apart(left, right)
    requires left.Fits() && right.Fits() && left.children.Length > 0 && right.children.Length > 0
    requires left.numItems < left.items.Length
    modifies left.children, right.children
    ensures left.children[..left.numItems + 2] == old(left.Kids()) + [old(right.Kids())[0]]
    ensures right.children[..right.numItems] == old(right.Kids())[1..]
  {
    left.children[left.numItems + 1] := right.children[0];
    right.ShiftChildrenLeft(0);
  }

  /** Borrows one item, and in inner nodes one child, from right. */
  method BorrowFromRight(parent: Node, idx: nat, left: Node, right: Node, leaf: bool)
    requires Apart(parent, left) && Apart(parent, right) && Apart(left, right)
    requires parent.Fits() && left.Fits() && right.Fits() && parent.children.Length > 0
    requires left.items.Length == right.items.Length && left.children.Length == right.children.Length
    requires leaf <==> left.children.Length == 0
    requires idx < parent.numItems && 0 < right.numItems && left.numItems < left.items.Length
    modifies parent.items, left, left.items, left.children, right, right.items, right.children
    ensures parent.Kids() == old(parent.Kids())
    ensures parent.Items() == old(parent.Items())[idx := old(right.Items())[0]]
    ensures left.Fits() && left.numItems == old(left.numItems) + 1
    ensures left.Items() == old(left.Items()) + [old(parent.Items())[idx]]
    ensures left.Kids() == if leaf then [] else old(left.Kids()) + [old(right.Kids())[0]]
    ensures right.Fits() && right.numItems == old(right.numItems) - 1
    ensures right.Items() == old(right.Items())[1..]
    ensures right.Kids() == if leaf then [] else old(right.Kids())[1..]
  {
    RotateItemLeft(parent, idx, left, right);
    if !leaf {
      RotateChildLeft(left, right);
    }
    right.numItems := right.numItems - 1;
    left.numItems := left.numItems + 1;
  }

  /** BorrowFromRight, told in terms of what the three nodes hold. */
  method BorrowFromRightNode(parent: Node, idx: nat, left: Node, right: Node, leaf: bool, ghost maxItems: nat,
                             ghost pre: seq<Item>, ghost x: Item, ghost post: seq<Item>, ghost kids: seq<Node?>,
                             ghost l: Held, ghost sep: Item, ghost moved: seq<Node?>, ghost r: Held)
    requires Apart(parent, left) && Apart(parent, right) && Apart(left, right)
    requires Holds(parent, Held(pre + [x] + post, kids), maxItems)
    requires Holds(left, l, maxItems) && Holds(right, Held([sep] + r.items, moved + r.kids), maxItems)
    requires |moved| == if leaf then 0 else 1
    requires (l.kids == [] <==> leaf) && (r.kids == [] <==> leaf) && kids != []
    requires idx == |pre| && |l.items| < maxItems
    modifies parent.items, left, left.items, left.children, right, right.items, right.children
    ensures Holds(parent, Held(pre + [sep] + post, kids), maxItems)
    ensures Holds(left, Held(l.items + [x], l.kids + moved), maxItems) && Holds(right, r, maxItems)
  {
    Swapped(pre, x, sep, post);
    Swapped([], sep, sep, r.items);
    if !leaf {
      assert moved == [moved[0]];
      Swapped([], moved[0], right, r.kids);
    } else {
      assert moved == [] && moved + r.kids == r.kids && l.kids + moved == l.kids;
    }
    BorrowFromRight(parent, idx, left, right, leaf);
    assert parent.Items() == pre + [sep] + post;
    assert right.Items() == r.items && right.Kids() == r.kids;
    assert left.Items() == l.items + [x] && left.Kids() == l.kids + moved;
  }
}
