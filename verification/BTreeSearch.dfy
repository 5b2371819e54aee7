/** Searching one node: a binary search that hands over to a two-ended linear search. */
module BTreeSearch {
  import opened BTreeNode
  import opened BTreeTree
  import opened BTreePath

  ghost predicate Sorted(s: seq<Item>) {
    forall i, j :: 0 <= i < j < |s| ==> s[i].key < s[j].key
  }

  ghost predicate AllBelow(s: seq<Item>, key: int) {
    forall i :: 0 <= i < |s| ==> s[i].key < key
  }

  ghost predicate AllAbove(s: seq<Item>, key: int) {
    forall i :: 0 <= i < |s| ==> key < s[i].key
  }

  /** idx is the one place where key can be inserted into s. */
  ghost predicate InsertionPoint(s: seq<Item>, key: int, idx: nat) {
    idx <= |s| && AllBelow(s[..idx], key) && AllAbove(s[idx..], key)
  }

  lemma PointAt(s: seq<Item>, key: int, idx: nat, m: nat)
    requires InsertionPoint(s, key, idx) && m < |s|
    ensures if m < idx then s[m].key < key else key < s[m].key
  {
    assert if m < idx then s[..idx][m] == s[m] else s[idx..][m - idx] == s[m];
  }

  /** The sign of the comparison of a key with an item. */
  function Compare(key: int, item: Item): int {
    if key < item.key then -1 else if key > item.key then 1 else 0
  }

  /** Between start and end the key may still be; everything before is smaller, everything behind greater. */
  ghost predicate Narrowed(s: seq<Item>, key: int, start: nat, end: nat) {
    start <= end <= |s| && AllBelow(s[..start], key) && AllAbove(s[end..], key)
  }

  method LinearSearch(node: Node, key: int, start0: nat, end0: nat) returns (found: bool, idx: nat)
    requires node.Fits() && Sorted(node.Items()) && Narrowed(node.Items(), key, start0, end0)
    ensures found ==> idx < node.numItems && node.Items()[idx].key == key
    ensures !found ==> InsertionPoint(node.Items(), key, idx)
  {
    var start: nat, end: nat := start0, end0;
    while start < end
      invariant Narrowed(node.Items(), key, start, end)
    {
      var cmp := Compare(key, node.items[start]);
      if cmp == 0 {
        return true, start;
      }
      if cmp < 0 {
        break;
      }
      start := start + 1;
      end := end - 1;
      cmp := Compare(key, node.items[end]);
      if cmp == 0 {
        return true, end;
      }
      if cmp > 0 {
        start := end + 1;
        break;
      }
    }
    return false, start;
  }

  /** For every threshold, the exact position of the key, or the one place where it belongs. */
  method NodeSearch(node: Node, key: int, linearSearchThreshold: nat) returns (found: bool, idx: nat)
    requires node.Fits() && Sorted(node.Items())
    ensures found ==> idx < node.numItems && node.Items()[idx].key == key
    ensures !found ==> InsertionPoint(node.Items(), key, idx)
  {
    var start: nat, end: nat := 0, node.numItems;
    while start + linearSearchThreshold < end
      invariant Narrowed(node.Items(), key, start, end)
    {
      var mid := (start + end) / 2;
      var cmp := Compare(key, node.items[mid]);
      if cmp == 0 {
        return true, mid;
      } else if cmp > 0 {
        start := mid + 1;
      } else {
        end := mid;
      }
    }
    if linearSearchThreshold == 0 {
      return false, start;
    }
    found, idx := LinearSearch(node, key, start, end);
  }

  /** A sorted sequence that ends below the key is all below it. */
  lemma EndsBelow(s: seq<Item>, key: int)
    requires Sorted(s) && (s != [] ==> s[|s| - 1].key < key)
    ensures AllBelow(s, key)
  {
  }

  lemma StartsAbove(s: seq<Item>, key: int)
    requires Sorted(s) && (s != [] ==> key < s[0].key)
    ensures AllAbove(s, key)
  {
  }

  lemma SortedParts(a: seq<Item>, b: seq<Item>, c: seq<Item>)
    requires Sorted(a + b + c)
    ensures Sorted(a) && Sorted(b) && Sorted(c)
  {
    var s := a + b + c;
    assert a == s[..|a|] && b == s[|a|..|a| + |b|] && c == s[|a| + |b|..];
  }

  /** What the path shows of the key: everything before the subtree is smaller, everything behind greater. */
  ghost predicate Around(fs: seq<Frame>, t: Tree, key: int, s: seq<Item>) {
    PathOk(fs) && Sorted(s) && Pre(fs) + Flat(t) + Post(fs) == s && AllBelow(Pre(fs), key) && AllAbove(Post(fs), key)
  }

  /** Going down at the insertion point keeps the key between what is before and what is behind. */
  lemma AroundDown(fs: seq<Frame>, t: Tree, idx: nat, key: int, s: seq<Item>)
    requires Around(fs, t, key, s) && |t.kids| == |t.items| + 1 && InsertionPoint(t.items, key, idx)
    ensures Around(Deeper(fs, t, idx), t.kids[idx], key, s)
  {
    var f := FrameAt(t, idx);
    PushFrame(fs, f);
    FrameAtPlug(t, idx);
    PlugFlat(f, t.kids[idx]);
    var x, y, z := FramePre(f), Flat(t.kids[idx]), FramePost(f);
    FrameEnds(t, idx);
    hide Flat, FramePre, FramePost, Pre, Post;
    PrePush(fs, f);
    Regroup(Pre(fs), x, y, z, Post(fs));
    SortedParts(Pre(fs) + x, y, z + Post(fs));
    if x != [] {
      assert (Pre(fs) + x)[|Pre(fs) + x| - 1] == x[|x| - 1];
      EndsBelow(Pre(fs) + x, key);
    } else {
      assert Pre(fs) + x == Pre(fs);
    }
    if z != [] {
      assert (z + Post(fs))[0] == z[0];
      StartsAbove(z + Post(fs), key);
    } else {
      assert z + Post(fs) == Post(fs);
    }
  }

  lemma PrePush(fs: seq<Frame>, f: Frame)
    requires PathOk(fs) && FrameOk(f)
    ensures PathOk(fs + [f]) && Pre(fs + [f]) == Pre(fs) + FramePre(f) && Post(fs + [f]) == FramePost(f) + Post(fs)
  {
    PushFrame(fs, f);
  }

  lemma Regroup<T>(a: seq<T>, x: seq<T>, y: seq<T>, z: seq<T>, b: seq<T>)
    ensures a + (x + y + z) + b == (a + x) + y + (z + b)
  {
  }

  lemma FrameEnds(t: Tree, idx: nat)
    requires |t.kids| == |t.items| + 1 && idx <= |t.items|
    ensures var x := FramePre(FrameAt(t, idx)); x != [] ==> idx > 0 && x[|x| - 1] == t.items[..idx][idx - 1]
    ensures var z := FramePost(FrameAt(t, idx)); z != [] ==> idx < |t.items| && z[0] == t.items[idx..][0]
  {
  }

  lemma PointUnique(s: seq<Item>, key: int, i: nat, j: nat)
    requires InsertionPoint(s, key, i) && InsertionPoint(s, key, j)
    ensures i == j
  {
    if i < j {
      PointAt(s, key, i, i);
      PointAt(s, key, j, i);
    } else if j < i {
      PointAt(s, key, i, j);
      PointAt(s, key, j, j);
    }
  }

  /** An insertion point inside a leaf is the insertion point of the whole tree. */
  lemma LeafPoint(a: seq<Item>, items: seq<Item>, b: seq<Item>, idx: nat, key: int)
    requires AllBelow(a, key) && AllAbove(b, key) && InsertionPoint(items, key, idx)
    ensures InsertionPoint(a + items + b, key, |a| + idx)
  {
    var s, k := a + items + b, |a| + idx;
    assert s[..k] == a + items[..idx] && s[k..] == items[idx..] + b;
  }

  lemma LeafInsert(a: seq<Item>, items: seq<Item>, b: seq<Item>, idx: nat, item: Item, p: nat)
    requires AllBelow(a, item.key) && AllAbove(b, item.key) && InsertionPoint(items, item.key, idx)
    requires InsertionPoint(a + items + b, item.key, p)
    ensures a + Inserted(items, idx, item) + b == Inserted(a + items + b, p, item)
  {
    LeafPoint(a, items, b, idx, item.key);
    var s, k := a + items + b, |a| + idx;
    PointUnique(s, item.key, p, k);
    assert s[..k] == a + items[..idx] && s[k..] == items[idx..] + b;
    assert a + Inserted(items, idx, item) + b == (a + items[..idx]) + [item] + (items[idx..] + b);
  }

  /** The separators of a sorted node are sorted. */
  lemma {:induction false} WeaveSorted(kids: seq<Tree>, items: seq<Item>)
    requires Sorted(Weave(kids, items)) && Balanced(kids, items)
    ensures Sorted(items)
    ensures forall x :: x in items ==> x in Weave(kids, items)
    decreases |items|
  {
    if kids != [] && items != [] {
      var rest := Weave(kids[1..], items[1..]);
      SortedParts(Flat(kids[0]), [items[0]], rest);
      HeadSorted(Flat(kids[0]), items[0], rest);
      WeaveSorted(kids[1..], items[1..]);
      assert items == [items[0]] + items[1..];
      assert forall i :: 0 < i < |items| ==> items[i] in items[1..];
    }
  }

  lemma HeadSorted(a: seq<Item>, x: Item, b: seq<Item>)
    requires Sorted(a + [x] + b)
    ensures forall y :: y in b ==> x.key < y.key
  {
    var s := a + [x] + b;
    assert s[|a|] == x;
    assert forall i :: 0 <= i < |b| ==> b[i] == s[|a| + 1 + i];
  }

  lemma NodeSorted(t: Tree)
    requires Sorted(Flat(t)) && Balanced(t.kids, t.items)
    ensures Sorted(t.items)
  {
    WeaveSorted(t.kids, t.items);
  }
}
