/** The order of binary heaps that are stored in part of an array. */
module HeapOrder {
  import opened SortElements

  function Parent(i: int): int {
    (i - 1) / 2
  }

  function LeftChild(i: nat): nat {
    2 * i + 1
  }

  function RightChild(i: nat): nat {
    2 * i + 2
  }

  /** The heap starts at o and has n elements; up says which order it is for. */
  datatype View = View(o: nat, n: nat, up: bool)

  ghost predicate Fits(s: seq<Elem>, v: View) {
    v.o + v.n <= |s|
  }

  ghost function Item(s: seq<Elem>, v: View, k: nat): Elem
    requires Fits(s, v) && k < v.n
  {
    s[v.o + k]
  }

  /** Element k is not less than its parent. */
  ghost predicate Edge(s: seq<Elem>, v: View, k: int) {
    Fits(s, v) && 1 <= k < v.n ==> !Less(v.up, Item(s, v, k), Item(s, v, Parent(k)))
  }

  ghost predicate Heap(s: seq<Elem>, v: View) {
    Fits(s, v) && forall k {:trigger Edge(s, v, k)} :: 1 <= k < v.n ==> Edge(s, v, k)
  }

  /** The edges below lo, but not the one above start. */
  ghost predicate Below(v: View, lo: int, start: int, k: int) {
    1 <= k < v.n && k != start && lo <= Parent(k)
  }

  /** All these edges are right. */
  ghost predicate EdgesOk(s: seq<Elem>, v: View, lo: int, start: int) {
    Fits(s, v) && forall k {:trigger Edge(s, v, k)} :: Below(v, lo, start, k) ==> Edge(s, v, k)
  }

  /** start is k or above it. */
  ghost predicate Under(start: int, k: int)
    decreases k
  {
    k == start || (k > start >= 0 && Under(start, Parent(k)))
  }

  /** Child c of i is not less than i's parent. */
  ghost predicate Skip(s: seq<Elem>, v: View, i: int, c: int) {
    Fits(s, v) && 1 <= c < v.n && Parent(c) == i && 1 <= i < v.n ==> !Less(v.up, Item(s, v, c), Item(s, v, Parent(i)))
  }

  /** Element i may be too small for its place; below start everything else is right. */
  ghost predicate TooHighUp(s: seq<Elem>, v: View, lo: int, start: int, i: int) {
    Fits(s, v) && 0 <= lo <= start <= i && Under(start, i) && (i < v.n || i == start) &&
    (forall k {:trigger Edge(s, v, k)} :: Below(v, lo, start, k) && k != i ==> Edge(s, v, k)) &&
    (i != start ==> forall c {:trigger Skip(s, v, i, c)} :: Skip(s, v, i, c))
  }

  /** Element i may also be too large for its place. */
  ghost predicate Moving(s: seq<Elem>, v: View, lo: int, start: int, i: int) {
    Fits(s, v) && 0 <= lo <= start <= i && Under(start, i) && (i < v.n || i == start) &&
    (forall k {:trigger Edge(s, v, k)} :: Below(v, lo, start, k) && k != i && Parent(k) != i ==> Edge(s, v, k)) &&
    (i != start ==> forall c {:trigger Skip(s, v, i, c)} :: Skip(s, v, i, c))
  }

  /** Everything at and below start but element i is not less than w. */
  ghost predicate Bounded(s: seq<Elem>, v: View, start: int, i: int, w: Elem) {
    Fits(s, v) && forall k {:trigger Under(start, k)} :: 0 <= k < v.n && k != i && Under(start, k) ==> !Less(v.up, Item(s, v, k), w)
  }

  lemma UnderParent(start: int, i: int)
    requires Under(start, i) && 0 <= start && i != start
    ensures i > start && start <= Parent(i) < i && Under(start, Parent(i))
  {
  }

  lemma UnderChild(start: int, i: nat, c: int)
    requires Under(start, i) && 0 <= start <= i && (c == LeftChild(i) || c == RightChild(i))
    ensures Under(start, c) && Parent(c) == i && c > i
  {
  }

  lemma {:induction false} UnderRoot(k: int)
    requires k >= 0
    ensures Under(0, k)
    decreases k
  {
    if k > 0 {
      UnderRoot(Parent(k));
    }
  }

  // ---------------------------------------------------------------- one step up

  lemma SwappedItem(s: seq<Elem>, v: View, i: nat, j: nat, k: nat)
    requires Fits(s, v) && i < v.n && j < v.n && k < v.n
    ensures Fits(Swapped(s, v.o + i, v.o + j), v)
    ensures Item(Swapped(s, v.o + i, v.o + j), v, k) ==
      if k == j then Item(s, v, i) else if k == i then Item(s, v, j) else Item(s, v, k)
  {
  }

  lemma UpEdge(s: seq<Elem>, v: View, lo: int, start: int, i: int, k: int)
    requires TooHighUp(s, v, lo, start, i) && i != start && i < v.n && 0 <= Parent(i) && Below(v, lo, start, k) && k != Parent(i)
    requires !Less(v.up, Item(s, v, Parent(i)), Item(s, v, i))
    ensures Edge(Swapped(s, v.o + i, v.o + Parent(i)), v, k)
  {
    var p := Parent(i);
    SwappedItem(s, v, i, p, k);
    SwappedItem(s, v, i, p, Parent(k));
    assert k != i ==> Edge(s, v, k);
    assert Parent(k) == i ==> Skip(s, v, i, k);
    hide Under, TooHighUp;
  }

  lemma UpSkip(s: seq<Elem>, v: View, lo: int, start: int, i: int, c: int)
    requires TooHighUp(s, v, lo, start, i) && i != start && i < v.n && 0 <= lo <= start <= Parent(i) && Parent(i) != start
    requires !Less(v.up, Item(s, v, Parent(i)), Item(s, v, i)) && start < Parent(i)
    ensures Skip(Swapped(s, v.o + i, v.o + Parent(i)), v, Parent(i), c)
  {
    var p := Parent(i);
    if 1 <= c < v.n && Parent(c) == p && 1 <= p {
      assert start <= Parent(p) by {
        UnderParent(start, i);
        UnderParent(start, p);
      }
      SwappedItem(s, v, i, p, c);
      SwappedItem(s, v, i, p, Parent(p));
      assert Below(v, lo, start, p);
      assert Edge(s, v, p);
      assert c != i ==> Below(v, lo, start, c) && Edge(s, v, c);
      hide Under, TooHighUp;
    }
  }

  /** Exchanging an element with its parent that is not less. */
  lemma StepUp(s: seq<Elem>, v: View, lo: int, start: int, i: int)
    requires TooHighUp(s, v, lo, start, i) && i != start && i < v.n && 0 <= Parent(i)
    requires !Less(v.up, Item(s, v, Parent(i)), Item(s, v, i))
    ensures TooHighUp(Swapped(s, v.o + i, v.o + Parent(i)), v, lo, start, Parent(i))
  {
    var p := Parent(i);
    var t := Swapped(s, v.o + i, v.o + p);
    UnderParent(start, i);
    forall k | Below(v, lo, start, k) && k != p ensures Edge(t, v, k) {
      UpEdge(s, v, lo, start, i, k);
    }
    if p != start {
      forall c ensures Skip(t, v, p, c) {
        UpSkip(s, v, lo, start, i, c);
      }
    }
    hide Edge, Skip, Below;
  }

  lemma UpDone(s: seq<Elem>, v: View, lo: int, start: int, i: int)
    requires TooHighUp(s, v, lo, start, i)
    requires i == start || (i < v.n && 0 <= Parent(i) && Less(v.up, Item(s, v, Parent(i)), Item(s, v, i)))
    ensures EdgesOk(s, v, lo, start)
  {
    assert i != start ==> Edge(s, v, i);
    hide Under, Skip;
  }

  // ---------------------------------------------------------------- one step down

  lemma DownEdge(s: seq<Elem>, v: View, lo: int, start: int, i: nat, m: nat, k: int)
    requires Moving(s, v, lo, start, i) && i < m < v.n && Parent(m) == i && Below(v, lo, start, k) && k != m && Parent(k) != m
    requires forall c :: 1 <= c < v.n && Parent(c) == i ==> !Less(v.up, Item(s, v, c), Item(s, v, m))
    ensures Edge(Swapped(s, v.o + i, v.o + m), v, k)
  {
    SwappedItem(s, v, i, m, k);
    SwappedItem(s, v, i, m, Parent(k));
    assert k != i && Parent(k) != i ==> Edge(s, v, k);
    assert k == i ==> Skip(s, v, i, m);
    hide Under, Moving;
  }

  lemma DownSkip(s: seq<Elem>, v: View, lo: int, start: int, i: nat, m: nat, c: int)
    requires Moving(s, v, lo, start, i) && i < m < v.n && Parent(m) == i
    ensures Skip(Swapped(s, v.o + i, v.o + m), v, m, c)
  {
    if 1 <= c < v.n && Parent(c) == m {
      SwappedItem(s, v, i, m, c);
      SwappedItem(s, v, i, m, i);
      assert Below(v, lo, start, c);
      assert Edge(s, v, c);
    }
  }

  /** Exchanging an element with its smallest child. */
  lemma StepDown(s: seq<Elem>, v: View, lo: int, start: int, i: nat, m: nat)
    requires Moving(s, v, lo, start, i) && i < m < v.n && Parent(m) == i && Under(start, m)
    requires forall c :: 1 <= c < v.n && Parent(c) == i ==> !Less(v.up, Item(s, v, c), Item(s, v, m))
    ensures Moving(Swapped(s, v.o + i, v.o + m), v, lo, start, m)
  {
    var t := Swapped(s, v.o + i, v.o + m);
    forall k | Below(v, lo, start, k) && k != m && Parent(k) != m ensures Edge(t, v, k) {
      DownEdge(s, v, lo, start, i, m, k);
    }
    forall c ensures Skip(t, v, m, c) {
      DownSkip(s, v, lo, start, i, m, c);
    }
    hide Edge, Skip, Below;
  }

  /** The element is not larger than its children. */
  lemma DownDone(s: seq<Elem>, v: View, lo: int, start: int, i: nat)
    requires Moving(s, v, lo, start, i) && (i < v.n ==> forall c :: 1 <= c < v.n && Parent(c) == i ==> !Less(v.up, Item(s, v, c), Item(s, v, i)))
    ensures TooHighUp(s, v, lo, start, i)
  {
    forall k | Below(v, lo, start, k) && k != i ensures Edge(s, v, k) {
      assert Parent(k) != i ==> Edge(s, v, k);
    }
    hide Under, Skip;
  }

  /** The element has been exchanged with its only child, which is less and has no children; everything is right then. */
  lemma DownLast(s: seq<Elem>, v: View, lo: int, start: int, i: nat, m: nat)
    requires Moving(s, v, lo, start, i) && i < m && m == v.n - 1 && Parent(m) == i && m == LeftChild(i)
    requires Less(v.up, Item(s, v, m), Item(s, v, i))
    ensures EdgesOk(Swapped(s, v.o + i, v.o + m), v, lo, start)
  {
    var t := Swapped(s, v.o + i, v.o + m);
    forall k | Below(v, lo, start, k) ensures Edge(t, v, k) {
      SwappedItem(s, v, i, m, k);
      SwappedItem(s, v, i, m, Parent(k));
      if k != m {
        DownEdge(s, v, lo, start, i, m, k);
      }
    }
    hide Edge, Skip;
  }

  // ---------------------------------------------------------------- bounds

  lemma BoundedSwap(s: seq<Elem>, v: View, start: int, i: nat, j: nat, w: Elem)
    requires Bounded(s, v, start, i, w) && i < v.n && j < v.n && Under(start, i) && Under(start, j)
    ensures Bounded(Swapped(s, v.o + i, v.o + j), v, start, j, w)
  {
    var t := Swapped(s, v.o + i, v.o + j);
    forall k {:trigger Under(start, k)} | 0 <= k < v.n && k != j && Under(start, k) ensures !Less(v.up, Item(t, v, k), w) {
      SwappedItem(s, v, i, j, k);
    }
  }

  /** In a heap, nothing below an element is less. */
  lemma {:induction false} HeapMin(s: seq<Elem>, v: View, lo: int, start: nat, k: nat)
    requires EdgesOk(s, v, lo, start) && lo <= start && k < v.n && Under(start, k)
    ensures start < v.n && !Less(v.up, Item(s, v, k), Item(s, v, start))
    decreases k
  {
    if k != start {
      UnderParent(start, k);
      HeapMin(s, v, lo, start, Parent(k));
      assert Edge(s, v, k);
    }
  }

  lemma HeapEdges(s: seq<Elem>, v: View)
    ensures EdgesOk(s, v, 0, 0) <==> Heap(s, v)
  {
    if EdgesOk(s, v, 0, 0) {
      forall k | 1 <= k < v.n ensures Edge(s, v, k) {
        assert Below(v, 0, 0, k);
      }
    }
  }

  /** The first element of a heap is a smallest one. */
  lemma HeapFirst(s: seq<Elem>, v: View, k: nat)
    requires Heap(s, v) && k < v.n
    ensures !Less(v.up, Item(s, v, k), Item(s, v, 0))
  {
    HeapEdges(s, v);
    UnderRoot(k);
    HeapMin(s, v, 0, 0, k);
  }
}
