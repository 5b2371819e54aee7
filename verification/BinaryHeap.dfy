/** Binary heaps in part of an array: sifting, inserting, deleting, and sorting. */
module BinaryHeap {
  import opened SortElements
  import opened HeapOrder

  /** Where the heap of v lies, only that part of the array is rearranged. */
  ghost predicate Rearranged(s: seq<Elem>, t: seq<Elem>, v: View) {
    PermWithin(s, t, v.o, v.o + v.n)
  }

  lemma SwapRearranged(s: seq<Elem>, t: seq<Elem>, v: View, i: nat, j: nat)
    requires Fits(t, v) && Rearranged(s, t, v) && i < v.n && j < v.n
    ensures Rearranged(s, Swapped(t, v.o + i, v.o + j), v) && Fits(Swapped(t, v.o + i, v.o + j), v)
  {
    SwapPerm(t, v.o + i, v.o + j, v.o, v.o + v.n);
    PermTrans(s, t, Swapped(t, v.o + i, v.o + j), v.o, v.o + v.n);
  }

  /** Elements behind i are as they were, and i is the same or has become what its parent was. */
  ghost predicate UpTo(s: seq<Elem>, t: seq<Elem>, v: View, i: int) {
    Fits(s, v) && Fits(t, v) && (forall k :: 0 <= k < v.n && k > i ==> Item(t, v, k) == Item(s, v, k)) &&
    (1 <= i < v.n ==> Item(t, v, i) == Item(s, v, i) || Item(t, v, i) == Item(s, v, Parent(i)))
  }

  /** Elements before start are as they were. */
  ghost predicate FromStart(s: seq<Elem>, t: seq<Elem>, v: View, start: int) {
    Fits(s, v) && Fits(t, v) && forall k :: 0 <= k < v.n && k < start ==> Item(t, v, k) == Item(s, v, k)
  }

  lemma FromStartStep(s: seq<Elem>, t: seq<Elem>, v: View, start: int, i: nat, j: nat)
    requires FromStart(s, t, v, start) && start <= i < v.n && start <= j < v.n
    ensures FromStart(s, Swapped(t, v.o + i, v.o + j), v, start)
  {
    forall k | 0 <= k < v.n && k < start ensures Item(Swapped(t, v.o + i, v.o + j), v, k) == Item(s, v, k) {
      SwappedItem(t, v, i, j, k);
    }
  }

  lemma UpToStep(s: seq<Elem>, t: seq<Elem>, v: View, i: nat, j: nat)
    requires UpTo(s, t, v, i) && 1 <= j <= i < v.n && (j == i ==> t == s)
    ensures UpTo(s, Swapped(t, v.o + j, v.o + Parent(j)), v, i)
  {
    var u := Swapped(t, v.o + j, v.o + Parent(j));
    forall k | 0 <= k < v.n && k >= i ensures Item(u, v, k) == if k == j then Item(t, v, Parent(j)) else Item(t, v, k) {
      SwappedItem(t, v, j, Parent(j), k);
    }
  }

  /** Moves element i up as long as its parent is not less. */
  method SiftUp(a: array<Elem>, o: nat, up: bool, start: nat, i0: nat, ghost v: View, ghost lo: nat, ghost w: Elem) returns (ghost j: nat)
    requires v.o == o && v.up == up && Fits(a[..], v) && TooHighUp(a[..], v, lo, start, i0) && Bounded(a[..], v, start, i0, w)
    modifies a
    ensures Fits(a[..], v) && EdgesOk(a[..], v, lo, start) && Rearranged(old(a[..]), a[..], v) && UpTo(old(a[..]), a[..], v, i0)
    ensures Bounded(a[..], v, start, j, w) && FromStart(old(a[..]), a[..], v, start)
  {
    hide *;
    var i := i0;
    UpStart(a[..], v, i);
    if i != start {
      UpFacts(a[..], v, lo, start, i);
    }
    while i != start
      invariant Fits(a[..], v) && TooHighUp(a[..], v, lo, start, i) && Bounded(a[..], v, start, i, w)
      invariant Rearranged(old(a[..]), a[..], v) && UpTo(old(a[..]), a[..], v, i0) && i <= i0 && (i == i0 ==> a[..] == old(a[..]))
      invariant (i != start ==> i0 < v.n) && FromStart(old(a[..]), a[..], v, start)
      decreases i
    {
      UpFacts(a[..], v, lo, start, i);
      var parent := Parent(i);
      if Less(up, a[o + parent], a[o + i]) {
        break;
      }
      ghost var s := a[..];
      ItemsAre(s, v, i, parent);
      StepUp(s, v, lo, start, i);
      BoundedSwap(s, v, start, i, parent, w);
      UpToStep(old(a[..]), s, v, i0, i);
      FromStartStep(old(a[..]), s, v, start, i, parent);
      SwapRearranged(old(a[..]), s, v, i, parent);
      Swap(a, o + i, o + parent);
      i := parent;
    }
    if i != start {
      UpFacts(a[..], v, lo, start, i);
      ItemsAre(a[..], v, i, Parent(i));
    }
    UpDone(a[..], v, lo, start, i);
    j := i;
  }

  lemma UpStart(s: seq<Elem>, v: View, i: nat)
    requires Fits(s, v)
    ensures Rearranged(s, s, v) && UpTo(s, s, v, i) && forall start :: FromStart(s, s, v, start)
  {
  }

  lemma UpFacts(s: seq<Elem>, v: View, lo: int, start: int, i: int)
    requires TooHighUp(s, v, lo, start, i) && i != start
    ensures 0 <= lo <= start <= Parent(i) < i < v.n && 1 <= i && Under(start, i) && Under(start, Parent(i)) && v.o + v.n <= |s|
  {
    UnderParent(start, i);
  }

  lemma ItemsAre(s: seq<Elem>, v: View, i: nat, j: nat)
    requires Fits(s, v) && i < v.n && j < v.n
    ensures v.o + i < |s| && v.o + j < |s| && Item(s, v, i) == s[v.o + i] && Item(s, v, j) == s[v.o + j]
  {
  }

  /** Slot n - 1 holds x, and so does slot i. */
  ghost predicate Doubled(s: seq<Elem>, v: View, i: int, x: Elem) {
    Fits(s, v) && 0 <= i < v.n && v.n >= 2 && Item(s, v, i) == x && Item(s, v, v.n - 1) == x &&
    (i == v.n - 1 ==> Item(s, v, Parent(i)) == x)
  }

  lemma DoubledStep(s: seq<Elem>, v: View, i: nat, m: nat, x: Elem)
    requires Doubled(s, v, i, x) && i < m < v.n && Parent(m) == i
    ensures Doubled(Swapped(s, v.o + i, v.o + m), v, m, x)
  {
    SwappedItem(s, v, i, m, m);
    SwappedItem(s, v, i, m, v.n - 1);
    SwappedItem(s, v, i, m, i);
  }

  lemma DoubledUp(s: seq<Elem>, t: seq<Elem>, v: View, i: nat, x: Elem)
    requires Doubled(s, v, i, x) && UpTo(s, t, v, i)
    ensures Fits(t, v) && v.n >= 1 && Item(t, v, v.n - 1) == x
  {
  }

  /** The smaller child of i. */
  lemma SmallerChild(s: seq<Elem>, v: View, i: nat, m: nat)
    requires Fits(s, v) && RightChild(i) < v.n && (m == LeftChild(i) || m == RightChild(i))
    requires m == if Less(v.up, Item(s, v, RightChild(i)), Item(s, v, LeftChild(i))) then RightChild(i) else LeftChild(i)
    ensures forall c :: 1 <= c < v.n && Parent(c) == i ==> !Less(v.up, Item(s, v, c), Item(s, v, m))
    ensures i < m < v.n && Parent(m) == i
  {
    forall c | 1 <= c < v.n && Parent(c) == i ensures !Less(v.up, Item(s, v, c), Item(s, v, m)) {
      assert c == LeftChild(i) || c == RightChild(i);
    }
  }

  lemma NoSmallChild(s: seq<Elem>, v: View, i: nat)
    requires Fits(s, v) && i < v.n && RightChild(i) >= v.n
    requires LeftChild(i) < v.n ==> !Less(v.up, Item(s, v, LeftChild(i)), Item(s, v, i))
    ensures forall c :: 1 <= c < v.n && Parent(c) == i ==> !Less(v.up, Item(s, v, c), Item(s, v, i))
  {
    forall c | 1 <= c < v.n && Parent(c) == i ensures !Less(v.up, Item(s, v, c), Item(s, v, i)) {
      assert c == LeftChild(i) || c == RightChild(i);
    }
  }

  lemma MovingFacts(s: seq<Elem>, v: View, lo: int, start: int, i: int)
    requires Moving(s, v, lo, start, i)
    ensures 0 <= lo <= start <= i && Under(start, i) && v.o + v.n <= |s| && (i < v.n || i == start)
  {
  }

  lemma ChildrenAre(i: nat)
    ensures LeftChild(i) == 2 * i + 1 && RightChild(i) == 2 * i + 2 && Parent(LeftChild(i)) == i == Parent(RightChild(i))
  {
  }

  /** Takes the smaller child up until there is none, and then lets the element sift up again. */
  method SiftDownBottomUp(a: array<Elem>, o: nat, up: bool, n: nat, start: nat, ghost v: View, ghost lo: nat, ghost w: Elem, ghost x: Elem)
    returns (ghost j: nat)
    requires v == View(o, n, up) && Fits(a[..], v) && Moving(a[..], v, lo, start, start) && Bounded(a[..], v, start, start, w)
    modifies a
    ensures Fits(a[..], v) && EdgesOk(a[..], v, lo, start) && Rearranged(old(a[..]), a[..], v) && Bounded(a[..], v, start, j, w)
    ensures Doubled(old(a[..]), v, start, x) ==> n >= 1 && Item(a[..], v, n - 1) == x
    ensures FromStart(old(a[..]), a[..], v, start)
  {
    hide *;
    var i := start;
    UpStart(a[..], v, i);
    ghost var doubled := Doubled(a[..], v, start, x);
    ViewIs(v, o, n, up);
    while true
      invariant Fits(a[..], v) && Moving(a[..], v, lo, start, i) && Bounded(a[..], v, start, i, w)
      invariant Rearranged(old(a[..]), a[..], v) && (doubled ==> Doubled(a[..], v, i, x)) && FromStart(old(a[..]), a[..], v, start)
      decreases n - i
    {
      ghost var s := a[..];
      MovingFacts(s, v, lo, start, i);
      ChildrenAre(i);
      var left, right := LeftChild(i), RightChild(i);
      UnderChild(start, i, left);
      UnderChild(start, i, right);
      if right >= n {
        if left == n - 1 && Less(up, a[o + left], a[o + i]) {
          ItemsAre(s, v, i, left);
          DownLast(s, v, lo, start, i, left);
          BoundedSwap(s, v, start, i, left, w);
          SwapRearranged(old(a[..]), s, v, i, left);
          FromStartStep(old(a[..]), s, v, start, i, left);
          DoubledNotLess(s, v, i, x);
          Swap(a, o + left, o + i);
          SwapSame(s, o + i, o + left);
          return left;
        }
        if i < n {
          if left < n {
            ItemsAre(s, v, i, left);
          }
          NoSmallChild(s, v, i);
        }
        DownDone(s, v, lo, start, i);
        break;
      }
      var smallest := left;
      ItemsAre(s, v, right, left);
      if Less(up, a[o + right], a[o + left]) {
        smallest := right;
      }
      SmallerChild(s, v, i, smallest);
      StepDown(s, v, lo, start, i, smallest);
      BoundedSwap(s, v, start, i, smallest, w);
      SwapRearranged(old(a[..]), s, v, i, smallest);
      FromStartStep(old(a[..]), s, v, start, i, smallest);
      if doubled {
        DoubledStep(s, v, i, smallest, x);
      }
      Swap(a, o + i, o + smallest);
      i := smallest;
    }
    ghost var s := a[..];
    j := SiftUp(a, o, up, start, i, v, lo, w);
    RearrangedTrans(old(a[..]), s, a[..], v);
    FromStartTrans(old(a[..]), s, a[..], v, start);
    if doubled {
      DoubledUp(s, a[..], v, i, x);
    }
  }

  lemma ViewIs(v: View, o: nat, n: nat, up: bool)
    requires v == View(o, n, up)
    ensures v.o == o && v.n == n && v.up == up
  {
  }

  lemma RearrangedTrans(s: seq<Elem>, t: seq<Elem>, u: seq<Elem>, v: View)
    requires Rearranged(s, t, v) && Rearranged(t, u, v)
    ensures Rearranged(s, u, v)
  {
  }

  lemma FromStartTrans(s: seq<Elem>, t: seq<Elem>, u: seq<Elem>, v: View, start: int)
    requires FromStart(s, t, v, start) && FromStart(t, u, v, start)
    ensures FromStart(s, u, v, start)
  {
  }

  lemma DoubledNotLess(s: seq<Elem>, v: View, i: nat, x: Elem)
    requires Fits(s, v) && i < v.n && 0 < v.n
    ensures Doubled(s, v, i, x) ==> !Less(v.up, Item(s, v, v.n - 1), Item(s, v, i))
  {
  }

  lemma SwapSame(s: seq<Elem>, i: nat, j: nat)
    requires i < |s| && j < |s|
    ensures Swapped(s, i, j) == Swapped(s, j, i)
  {
  }

  // ---------------------------------------------------------------- sifting down without going to the end

  lemma SmallestOfThree(s: seq<Elem>, v: View, i: nat, m: nat)
    requires Fits(s, v) && i < v.n && (m == i || m == LeftChild(i) || m == RightChild(i)) && m < v.n
    requires !Less(v.up, Item(s, v, i), Item(s, v, m))
    requires LeftChild(i) < v.n ==> !Less(v.up, Item(s, v, LeftChild(i)), Item(s, v, m))
    requires RightChild(i) < v.n ==> !Less(v.up, Item(s, v, RightChild(i)), Item(s, v, m))
    ensures forall c :: 1 <= c < v.n && Parent(c) == i ==> !Less(v.up, Item(s, v, c), Item(s, v, m))
    ensures m != i ==> i < m && Parent(m) == i
  {
    forall c | 1 <= c < v.n && Parent(c) == i ensures !Less(v.up, Item(s, v, c), Item(s, v, m)) {
      assert c == LeftChild(i) || c == RightChild(i);
    }
  }

  lemma DownStops(s: seq<Elem>, v: View, lo: int, start: int, i: nat)
    requires Moving(s, v, lo, start, i) && i < v.n && (i == start || !Less(v.up, Item(s, v, i), Item(s, v, Parent(i))))
    requires forall c :: 1 <= c < v.n && Parent(c) == i ==> !Less(v.up, Item(s, v, c), Item(s, v, i))
    ensures EdgesOk(s, v, lo, start)
  {
    forall k | Below(v, lo, start, k) ensures Edge(s, v, k) {
      assert Parent(k) != i && k != i ==> Edge(s, v, k);
    }
    hide Under, Skip;
  }

  /** Moves element i down as long as one of its children is less. */
  method SiftDown(a: array<Elem>, o: nat, up: bool, n: nat, start: nat, ghost v: View, ghost lo: nat)
    requires v == View(o, n, up) && start < n && Fits(a[..], v) && Moving(a[..], v, lo, start, start)
    modifies a
    ensures Fits(a[..], v) && EdgesOk(a[..], v, lo, start) && Rearranged(old(a[..]), a[..], v)
  {
    hide *;
    var i := start;
    UpStart(a[..], v, i);
    ViewIs(v, o, n, up);
    while true
      invariant Fits(a[..], v) && Moving(a[..], v, lo, start, i) && Rearranged(old(a[..]), a[..], v) && i < n
      invariant i != start ==> 1 <= i && 0 <= Parent(i) < n && !Less(up, Item(a[..], v, i), Item(a[..], v, Parent(i)))
      decreases n - i
    {
      ghost var s := a[..];
      MovingFacts(s, v, lo, start, i);
      ChildrenAre(i);
      var left, right := LeftChild(i), RightChild(i);
      UnderChild(start, i, left);
      UnderChild(start, i, right);
      ItemsAre(s, v, i, i);
      var smallest := i;
      NotLessSelf(up, s[o + i]);
      if left < n {
        ItemsAre(s, v, left, left);
        if Less(up, a[o + left], a[o + smallest]) {
          LessTotal(up, s[o + left], s[o + smallest]);
          smallest := left;
        }
      }
      NotLessSelf(up, s[o + smallest]);
      if right < n {
        ItemsAre(s, v, right, right);
        if Less(up, a[o + right], a[o + smallest]) {
          LessTotal(up, s[o + right], s[o + smallest]);
          LessBelow(up, s[o + right], s[o + smallest], s[o + i]);
          LessBelow(up, s[o + right], s[o + smallest], s[o + left]);
          smallest := right;
          NotLessSelf(up, s[o + right]);
        }
      }
      SmallestOfThree(s, v, i, smallest);
      if smallest == i {
        DownStops(s, v, lo, start, i);
        break;
      }
      StepDown(s, v, lo, start, i, smallest);
      SwapRearranged(old(a[..]), s, v, i, smallest);
      SwappedItem(s, v, i, smallest, i);
      SwappedItem(s, v, i, smallest, smallest);
      Swap(a, o + i, o + smallest);
      i := smallest;
    }
  }

  lemma NotLessSelf(up: bool, a: Elem)
    ensures !Less(up, a, a)
  {
  }

  lemma LessTotal(up: bool, a: Elem, b: Elem)
    requires Less(up, a, b)
    ensures !Less(up, b, a)
  {
  }

  lemma LessBelow(up: bool, a: Elem, b: Elem, c: Elem)
    requires Less(up, a, b) && !Less(up, c, b)
    ensures !Less(up, c, a)
  {
  }
}
