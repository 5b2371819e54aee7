/** Operations on whole binary heaps. */
module BinaryHeapOps {
  import opened SortElements
  import opened HeapOrder
  import opened BinaryHeap

  // ---------------------------------------------------------------- making a heap

  /** Something that nothing in s is less than. */
  lemma {:induction false} Least(s: seq<Elem>, up: bool) returns (w: Elem)
    ensures forall k :: 0 <= k < |s| ==> !Less(up, s[k], w)
  {
    if s == [] {
      w := Elem(0, 0);
    } else {
      var t := s[..|s| - 1];
      w := Least(t, up);
      assert forall k :: 0 <= k < |t| ==> s[k] == t[k];
      if Less(up, s[|s| - 1], w) {
        w := s[|s| - 1];
      }
    }
  }

  lemma LeastBounded(s: seq<Elem>, v: View, start: int, w: Elem)
    requires Fits(s, v) && forall k :: 0 <= k < |s| ==> !Less(v.up, s[k], w)
    ensures Bounded(s, v, start, start, w)
  {
  }

  lemma NextRoot(s: seq<Elem>, v: View, i: nat)
    requires EdgesOk(s, v, i + 1, i + 1) && i < v.n
    ensures Moving(s, v, i, i, i)
  {
    forall k | Below(v, i, i, k) && k != i && Parent(k) != i ensures Edge(s, v, k) {
      assert Below(v, i + 1, i + 1, k);
    }
  }

  lemma LeavesOnly(s: seq<Elem>, v: View)
    requires Fits(s, v)
    ensures EdgesOk(s, v, v.n / 2, v.n / 2)
  {
  }

  /** Makes a heap of n elements in any order. */
  method Heapify(a: array<Elem>, o: nat, up: bool, n: nat)
    requires o + n <= a.Length
    modifies a
    ensures Heap(a[..], View(o, n, up)) && Rearranged(old(a[..]), a[..], View(o, n, up))
  {
    ghost var v := View(o, n, up);
    assert Fits(a[..], v);
    ViewIs(v, o, n, up);
    LeavesOnly(a[..], v);
    UpStart(a[..], v, 0);
    hide *;
    var i := n / 2;
    while i > 0
      invariant 0 <= i <= n / 2 && Fits(a[..], v) && EdgesOk(a[..], v, i, i) && Rearranged(old(a[..]), a[..], v)
    {
      i := i - 1;
      ghost var s := a[..];
      NextRoot(s, v, i);
      ghost var w := Least(s, up);
      LeastBounded(s, v, i, w);
      ghost var j := SiftDownBottomUp(a, o, up, n, i, v, i, w, w);
      RearrangedTrans(old(a[..]), s, a[..], v);
    }
    HeapEdges(a[..], v);
  }

  // ---------------------------------------------------------------- inserting

  lemma OneMore(s: seq<Elem>, o: nat, i: nat, up: bool)
    requires Heap(s, View(o, i, up)) && o + i < |s|
    ensures TooHighUp(s, View(o, i + 1, up), 0, 0, i)
  {
    UnderRoot(i);
    var v := View(o, i + 1, up);
    forall k | Below(v, 0, 0, k) && k != i ensures Edge(s, v, k) {
      assert Edge(s, View(o, i, up), k);
    }
  }

  /** The element behind a heap of i elements is added to it. */
  method Insert(a: array<Elem>, o: nat, up: bool, i: nat)
    requires o + i < a.Length && Heap(a[..], View(o, i, up))
    modifies a
    ensures Heap(a[..], View(o, i + 1, up)) && Rearranged(old(a[..]), a[..], View(o, i + 1, up))
  {
    ghost var v := View(o, i + 1, up);
    ViewIs(v, o, i + 1, up);
    assert Fits(a[..], v);
    hide *;
    OneMore(a[..], o, i, up);
    ghost var w := Least(a[..], up);
    LeastBounded(a[..], v, 0, w);
    AnyBounded(a[..], v, i, w);
    ghost var j := SiftUp(a, o, up, 0, i, v, 0, w);
    HeapEdges(a[..], v);
  }

  lemma AnyBounded(s: seq<Elem>, v: View, i: nat, w: Elem)
    requires Fits(s, v) && forall k :: 0 <= k < |s| ==> !Less(v.up, s[k], w)
    ensures Bounded(s, v, 0, i, w)
  {
  }

  // ---------------------------------------------------------------- deleting

  lemma ReplacedMoving(s: seq<Elem>, v: View, i: nat, x: Elem)
    requires Heap(s, v) && i < v.n
    ensures Fits(s[v.o + i := x], v) && Moving(s[v.o + i := x], v, 0, i, i)
  {
    var t := s[v.o + i := x];
    forall k | Below(v, 0, i, k) && k != i && Parent(k) != i ensures Edge(t, v, k) {
      assert Edge(s, v, k);
    }
  }

  /** What is below i is not less than i's parent. */
  ghost function Floor(s: seq<Elem>, v: View, i: nat): Elem
    requires Fits(s, v) && i < v.n
  {
    if i > 0 then Item(s, v, Parent(i)) else Item(s, v, 0)
  }

  lemma ReplacedBounded(s: seq<Elem>, v: View, i: nat, x: Elem)
    requires Heap(s, v) && i < v.n
    ensures Fits(s[v.o + i := x], v) && Bounded(s[v.o + i := x], v, i, i, Floor(s, v, i))
  {
    var t := s[v.o + i := x];
    HeapEdges(s, v);
    var w := Floor(s, v, i);
    assert i > 0 ==> Edge(s, v, i);
    forall k {:trigger Under(i, k)} | 0 <= k < v.n && k != i && Under(i, k) ensures !Less(v.up, Item(t, v, k), w) {
      if i == 0 {
        HeapFirst(s, v, k);
      } else {
        AllEdges(s, v, i);
        HeapMin(s, v, 0, i, k);
      }
    }
  }

  lemma AllEdges(s: seq<Elem>, v: View, i: nat)
    requires Heap(s, v)
    ensures EdgesOk(s, v, 0, i)
  {
  }

  /** After sifting down from i, only the edge above i may be wrong. */
  lemma SiftedDown(s: seq<Elem>, v: View, i: nat, j: nat, w: Elem)
    requires Fits(s, v) && EdgesOk(s, v, 0, i) && i < v.n && Bounded(s, v, i, j, w) && (i > 0 ==> Item(s, v, Parent(i)) == w)
    ensures TooHighUp(s, v, 0, 0, i)
  {
    UnderRoot(i);
    forall k | Below(v, 0, 0, k) && k != i ensures Edge(s, v, k) {
      assert Below(v, 0, i, k);
    }
    if i != 0 {
      forall c ensures Skip(s, v, i, c) {
        if 1 <= c < v.n && Parent(c) == i {
          assert c == LeftChild(i) || c == RightChild(i);
          assert Under(i, i);
          UnderChild(i, i, c);
          assert Edge(s, v, c);
        }
      }
    }
  }

  lemma Shorter(s: seq<Elem>, v: View)
    requires Heap(s, v) && v.n > 0
    ensures Heap(s, v.(n := v.n - 1))
  {
    var w := v.(n := v.n - 1);
    forall k | 1 <= k < w.n ensures Edge(s, w, k) {
      assert Edge(s, v, k);
    }
  }

  /** One element has gone from the heap of v, and what was behind it is as it was. */
  ghost predicate Lost(s: seq<Elem>, t: seq<Elem>, v: View, x: Elem) {
    Fits(s, v) && Fits(t, v) && v.n > 0 && |t| == |s| && t[..v.o] == s[..v.o] && t[v.o + v.n..] == s[v.o + v.n..] &&
    multiset(t[v.o..v.o + v.n - 1]) + multiset{x} == multiset(s[v.o..v.o + v.n])
  }

  lemma TakeLast<T>(s: seq<T>, o: nat, n: nat)
    requires 0 < n && o + n <= |s|
    ensures multiset(s[o..o + n]) == multiset(s[o..o + n - 1]) + multiset{s[o + n - 1]}
  {
    assert s[o..o + n] == s[o..o + n - 1] + [s[o + n - 1]];
  }

  lemma SetMultiset<T>(s: seq<T>, i: nat, x: T)
    requires i < |s|
    ensures multiset(s[i := x]) + multiset{s[i]} == multiset(s) + multiset{x}
  {
    assert multiset(s[i := x]) == multiset(s) - multiset{s[i]} + multiset{x};
  }

  lemma PartSet<T>(s: seq<T>, lo: nat, n: nat, i: nat, x: T)
    requires i < n && lo + n <= |s|
    ensures multiset(s[lo + i := x][lo..lo + n]) + multiset{s[lo + i]} == multiset(s[lo..lo + n]) + multiset{x}
    ensures s[lo + i := x][..lo] == s[..lo] && s[lo + i := x][lo + n..] == s[lo + n..]
  {
    assert s[lo + i := x][lo..lo + n] == s[lo..lo + n][i := x];
    SetMultiset(s[lo..lo + n], i, x);
  }

  lemma CopyGone<T>(s: seq<T>, t: seq<T>, lo: nat, n: nat, i: nat, x: T)
    requires i < n && lo + n <= |s| && PermWithin(s[lo + i := x], t, lo, lo + n) && t[lo + n - 1] == x
    ensures |t| == |s| && t[..lo] == s[..lo] && t[lo + n..] == s[lo + n..]
    ensures multiset(t[lo..lo + n - 1]) + multiset{s[lo + i]} == multiset(s[lo..lo + n])
  {
    PartSet(s, lo, n, i, x);
    TakeLast(t, lo, n);
    Balance(multiset(t[lo..lo + n - 1]), multiset{x}, multiset{s[lo + i]}, multiset(s[lo..lo + n]), multiset(s[lo + i := x][lo..lo + n]));
  }

  lemma Balance<T>(t: multiset<T>, x: multiset<T>, y: multiset<T>, s: multiset<T>, s1: multiset<T>)
    requires t + x == s1 && s1 + y == s + x
    ensures t + y == s
  {
    Cancel(t, s, y, x);
  }

  /** The element has been replaced by a copy of the last one, and the copy is there again. */
  lemma CopyLost(s: seq<Elem>, t: seq<Elem>, v: View, i: nat)
    requires Fits(s, v) && Fits(t, v) && i < v.n && |t| == |s|
    requires var x := Item(s, v, v.n - 1); Rearranged(s[v.o + i := x], t, v) && Item(t, v, v.n - 1) == x
    ensures Lost(s, t, v, Item(s, v, i))
  {
    CopyGone(s, t, v.o, v.n, i, Item(s, v, v.n - 1));
    hide PermWithin, Rearranged;
  }

  lemma Cancel<T>(t: multiset<T>, s: multiset<T>, y: multiset<T>, x: multiset<T>)
    requires (t + x) + y == s + x
    ensures t + y == s
  {
    assert forall e :: (t + y)[e] + x[e] == s[e] + x[e] by {
      forall e ensures (t + y)[e] + x[e] == s[e] + x[e] {
        assert ((t + x) + y)[e] == (s + x)[e];
      }
    }
  }

  lemma LastLost(s: seq<Elem>, v: View)
    requires Fits(s, v) && v.n > 0
    ensures Lost(s, s, v, Item(s, v, v.n - 1))
  {
    TakeLast(s, v.o, v.n);
  }

  lemma CopyDoubled(s: seq<Elem>, v: View, i: nat)
    requires Fits(s, v) && i < v.n - 1
    ensures var x := Item(s, v, v.n - 1); Doubled(s[v.o + i := x], v, i, x)
  {
  }

  /** Takes element i out of a heap of n elements; it is sifted over n slots, and slot n - 1 is free in the end. */
  method Delete(a: array<Elem>, o: nat, up: bool, n: nat, i: nat)
    requires o + n <= a.Length && i < n && Heap(a[..], View(o, n, up))
    modifies a
    ensures Heap(a[..], View(o, n - 1, up)) && Lost(old(a[..]), a[..], View(o, n, up), old(a[o + i]))
  {
    ghost var v, s := View(o, n, up), a[..];
    assert Fits(s, v) && Item(s, v, i) == s[o + i] && v.(n := n - 1) == View(o, n - 1, up);
    ViewIs(v, o, n, up);
    hide *;
    ItemsAre(s, v, n - 1, i);
    if i == n - 1 {
      Shorter(s, v);
      LastLost(s, v);
      return;
    }
    ghost var x := Item(s, v, n - 1);
    a[o + i] := a[o + n - 1];
    ghost var s1 := a[..];
    assert s1 == s[o + i := x];
    CopyDoubled(s, v, i);
    Refit(a, o, up, n, i, v, s);
    CopyLost(s, a[..], v, i);
  }

  /** Sifts the copy of the last element down and up. */
  method Refit(a: array<Elem>, o: nat, up: bool, n: nat, i: nat, ghost v: View, ghost s: seq<Elem>)
    requires v == View(o, n, up) && Heap(s, v) && i < n - 1 && Fits(s, v)
    requires a[..] == s[o + i := Item(s, v, n - 1)] && Doubled(a[..], v, i, Item(s, v, n - 1))
    modifies a
    ensures Fits(a[..], v) && |a[..]| == |s| && Heap(a[..], View(o, n - 1, up)) && Item(a[..], v, n - 1) == Item(s, v, n - 1)
    ensures Rearranged(s[o + i := Item(s, v, n - 1)], a[..], v)
  {
    assert v.(n := n - 1) == View(o, n - 1, up);
    ViewIs(v, o, n, up);
    ghost var x, w, s1 := Item(s, v, n - 1), Floor(s, v, i), a[..];
    hide *;
    ReplacedMoving(s, v, i, x);
    ReplacedBounded(s, v, i, x);
    ghost var j := SiftDownBottomUp(a, o, up, n, i, v, 0, w, x);
    ghost var s2 := a[..];
    FloorKept(s, s1, s2, v, i);
    SiftedDown(s2, v, i, j, w);
    ghost var u := Least(s2, up);
    AnyBounded(s2, v, i, u);
    j := SiftUp(a, o, up, 0, i, v, 0, u);
    RearrangedTrans(s1, s2, a[..], v);
    LastKept(s2, a[..], v, i);
    HeapEdges(a[..], v);
    Shorter(a[..], v);
    SameLength(s1, a[..], v);
  }

  lemma SameLength(s: seq<Elem>, t: seq<Elem>, v: View)
    requires Rearranged(s, t, v)
    ensures |t| == |s|
  {
  }

  lemma FloorKept(s: seq<Elem>, s1: seq<Elem>, s2: seq<Elem>, v: View, i: nat)
    requires Fits(s, v) && i < v.n - 1 && s1 == s[v.o + i := Item(s, v, v.n - 1)] && FromStart(s1, s2, v, i)
    ensures Fits(s2, v) && (i > 0 ==> 0 <= Parent(i) < v.n && Item(s2, v, Parent(i)) == Floor(s, v, i))
  {
  }

  lemma LastKept(s: seq<Elem>, t: seq<Elem>, v: View, i: nat)
    requires UpTo(s, t, v, i) && i < v.n - 1
    ensures Fits(t, v) && Fits(s, v) && Item(t, v, v.n - 1) == Item(s, v, v.n - 1)
  {
  }

  /** Takes the first element out of a heap. */
  method DeleteFirst(a: array<Elem>, o: nat, up: bool, n: nat)
    requires o + n <= a.Length && n != 0 && Heap(a[..], View(o, n, up))
    modifies a
    ensures Heap(a[..], View(o, n - 1, up)) && Lost(old(a[..]), a[..], View(o, n, up), old(a[o]))
  {
    ghost var v, s := View(o, n, up), a[..];
    ghost var v1 := View(o, n - 1, up);
    assert Fits(s, v) && Item(s, v, 0) == s[o] && v.(n := n - 1) == v1;
    ViewIs(v, o, n, up);
    ViewIs(v1, o, n - 1, up);
    hide *;
    ItemsAre(s, v, n - 1, 0);
    Shorter(s, v);
    a[o] := a[o + n - 1];
    ghost var s1 := a[..];
    assert s1 == s[o := s[o + n - 1]];
    RootReplaced(s, v1, s[o + n - 1]);
    ghost var w := Least(s1, up);
    LeastBounded(s1, v1, 0, w);
    ghost var j := SiftDownBottomUp(a, o, up, n - 1, 0, v1, 0, w, w);
    HeapEdges(a[..], v1);
    FirstLost(s, a[..], v);
  }

  lemma RootReplaced(s: seq<Elem>, v: View, x: Elem)
    requires Heap(s, v) && v.o < |s|
    ensures Fits(s[v.o := x], v) && Moving(s[v.o := x], v, 0, 0, 0)
  {
    var t := s[v.o := x];
    forall k | Below(v, 0, 0, k) && k != 0 && Parent(k) != 0 ensures Edge(t, v, k) {
      assert Edge(s, v, k);
    }
  }

  lemma TailKept<T>(s: seq<T>, s1: seq<T>, t: seq<T>, lo: nat, hi: nat, x: T)
    requires lo < hi <= |s| && s1 == s[lo := x] && |t| == |s| && s1[hi - 1..] == t[hi - 1..] && s1[..lo] == t[..lo]
    ensures t[hi..] == s[hi..] && t[..lo] == s[..lo]
  {
    assert t[hi..] == t[hi - 1..][1..] && s1[hi - 1..][1..] == s1[hi..] == s[hi..];
    assert s1[..lo] == s[..lo];
  }

  lemma FirstCounts<T>(s: seq<T>, s1: seq<T>, t: seq<T>, lo: nat, n: nat, x: T)
    requires 0 < n && lo + n <= |s| && x == s[lo + n - 1] && s1 == s[lo := x] && |t| == |s|
    requires multiset(s1[lo..lo + n - 1]) == multiset(t[lo..lo + n - 1])
    ensures multiset(t[lo..lo + n - 1]) + multiset{s[lo]} == multiset(s[lo..lo + n])
  {
    PartSet(s, lo, n, 0, x);
    TakeLast(s1, lo, n);
    assert s1[lo + n - 1] == x;
    Balance(multiset(t[lo..lo + n - 1]), multiset{x}, multiset{s[lo]}, multiset(s[lo..lo + n]), multiset(s1[lo..lo + n]));
  }

  lemma FirstGone<T>(s: seq<T>, t: seq<T>, lo: nat, n: nat)
    requires 0 < n && lo + n <= |s| && PermWithin(s[lo := s[lo + n - 1]], t, lo, lo + n - 1)
    ensures |t| == |s| && t[..lo] == s[..lo] && t[lo + n..] == s[lo + n..]
    ensures multiset(t[lo..lo + n - 1]) + multiset{s[lo]} == multiset(s[lo..lo + n])
  {
    hide *;
    var x := s[lo + n - 1];
    var s1 := s[lo := x];
    PermParts(s1, t, lo, lo + n - 1);
    TailKept(s, s1, t, lo, lo + n, x);
    FirstCounts(s, s1, t, lo, n, x);
  }

  lemma FirstLost(s: seq<Elem>, t: seq<Elem>, v: View)
    requires Fits(s, v) && v.n > 0 && v.o + v.n <= |s| && Rearranged(s[v.o := s[v.o + v.n - 1]], t, v.(n := v.n - 1))
    ensures Lost(s, t, v, s[v.o])
  {
    hide *;
    FirstPart(s, t, v);
    FirstGone(s, t, v.o, v.n);
    FoldLost(s, t, v, s[v.o]);
  }

  lemma FoldLost(s: seq<Elem>, t: seq<Elem>, v: View, x: Elem)
    requires v.o + v.n <= |s| == |t| && v.n > 0 && t[..v.o] == s[..v.o] && t[v.o + v.n..] == s[v.o + v.n..]
    requires multiset(t[v.o..v.o + v.n - 1]) + multiset{x} == multiset(s[v.o..v.o + v.n])
    ensures Lost(s, t, v, x)
  {
  }

  lemma FirstPart(s: seq<Elem>, t: seq<Elem>, v: View)
    requires Fits(s, v) && v.n > 0 && Rearranged(s[v.o := s[v.o + v.n - 1]], t, v.(n := v.n - 1))
    ensures v.o + v.n <= |s| && PermWithin(s[v.o := s[v.o + v.n - 1]], t, v.o, v.o + v.n - 1)
  {
    hide PermWithin;
  }

  /** Takes the first element out of a heap and returns it. */
  method ExtractFirst(a: array<Elem>, o: nat, up: bool, n: nat) returns (result: Elem)
    requires o + n <= a.Length && n != 0 && Heap(a[..], View(o, n, up))
    modifies a
    ensures result == old(a[o]) && Heap(a[..], View(o, n - 1, up)) && Lost(old(a[..]), a[..], View(o, n, up), result)
  {
    result := a[o];
    DeleteFirst(a, o, up, n);
  }

  // ---------------------------------------------------------------- testing

  /** The first element that is less than its parent. */
  method IsHeapUntil(a: array<Elem>, o: nat, up: bool, n: nat) returns (i: nat)
    requires o + n <= a.Length
    ensures i <= n && (n > 0 ==> i > 0) && Heap(a[..], View(o, i, up))
    ensures i < n ==> !Heap(a[..], View(o, i + 1, up))
  {
    i := 1;
    ghost var s := a[..];
    while i < n
      invariant 1 <= i && (i <= n || i == 1) && a[..] == s
      invariant o + i <= |s| ==> Heap(s, View(o, i, up))
    {
      if Less(up, a[o + i], a[o + Parent(i)]) {
        assert !Edge(s, View(o, i + 1, up), i);
        return;
      }
      ghost var v, w := View(o, i, up), View(o, i + 1, up);
      forall k | 1 <= k < i + 1 ensures Edge(s, w, k) {
        assert k < i ==> Edge(s, v, k);
      }
      i := i + 1;
    }
    i := n;
  }

  method IsHeap(a: array<Elem>, o: nat, up: bool, n: nat) returns (yes: bool)
    requires o + n <= a.Length
    ensures yes <==> Heap(a[..], View(o, n, up))
  {
    var i := IsHeapUntil(a, o, up, n);
    yes := i == n;
    if !yes {
      ShorterTo(a[..], View(o, n, up), i + 1);
    }
  }

  lemma ShorterTo(s: seq<Elem>, v: View, i: nat)
    requires i <= v.n
    ensures Heap(s, v) ==> Heap(s, v.(n := i))
  {
    if Heap(s, v) {
      var w := v.(n := i);
      forall k | 1 <= k < i ensures Edge(s, w, k) {
        assert Edge(s, v, k);
      }
    }
  }

  // ---------------------------------------------------------------- sorting

  /** From m on the elements are extracted ones, in reverse order and none of them above the rest. */
  ghost predicate Drained(s: seq<Elem>, v: View, m: nat) {
    Fits(s, v) && m <= v.n &&
    forall p, q :: v.o <= p < q < v.o + v.n && v.o + m <= q ==> !Less(v.up, s[p], s[q])
  }

  /** Extracting the first of m elements and putting it behind the others. */
  lemma DrainedStep(s: seq<Elem>, t: seq<Elem>, v: View, m: nat)
    requires Fits(s, v) && 0 < m <= v.n && Drained(s, v, m) && Heap(s, v.(n := m)) && Lost(s, t, v.(n := m), s[v.o])
    ensures |t| == |s| && Drained(t[v.o + m - 1 := s[v.o]], v, m - 1)
    ensures Rearranged(s, t[v.o + m - 1 := s[v.o]], v)
  {
    var x, vm := s[v.o], v.(n := m);
    LostFits(s, t, vm, x);
    assert Fits(s, vm);
    var u := t[v.o + m - 1 := x];
    hide Heap, Lost, Rearranged, PermWithin, Drained;
    LostPerm(s, t, vm);
    LostWiden(s, u, v, m);
    DrainedRest(s, u, v, m);
  }

  lemma LostWiden(s: seq<Elem>, u: seq<Elem>, v: View, m: nat)
    requires Fits(s, v) && m <= v.n && Rearranged(s, u, v.(n := m))
    ensures Rearranged(s, u, v)
  {
    PermWiden(s, u, v.o, v.o + m, v.o, v.o + v.n);
    hide PermWithin;
  }

  lemma DrainedRest(s: seq<Elem>, u: seq<Elem>, v: View, m: nat)
    requires Fits(s, v) && 0 < m <= v.n && Drained(s, v, m) && Heap(s, v.(n := m)) && Rearranged(s, u, v.(n := m)) && |u| == |s|
    requires u[v.o + m - 1] == s[v.o]
    ensures Drained(u, v, m - 1)
  {
    var vm := v.(n := m);
    hide Heap, Rearranged;
    forall p, q | v.o <= p < q < v.o + v.n && v.o + (m - 1) <= q ensures !Less(v.up, u[p], u[q]) {
      OldElement(s, u, vm, p);
      OldElement(s, u, vm, q);
      DrainedPair(s, v, m);
    }
  }

  lemma DrainedPair(s: seq<Elem>, v: View, m: nat)
    requires Drained(s, v, m)
    ensures forall p, q :: v.o <= p < q < v.o + v.n && v.o + m <= q ==> !Less(v.up, s[p], s[q])
  {
  }

  /** Where an element of the new array was before. */
  lemma OldElement(s: seq<Elem>, u: seq<Elem>, v: View, p: nat)
    requires Heap(s, v) && Rearranged(s, u, v) && v.n > 0 && v.o <= p < |s|
    ensures |u| == |s|
    ensures p >= v.o + v.n ==> u[p] == s[p]
    ensures p < v.o + v.n ==> exists j :: v.o <= j < v.o + v.n && u[p] == s[j] && !Less(v.up, s[j], s[v.o])
  {
    if p < v.o + v.n {
      var j := PermFrom(s, u, v.o, v.o + v.n, p);
      HeapFirst(s, v, j - v.o);
      assert Item(s, v, j - v.o) == s[j];
    } else {
      PermOutside(s, u, v.o, v.o + v.n, p);
    }
  }

  lemma PutBack<T>(s: seq<T>, t: seq<T>, lo: nat, n: nat, x: T)
    requires 0 < n && lo + n <= |s| == |t| && t[..lo] == s[..lo] && t[lo + n..] == s[lo + n..]
    requires multiset(t[lo..lo + n - 1]) + multiset{x} == multiset(s[lo..lo + n])
    ensures PermWithin(s, t[lo + n - 1 := x], lo, lo + n)
  {
    var u := t[lo + n - 1 := x];
    TakeLast(u, lo, n);
    assert u[lo..lo + n - 1] == t[lo..lo + n - 1];
    assert u[..lo] == t[..lo] && u[lo + n..] == t[lo + n..];
  }

  lemma LostPerm(s: seq<Elem>, t: seq<Elem>, v: View)
    requires Fits(s, v) && v.n > 0 && Lost(s, t, v, s[v.o])
    ensures |t| == |s| && Rearranged(s, t[v.o + v.n - 1 := s[v.o]], v)
  {
    PutBack(s, t, v.o, v.n, s[v.o]);
    hide PermWithin;
  }

  /** Sorts a heap: afterwards no element is less than one behind it. */
  method Sort(a: array<Elem>, o: nat, up: bool, n: nat)
    requires o + n <= a.Length && Heap(a[..], View(o, n, up))
    modifies a
    ensures Drained(a[..], View(o, n, up), 0) && Rearranged(old(a[..]), a[..], View(o, n, up))
  {
    ghost var v := View(o, n, up);
    assert Drained(a[..], v, n) && v.(n := n) == v && Fits(a[..], v);
    UpStart(a[..], v, 0);
    var i := 0;
    hide *;
    while i < n
      invariant 0 <= i <= n && Fits(a[..], v) && Drained(a[..], v, n - i) && Heap(a[..], v.(n := n - i))
      invariant Rearranged(old(a[..]), a[..], v) && v == View(o, n, up)
    {
      ghost var s := a[..];
      MoveFirst(a, o, up, n, n - i, v);
      RearrangedTrans(old(a[..]), s, a[..], v);
      i := i + 1;
    }
  }

  /** One round of sorting. */
  method MoveFirst(a: array<Elem>, o: nat, up: bool, n: nat, m: nat, ghost v: View)
    requires v == View(o, n, up) && o + n <= a.Length && 0 < m <= n && Fits(a[..], v) && Drained(a[..], v, m) && Heap(a[..], v.(n := m))
    modifies a
    ensures Fits(a[..], v) && Drained(a[..], v, m - 1) && Heap(a[..], v.(n := m - 1)) && Rearranged(old(a[..]), a[..], v)
  {
    hide *;
    ghost var s, w := a[..], View(o, m, up);
    assert v.(n := m) == w && v.(n := m - 1) == w.(n := w.n - 1) == View(o, m - 1, up) && w.n == m && w.o == o == v.o;
    var first := ExtractFirst(a, o, up, m);
    ghost var t := a[..];
    DrainedStep(s, t, v, m);
    LostFits(s, t, w, first);
    HeapKept(t, w, first);
    a[o + m - 1] := first;
    assert a[..] == t[o + m - 1 := first];
    DrainedFits(a[..], v, m - 1);
  }

  lemma LostFits(s: seq<Elem>, t: seq<Elem>, v: View, x: Elem)
    requires Lost(s, t, v, x)
    ensures Fits(t, v) && |t| == |s|
  {
  }

  lemma DrainedFits(s: seq<Elem>, v: View, m: nat)
    requires Drained(s, v, m)
    ensures Fits(s, v)
  {
  }

  lemma HeapKept(t: seq<Elem>, v: View, x: Elem)
    requires v.n > 0 && Fits(t, v) && Heap(t, v.(n := v.n - 1))
    ensures Heap(t[v.o + v.n - 1 := x], v.(n := v.n - 1))
  {
    var u, w := t[v.o + v.n - 1 := x], v.(n := v.n - 1);
    forall k | 1 <= k < w.n ensures Edge(u, w, k) {
      assert Edge(t, w, k);
    }
  }
}
