/** Introsort: quicksort with an explicit stack, insertion sort for small parts, and heapsort after bad partitions. */
module Introsort {
  import opened SortElements
  import opened IntroCuts
  import opened IntroInsertion
  import HeapOrder
  import BinaryHeap
  import BinaryHeapOps

  const STACK_SIZE: nat := 64
  /** size_t. */
  const WORD: int := 0x1_0000_0000_0000_0000

  /** The heap with the reverse order sorts in ascending order. */
  lemma DrainedSorted(s: seq<Elem>, left: nat, right: nat)
    requires left <= right < |s| && BinaryHeapOps.Drained(s, HeapOrder.View(left, right - left + 1, false), 0)
    ensures SortedIn(s, left, right)
  {
  }

  method HeapSort(a: array<Elem>, left: nat, right: nat)
    requires left <= right < a.Length
    modifies a
    ensures SortedIn(a[..], left, right) && PermWithin(old(a[..]), a[..], left, right + 1)
  {
    ghost var s, v := a[..], HeapOrder.View(left, right - left + 1, false);
    hide *;
    BinaryHeapOps.Heapify(a, left, false, right - left + 1);
    ghost var t := a[..];
    BinaryHeapOps.Sort(a, left, false, right - left + 1);
    RearrangedPerm(s, t, left, right);
    RearrangedPerm(t, a[..], left, right);
    PermTrans(s, t, a[..], left, right + 1);
    DrainedSorted(a[..], left, right);
  }

  lemma RearrangedPerm(s: seq<Elem>, t: seq<Elem>, left: nat, right: nat)
    requires left <= right && BinaryHeap.Rearranged(s, t, HeapOrder.View(left, right - left + 1, false))
    ensures PermWithin(s, t, left, right + 1)
  {
    hide PermWithin;
  }

  /** The number of bits below the highest one. */
  method Ilog2(n0: nat) returns (log: nat)
    requires n0 > 0
    ensures Pow2(log) <= n0 < 2 * Pow2(log)
  {
    var n := n0;
    log := 0;
    ghost var p := 1;
    while n > 1
      invariant n >= 1 && p == Pow2(log) && n * p <= n0 < n * p + p
    {
      ghost var h := n / 2;
      HalfBounds(n, h, p, n0);
      n := n / 2;
      log := log + 1;
      p := 2 * p;
    }
  }

  lemma HalfBounds(n: nat, h: nat, p: nat, n0: nat)
    requires h == n / 2 && n * p <= n0 < n * p + p
    ensures h * (2 * p) <= n0 < h * (2 * p) + 2 * p
  {
    if n == 2 * h {
      assert n * p == h * (2 * p);
    } else {
      assert n == 2 * h + 1;
      assert n * p == h * (2 * p) + p;
    }
  }

  /** Zero is followed by the largest size_t. */
  function Decrement(n: nat): (m: nat)
    ensures n > 0 ==> m == n - 1
  {
    if n == 0 then WORD - 1 else n - 1
  }

  /** The limit after k bad partitions. */
  ghost function After(limit: nat, k: nat): nat {
    if k == 0 then limit else Decrement(After(limit, k - 1))
  }

  lemma {:induction false} AfterIs(limit: nat, k: nat)
    requires limit < WORD && k < limit + WORD
    ensures After(limit, k) == if k <= limit then limit - k else limit + WORD - k
  {
    if k > 0 {
      AfterIs(limit, k - 1);
    }
  }

  lemma AfterStep(limit: nat, k: nat)
    ensures After(limit, 0) == limit && After(limit, k + 1) == Decrement(After(limit, k))
  {
  }

  /** The bad partitions, of so many, that are followed by heapsort. */
  ghost function Fallbacks(limit: nat, bad: nat): set<nat> {
    set k: nat | 1 <= k <= bad && After(limit, k) == 0
  }

  lemma FallbacksStep(limit: nat, bad: nat)
    ensures Fallbacks(limit, 0) == {}
    ensures Fallbacks(limit, bad + 1) == Fallbacks(limit, bad) + if After(limit, bad + 1) == 0 then {bad + 1} else {}
  {
    hide After;
  }

  /** Among fewer than limit + 2^64 bad partitions, only number limit leads to the fallback: once the limit is zero it wraps around. */
  lemma FallbackOnce(limit: nat, bad: nat)
    requires limit < WORD && bad < limit + WORD
    ensures Fallbacks(limit, bad) == if 1 <= limit <= bad then {limit} else {}
  {
    forall k: nat | 1 <= k <= bad ensures After(limit, k) == 0 <==> k == limit {
      AfterIs(limit, k);
    }
  }

  // ---------------------------------------------------------------- the segments

  /** The array is cut everywhere but inside the segments, the last one is the current one, and the others are on the stack. */
  ghost predicate State(s0: seq<Elem>, s: seq<Elem>, segs: seq<Seg>) {
    PermWithin(s0, s, 0, |s0|) && SegsOk(|s|, segs) && Cuts(s, segs) && Halved(|s|, segs)
  }

  lemma StateStart(s: seq<Elem>)
    requires s != []
    ensures State(s, s, [Seg(0, |s| - 1)])
  {
    PermRefl(s, 0, |s|);
    forall k | 0 <= k <= |s| && Outside([Seg(0, |s| - 1)], k) ensures Cut(s, k) {
      assert !Inside([Seg(0, |s| - 1)][0], k);
    }
    assert Pow2(0) == 1;
  }

  lemma StateFacts(s0: seq<Elem>, s: seq<Elem>, segs: seq<Seg>)
    requires State(s0, s, segs) && segs != []
    ensures |s| == |s0| && Top(segs).left <= Top(segs).right < |s| && Cut(s, Top(segs).left) && Cut(s, Top(segs).right + 1)
    ensures SegsOk(|s|, segs) && Cuts(s, segs) && Halved(|s|, segs) && PermWithin(s0, s, 0, |s0|)
  {
    TopCuts(s, segs);
  }

  /** The current segment has been rearranged. */
  lemma StateRearranged(s0: seq<Elem>, s: seq<Elem>, t: seq<Elem>, segs: seq<Seg>)
    requires State(s0, s, segs) && segs != [] && PermWithin(s, t, Top(segs).left, Top(segs).right + 1)
    ensures State(s0, t, segs)
  {
    hide *;
    StateFacts(s0, s, segs);
    TopRearranged(s, t, segs);
    PermWiden(s, t, Top(segs).left, Top(segs).right + 1, 0, |s0|);
    PermTrans(s0, s, t, 0, |s0|);
    FoldState(s0, t, segs);
  }

  lemma FoldState(s0: seq<Elem>, s: seq<Elem>, segs: seq<Seg>)
    requires PermWithin(s0, s, 0, |s0|) && SegsOk(|s|, segs) && Cuts(s, segs) && Halved(|s|, segs)
    ensures State(s0, s, segs)
  {
  }

  /** The current segment is sorted. */
  lemma StatePopped(s0: seq<Elem>, s: seq<Elem>, segs: seq<Seg>)
    requires State(s0, s, segs) && segs != [] && SortedIn(s, Top(segs).left, Top(segs).right)
    ensures State(s0, s, Rest(segs)) && Work(Rest(segs)) < Work(segs)
  {
    hide *;
    StateFacts(s0, s, segs);
    TopSorted(s, segs);
    RestHalved(|s|, segs);
    WorkRest(segs);
    FoldState(s0, s, Rest(segs));
  }

  /** The current segment has been partitioned; g goes to the stack, and h, which is not larger, is the current one then. */
  lemma StateSplit(s0: seq<Elem>, s: seq<Elem>, segs: seq<Seg>, i: nat, j: nat, p: int, g: Seg, h: Seg)
    requires State(s0, s, segs) && segs != [] && Parted(s, Top(segs).left, Top(segs).right, i, j, p)
    requires var l, r := Seg(Top(segs).left, j), Seg(i, Top(segs).right); (g == l && h == r) || (g == r && h == l)
    requires Size(h) <= Size(g)
    ensures State(s0, s, Rest(segs) + [g, h]) && Work(Rest(segs) + [g, h]) < Work(segs)
  {
    StateFacts(s0, s, segs);
    var t := Top(segs);
    forall k | Inside(t, k) && !Inside(g, k) && !Inside(h, k) ensures Cut(s, k) {
      PartedCuts(s, t.left, t.right, i, j, p, k);
    }
    hide State, SegsOk, Cuts, Halved, PermWithin, Cut, AtMost, AtLeast, Top, Rest, Work;
    TopSplit(s, segs, g, h);
    SplitHalved(|s|, segs, g, h);
    WorkSplit(segs, g, h);
    FoldState(s0, s, Rest(segs) + [g, h]);
  }

  /** Nothing is left to do. */
  lemma StateDone(s0: seq<Elem>, s: seq<Elem>)
    requires State(s0, s, [])
    ensures Sorted(s) && multiset(s) == multiset(s0)
  {
    AllSorted(s);
    assert s[0..|s0|] == s && s0[0..|s0|] == s0;
  }

  /** A small segment. */
  method SortSmall(a: array<Elem>, left: nat, right: nat, ghost s0: seq<Elem>, ghost segs: seq<Seg>)
    requires State(s0, a[..], segs) && segs != [] && Top(segs) == Seg(left, right)
    modifies a
    ensures State(s0, a[..], Rest(segs)) && Work(Rest(segs)) < Work(segs)
  {
    hide *;
    ghost var s := a[..];
    StateFacts(s0, s, segs);
    if left == 0 {
      InsertionSort(a, left, right);
    } else {
      CutSentinel(s, left, right);
      UnguardedInsertionSort(a, left, right);
    }
    StateRearranged(s0, s, a[..], segs);
    StatePopped(s0, a[..], segs);
  }

  lemma CutSentinel(s: seq<Elem>, left: nat, right: nat)
    requires 0 < left <= right < |s| && Cut(s, left)
    ensures Sentinel(s, left, right)
  {
  }

  /** Sorts a segment that has been partitioned badly too often. */
  method SortBad(a: array<Elem>, left: nat, right: nat, ghost s0: seq<Elem>, ghost segs: seq<Seg>)
    requires State(s0, a[..], segs) && segs != [] && Top(segs) == Seg(left, right)
    modifies a
    ensures State(s0, a[..], Rest(segs)) && Work(Rest(segs)) < Work(segs)
  {
    hide *;
    ghost var s := a[..];
    StateFacts(s0, s, segs);
    HeapSort(a, left, right);
    StateRearranged(s0, s, a[..], segs);
    StatePopped(s0, a[..], segs);
  }

  /** Partitions the current segment. */
  method Divide(a: array<Elem>, left: nat, right: nat, ghost s0: seq<Elem>, ghost segs: seq<Seg>) returns (i: nat, j: nat, ghost p: int)
    requires State(s0, a[..], segs) && segs != [] && Top(segs) == Seg(left, right) && left < right
    modifies a
    ensures State(s0, a[..], segs) && Parted(a[..], left, right, i, j, p) && left <= j < i <= right
  {
    hide *;
    ghost var s := a[..];
    StateFacts(s0, s, segs);
    var mid := SelectPivot(a, left, right);
    ghost var t := a[..];
    StateRearranged(s0, s, t, segs);
    i, j, p := Partition(a, left, right, mid);
    StateRearranged(s0, t, a[..], segs);
    PartedFacts(a[..], left, right, i, j, p);
  }

  lemma PartedFacts(s: seq<Elem>, left: nat, right: nat, i: nat, j: nat, p: int)
    requires Parted(s, left, right, i, j, p)
    ensures left <= j < i <= right
  {
  }

  lemma SizeIs(g: Seg)
    ensures Size(g) == g.right - g.left + 1
  {
  }

  lemma TopIs(segs: seq<Seg>, g: Seg, h: Seg)
    requires segs != []
    ensures Rest(segs) + [g, h] != [] && Top(Rest(segs) + [g, h]) == h && Rest(Rest(segs) + [g, h]) == Rest(segs) + [g]
    ensures |Rest(segs)| == |segs| - 1
  {
  }

  lemma RestIs(segs: seq<Seg>)
    requires segs != []
    ensures |Rest(segs)| == |segs| - 1 && Rest(segs) == segs[..|segs| - 1]
    ensures |segs| > 1 ==> Top(Rest(segs)) == Rest(segs)[|segs| - 2] && Rest(Rest(segs)) == Rest(segs)[..|segs| - 2]
  {
  }

  /** There is room on the stack. */
  lemma StackHasRoom(s0: seq<Elem>, s: seq<Elem>, segs: seq<Seg>)
    requires State(s0, s, segs) && segs != [] && |s| < Pow2(STACK_SIZE)
    ensures |Rest(segs)| < STACK_SIZE
  {
    StateFacts(s0, s, segs);
    StackDepth(|s|, segs, STACK_SIZE);
  }

  /** Sorts with quicksort where segments have threshold elements or more. */
  method SortSegments(a: array<Elem>, threshold: nat) returns (ghost limit: nat, ghost bad: nat, ghost fallbacks: set<nat>)
    requires 2 <= threshold && 1 <= a.Length < Pow2(STACK_SIZE)
    modifies a
    ensures Sorted(a[..]) && multiset(a[..]) == multiset(old(a[..]))
    ensures Pow2(limit) <= a.Length < 2 * Pow2(limit) && fallbacks == Fallbacks(limit, bad)
  {
    hide *;
    ghost var s0 := a[..];
    var stack := new Seg[STACK_SIZE];
    var sp: nat, left: nat, right: nat := 0, 0, a.Length - 1;
    var badPartitionLimit := Ilog2(a.Length);
    limit, bad, fallbacks := badPartitionLimit, 0, {};
    AfterStep(limit, 0);
    FallbacksStep(limit, 0);
    ghost var segs := [Seg(left, right)];
    StateStart(s0);
    OnlySeg(segs);
    while true
      invariant State(s0, a[..], segs) && segs != [] && Top(segs) == Seg(left, right) && fresh(stack)
      invariant sp == |Rest(segs)| <= STACK_SIZE == stack.Length && stack[..sp] == Rest(segs)
      invariant badPartitionLimit == After(limit, bad) && fallbacks == Fallbacks(limit, bad)
      decreases Work(segs)
    {
      StateFacts(s0, a[..], segs);
      SizeIs(Seg(left, right));
      RestIs(segs);
      var size := right - left + 1;
      var sorted := size < threshold;
      if sorted {
        SortSmall(a, left, right, s0, segs);
        segs := Rest(segs);
      } else {
        ghost var p;
        var i, j;
        i, j, p := Divide(a, left, right, s0, segs);
        var leftSize, rightSize := j - left + 1, right - i + 1;
        var smaller := if leftSize > rightSize then rightSize else leftSize;
        if smaller < size / 8 {
          AfterStep(limit, bad);
          FallbacksStep(limit, bad);
          badPartitionLimit := Decrement(badPartitionLimit);
          bad := bad + 1;
          sorted := badPartitionLimit == 0;
        }
        if sorted {
          SortBad(a, left, right, s0, segs);
          segs := Rest(segs);
          fallbacks := fallbacks + {bad};
        } else {
          SizeIs(Seg(left, j));
          SizeIs(Seg(i, right));
          StackHasRoom(s0, a[..], segs);
          var push, next := Seg(i, right), Seg(left, j);
          if leftSize > rightSize {
            push, next := Seg(left, j), Seg(i, right);
          }
          StateSplit(s0, a[..], segs, i, j, p, push, next);
          TopIs(segs, push, next);
          stack[sp] := push;
          assert stack[..sp + 1] == stack[..sp] + [push];
          segs := Rest(segs) + [push, next];
          left, right := next.left, next.right;
          sp := sp + 1;
          StackHasRoom(s0, a[..], segs);
        }
      }
      if sorted {
        if sp == 0 {
          break;
        }
        sp := sp - 1;
        left, right := stack[sp].left, stack[sp].right;
        assert stack[..sp + 1][..sp] == stack[..sp] && stack[..sp + 1][sp] == stack[sp];
      }
    }
    assert segs == [];
    StateDone(s0, a[..]);
  }

  lemma OnlySeg(segs: seq<Seg>)
    requires |segs| == 1
    ensures Top(segs) == segs[0] && Rest(segs) == []
  {
  }

  // ---------------------------------------------------------------- the whole sort

  lemma SortedAll(s: seq<Elem>, t: seq<Elem>)
    requires |s| > 0 && PermWithin(s, t, 0, |s|) && SortedIn(t, 0, |t| - 1)
    ensures Sorted(t) && multiset(t) == multiset(s)
  {
    assert t[0..|s|] == t && s[0..|s|] == s;
  }

  /** No element is less than low. */
  ghost predicate Lowest(s: seq<Elem>, low: Elem) {
    forall k :: 0 <= k < |s| ==> low.key <= s[k].key
  }

  /** The position of a smallest element. */
  method Smallest(a: array<Elem>) returns (m: nat)
    requires 0 < a.Length
    ensures m < a.Length && Lowest(a[..], a[m])
  {
    m := 0;
    var i := 1;
    while i < a.Length
      invariant 1 <= i <= a.Length && m < i && forall k :: 0 <= k < i ==> a[m].key <= a[k].key
    {
      if a[i].key < a[m].key {
        m := i;
      }
      i := i + 1;
    }
  }

  /** With fewer than threshold elements, a smallest element is brought to the front as a sentinel first. */
  method SortShort(a: array<Elem>)
    requires a.Length >= 2
    modifies a
    ensures Sorted(a[..]) && multiset(a[..]) == multiset(old(a[..]))
  {
    hide *;
    ghost var s := a[..];
    var m := Smallest(a);
    ghost var low := a[m];
    PermRefl(s, 0, |s|);
    if m != 0 {
      SwapPerm(s, 0, m, 0, |s|);
      FrontIs(s, m);
      Swap(a, 0, m);
    }
    ghost var t := a[..];
    assert t[0] == low;
    FrontSentinel(s, t, low);
    UnguardedInsertionSort(a, 1, a.Length - 1);
    FrontSorted(t, a[..]);
    PermWiden(t, a[..], 1, a.Length, 0, a.Length);
    PermTrans(s, t, a[..], 0, |s|);
    SortedAll(s, a[..]);
  }

  lemma FrontIs(s: seq<Elem>, m: nat)
    requires m < |s|
    ensures Swapped(s, 0, m)[0] == s[m]
  {
  }

  lemma FrontSentinel(s: seq<Elem>, t: seq<Elem>, low: Elem)
    requires |s| >= 2 && PermWithin(s, t, 0, |s|) && Lowest(s, low) && t[0] == low
    ensures Sentinel(t, 1, |s| - 1)
  {
    forall y | 1 <= y < |t| ensures t[0].key <= t[y].key {
      var k := PermFrom(s, t, 0, |s|, y);
    }
  }

  lemma FrontSorted(t: seq<Elem>, u: seq<Elem>)
    requires |t| >= 2 && PermWithin(t, u, 1, |t|) && SortedIn(u, 1, |u| - 1) && Sentinel(t, 1, |t| - 1)
    ensures |u| == |t| && SortedIn(u, 0, |u| - 1)
  {
    PermOutside(t, u, 1, |t|, 0);
    forall y | 1 <= y < |u| ensures u[0].key <= u[y].key {
      var j := PermFrom(t, u, 1, |t|, y);
    }
  }

  /** Sorts an array that is not empty. */
  method Sort(a: array<Elem>, threshold: nat)
    requires 1 <= a.Length < Pow2(STACK_SIZE)
    modifies a
    ensures Sorted(a[..]) && multiset(a[..]) == multiset(old(a[..]))
  {
    var n := a.Length;
    if n == 1 {
      return;
    } else if n == 2 {
      var b := Sort2(a, 0, 1, 0, 2);
      SortedTwo(a);
      SortedAll(old(a[..]), a[..]);
      return;
    } else if n == 3 {
      Sort3(a, 0, 1, 2, 0, 3);
      SortedThree(a);
      SortedAll(old(a[..]), a[..]);
      return;
    }
    var t := if threshold > 2 then threshold else 2;
    if n >= t {
      ghost var limit, bad, fallbacks := SortSegments(a, t);
    } else {
      SortShort(a);
    }
  }

  lemma SortedTwo(a: array<Elem>)
    requires a.Length == 2 && a[0].key <= a[1].key
    ensures SortedIn(a[..], 0, 1)
  {
  }

  lemma SortedThree(a: array<Elem>)
    requires a.Length == 3 && a[0].key <= a[1].key <= a[2].key
    ensures SortedIn(a[..], 0, 2)
  {
  }
}
