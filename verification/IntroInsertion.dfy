/** Small sorts, the choice of the pivot, and partitioning. */
module IntroInsertion {
  import opened SortElements
  import opened IntroCuts

  // ---------------------------------------------------------------- insertion sort

  /** While an element is being inserted: it belongs to slot j, from which one has been moved to slot j + 1. */
  ghost predicate Inserting(s: seq<Elem>, left: nat, j: nat, i: nat) {
    left <= j <= i < |s| && (forall x, y :: left <= x < y <= i && x != j && y != j ==> s[x].key <= s[y].key) &&
    forall y :: j < y <= i ==> s[j].key <= s[y].key
  }

  /** One slot further down. */
  lemma InsertStep(s: seq<Elem>, left: nat, j: nat, i: nat)
    requires Inserting(s, left, j, i) && left < j && s[j].key <= s[j - 1].key
    ensures Inserting(Swapped(s, j, j - 1), left, j - 1, i)
  {
  }

  lemma InsertDone(s: seq<Elem>, left: nat, j: nat, i: nat)
    requires Inserting(s, left, j, i) && (j == left || s[j - 1].key <= s[j].key)
    ensures SortedIn(s, left, i)
  {
    forall x, y | left <= x < y <= i ensures s[x].key <= s[y].key {
      if y == j {
        assert x == j - 1 || s[x].key <= s[j - 1].key;
      }
    }
  }

  lemma InsertStart(s: seq<Elem>, left: nat, i: nat)
    requires left < i < |s| && SortedIn(s, left, i - 1)
    ensures Inserting(s, left, i, i)
  {
  }

  /** The array with tmp in slot j, after one element has been moved from j to j + 1, is the one before with both exchanged. */
  lemma MovedIs(s: seq<Elem>, j: nat, tmp: Elem)
    requires 0 < j < |s|
    ensures s[j := s[j - 1]][j - 1 := tmp] == Swapped(s[j := tmp], j, j - 1)
  {
  }

  lemma SortedNext(s: seq<Elem>, left: nat, i: nat)
    requires left < i < |s| && SortedIn(s, left, i - 1) && s[i - 1].key <= s[i].key
    ensures SortedIn(s, left, i)
  {
    forall x, y | left <= x < y <= i ensures s[x].key <= s[y].key {
      assert y == i ==> x == i - 1 || s[x].key <= s[i - 1].key;
    }
  }

  /** One element moves up; s is the array with tmp in the free slot. */
  method MoveUp(a: array<Elem>, left: nat, j: nat, ghost i: nat, ghost right: nat, ghost tmp: Elem, ghost s0: seq<Elem>, ghost s: seq<Elem>)
    returns (ghost t: seq<Elem>)
    requires left < j <= i <= right < a.Length && s == a[..][j := tmp] && Inserting(s, left, j, i) && PermWithin(s0, s, left, right + 1)
    requires tmp.key <= a[j - 1].key
    modifies a
    ensures t == a[..][j - 1 := tmp] && Inserting(t, left, j - 1, i) && PermWithin(s0, t, left, right + 1)
    ensures a[..left] == old(a[..left])
  {
    hide *;
    ghost var u := a[..];
    assert s[j] == tmp && s[j - 1] == a[j - 1];
    MovedIs(u, j, tmp);
    InsertStep(s, left, j, i);
    SwapPerm(s, j, j - 1, left, right + 1);
    t := Swapped(s, j, j - 1);
    PermTrans(s0, s, t, left, right + 1);
    a[j] := a[j - 1];
    assert a[..] == u[j := u[j - 1]];
  }

  /** The element in front is not greater than any of the segment. */
  ghost predicate Sentinel(s: seq<Elem>, left: nat, right: nat) {
    0 < left <= right < |s| && forall y :: left <= y <= right ==> s[left - 1].key <= s[y].key
  }

  lemma SentinelFacts(s: seq<Elem>, left: nat, right: nat, i: nat)
    requires Sentinel(s, left, right) && left <= i <= right
    ensures 0 < left && left - 1 < |s| && i < |s| && s[left - 1].key <= s[i].key
  {
  }

  /** Moves elements up until there is the place for element i; guarded says whether the left end is tested for.
      Without that test, an element in front that is not greater than any of the others has to stop the search. */
  method InsertOne(a: array<Elem>, left: nat, i: nat, right: nat, guarded: bool)
    requires left < i <= right < a.Length && SortedIn(a[..], left, i - 1) && a[i].key <= a[i - 1].key
    requires !guarded ==> Sentinel(a[..], left, right)
    modifies a
    ensures SortedIn(a[..], left, i) && PermWithin(old(a[..]), a[..], left, right + 1)
  {
    hide *;
    ghost var s0, low := a[..], a[..left];
    var j, tmp := i, a[i];
    ghost var s := s0;
    assert s == a[..][j := tmp];
    InsertStart(s, left, i);
    PermRefl(s0, left, right + 1);
    while true
      invariant left < j <= i && s == a[..][j := tmp] && Inserting(s, left, j, i) && PermWithin(s0, s, left, right + 1)
      invariant tmp.key <= a[j - 1].key && a[..left] == low
      decreases j
    {
      s := MoveUp(a, left, j, i, right, tmp, s0, s);
      j := j - 1;
      if guarded && j == left {
        break;
      }
      if j == left {
        SentinelFacts(s0, left, right, i);
        assert a[left - 1] == a[..left][left - 1] == low[left - 1] == s0[left - 1];
      }
      if !(tmp.key < a[j - 1].key) {
        break;
      }
    }
    Finish(a[..], j, tmp, left);
    a[j] := tmp;
    assert a[..] == s;
    InsertDone(s, left, j, i);
  }

  lemma Finish(s: seq<Elem>, j: nat, tmp: Elem, left: nat)
    requires left <= j < |s|
    ensures s[j := tmp][j] == tmp && (j > left ==> s[j := tmp][j - 1] == s[j - 1])
  {
  }

  /** Insertion sort of the elements from left to right. */
  method InsertionSort(a: array<Elem>, left: nat, right: nat)
    requires left <= right < a.Length
    modifies a
    ensures SortedIn(a[..], left, right) && PermWithin(old(a[..]), a[..], left, right + 1)
  {
    hide *;
    var i := left + 1;
    PermRefl(a[..], left, right + 1);
    OneSorted(a[..], left);
    while i <= right
      invariant left < i <= right + 1 && SortedIn(a[..], left, i - 1) && PermWithin(old(a[..]), a[..], left, right + 1)
    {
      if a[i - 1].key < a[i].key {
        SortedNext(a[..], left, i);
      } else {
        ghost var s := a[..];
        InsertOne(a, left, i, right, true);
        PermTrans(old(a[..]), s, a[..], left, right + 1);
      }
      i := i + 1;
    }
  }

  /** Insertion sort without a test for the left end. */
  method UnguardedInsertionSort(a: array<Elem>, left: nat, right: nat)
    requires right < a.Length && Sentinel(a[..], left, right)
    modifies a
    ensures SortedIn(a[..], left, right) && PermWithin(old(a[..]), a[..], left, right + 1)
  {
    hide *;
    ghost var s0 := a[..];
    LeftInRange(s0, left, right);
    var i := left + 1;
    PermRefl(s0, left, right + 1);
    OneSorted(s0, left);
    while i <= right
      invariant left < i <= right + 1 && SortedIn(a[..], left, i - 1) && PermWithin(s0, a[..], left, right + 1)
    {
      if a[i - 1].key < a[i].key {
        SortedNext(a[..], left, i);
      } else {
        ghost var s := a[..];
        SentinelKept(s0, s, left, right);
        InsertOne(a, left, i, right, false);
        PermTrans(s0, s, a[..], left, right + 1);
      }
      i := i + 1;
    }
  }

  lemma LeftInRange(s: seq<Elem>, left: nat, right: nat)
    requires Sentinel(s, left, right)
    ensures 0 < left <= right < |s|
  {
  }

  lemma OneSorted(s: seq<Elem>, left: nat)
    ensures SortedIn(s, left, left)
  {
  }

  lemma SentinelKept(s: seq<Elem>, t: seq<Elem>, left: nat, right: nat)
    requires Sentinel(s, left, right) && PermWithin(s, t, left, right + 1)
    ensures Sentinel(t, left, right)
  {
    PermOutside(s, t, left, right + 1, left - 1);
    forall y | left <= y <= right ensures t[left - 1].key <= t[y].key {
      var j := PermFrom(s, t, left, right + 1, y);
    }
  }

  // ---------------------------------------------------------------- the pivot

  /** Exchanges the elements x and y if the one at y is less. */
  method Sort2(a: array<Elem>, x: nat, y: nat, ghost lo: nat, ghost hi: nat) returns (swapped: bool)
    requires lo <= x < hi <= a.Length && lo <= y < hi
    modifies a
    ensures a[x].key <= a[y].key && PermWithin(old(a[..]), a[..], lo, hi)
    ensures a[..] == if swapped then Swapped(old(a[..]), x, y) else old(a[..])
    ensures swapped <==> old(a[y]).key < old(a[x]).key
  {
    if a[y].key < a[x].key {
      SwapPerm(a[..], x, y, lo, hi);
      Swap(a, x, y);
      assert a[x] == a[..][x] && a[y] == a[..][y];
      return true;
    }
    PermRefl(a[..], lo, hi);
    return false;
  }

  /** Puts the elements x, y and z into order. */
  method Sort3(a: array<Elem>, x: nat, y: nat, z: nat, ghost lo: nat, ghost hi: nat)
    requires lo <= x < hi <= a.Length && lo <= y < hi && lo <= z < hi
    modifies a
    ensures PermWithin(old(a[..]), a[..], lo, hi)
    ensures x != z && y != z ==> a[x].key <= a[y].key <= a[z].key
  {
    ghost var s := a[..];
    var b := Sort2(a, x, y, lo, hi);
    ghost var t := a[..];
    assert t[x] == a[x] && t[y] == a[y] && t[z] == a[z];
    b := Sort2(a, y, z, lo, hi);
    ghost var u := a[..];
    assert u[x] == a[x] && u[y] == a[y] && u[z] == a[z];
    PermTrans(s, t, u, lo, hi);
    hide PermWithin;
    if b {
      b := Sort2(a, x, y, lo, hi);
      PermTrans(s, u, a[..], lo, hi);
      assert a[..][x] == a[x] && a[..][y] == a[y] && a[..][z] == a[z];
    }
  }

  lemma Halfway(l: nat, r: nat)
    requires l <= r
    ensures l <= l + (r - l) / 2 <= r && (l < r ==> l + (r - l) / 2 < r) && (r - l >= 2 ==> l < l + (r - l) / 2)
  {
  }

  /** In a long part, the medians of three samples go to the ends and to the middle first. */
  method SpreadSamples(a: array<Elem>, left: nat, mid: nat, right: nat)
    requires left + 2 <= mid && mid + 2 <= right < a.Length
    modifies a
    ensures PermWithin(old(a[..]), a[..], left, right + 1)
  {
    hide *;
    ghost var s := a[..];
    Halfway(left, mid);
    Halfway(mid, right);
    var leftMid, rightMid := left + (mid - left) / 2, mid + (right - mid) / 2;
    Sort3(a, leftMid, left, mid - 1, left, right + 1);
    ghost var t := a[..];
    Sort3(a, mid + 1, right, rightMid, left, right + 1);
    PermTrans(s, t, a[..], left, right + 1);
    t := a[..];
    Sort3(a, leftMid + 1, mid, rightMid - 1, left, right + 1);
    PermTrans(s, t, a[..], left, right + 1);
  }

  /** Chooses a pivot near the middle, and puts elements at both ends that bound it. */
  method SelectPivot(a: array<Elem>, left: nat, right: nat) returns (mid: nat)
    requires left < right < a.Length
    modifies a
    ensures left <= mid < right && a[left].key <= a[mid].key <= a[right].key && PermWithin(old(a[..]), a[..], left, right + 1)
  {
    hide *;
    ghost var s := a[..];
    PermRefl(s, left, right + 1);
    Halfway(left, right);
    mid := left + (right - left) / 2;
    if right - left + 1 >= 256 {
      assert left + 2 <= mid && mid + 2 <= right;
      SpreadSamples(a, left, mid, right);
    }
    ghost var t := a[..];
    Sort3(a, left, mid, right, left, right + 1);
    PermTrans(s, t, a[..], left, right + 1);
  }

  // ---------------------------------------------------------------- partitioning

  ghost predicate AtMost(s: seq<Elem>, lo: int, hi: int, p: int) {
    forall x :: 0 <= lo <= x < hi <= |s| ==> s[x].key <= p
  }

  ghost predicate AtLeast(s: seq<Elem>, lo: int, hi: int, p: int) {
    forall x :: 0 <= lo <= x < hi <= |s| ==> s[x].key >= p
  }

  /** Moves i up to an element that is not less than the pivot, which there is up to j + 1. */
  method ScanUp(a: array<Elem>, left: nat, right: nat, i0: nat, j: nat, mid: nat) returns (i: nat)
    requires left < i0 <= j + 1 <= right < a.Length && mid <= right
    requires AtMost(a[..], left, i0, a[mid].key) && AtLeast(a[..], j + 1, right + 1, a[mid].key)
    ensures i0 <= i <= j + 1 && AtMost(a[..], left, i, a[mid].key) && a[i].key >= a[mid].key
  {
    i := i0;
    assert a[j + 1] == a[..][j + 1];
    while a[i].key < a[mid].key
      invariant i0 <= i <= j + 1 && AtMost(a[..], left, i, a[mid].key)
      decreases right - i
    {
      assert a[i] == a[..][i];
      i := i + 1;
    }
  }

  /** Moves j down to an element that is not greater than the pivot, which there is down to i0 - 1. */
  method ScanDown(a: array<Elem>, left: nat, right: nat, i0: nat, j0: nat, mid: nat) returns (j: nat)
    requires left < i0 <= j0 + 1 <= right < a.Length && mid <= right
    requires AtMost(a[..], left, i0, a[mid].key) && AtLeast(a[..], j0 + 1, right + 1, a[mid].key)
    ensures i0 - 1 <= j <= j0 && AtLeast(a[..], j + 1, right + 1, a[mid].key) && a[j].key <= a[mid].key
  {
    j := j0;
    assert a[i0 - 1] == a[..][i0 - 1];
    while a[mid].key < a[j].key
      invariant i0 - 1 <= j <= j0 && AtLeast(a[..], j + 1, right + 1, a[mid].key)
      decreases j
    {
      assert a[j] == a[..][j];
      j := j - 1;
    }
  }

  /** Exchanging two elements that are on the wrong sides. */
  lemma Exchanged(s: seq<Elem>, left: nat, right: nat, i: nat, j: nat, p: int)
    requires left < i < j < right < |s| && AtMost(s, left, i, p) && AtLeast(s, j + 1, right + 1, p) && s[j].key <= p <= s[i].key
    ensures AtMost(Swapped(s, i, j), left, i + 1, p) && AtLeast(Swapped(s, i, j), j, right + 1, p)
  {
  }

  /** Both parts, with elements equal to the pivot in between. */
  ghost predicate Parted(s: seq<Elem>, left: nat, right: nat, i: nat, j: nat, p: int) {
    left <= j < i <= right < |s| && AtMost(s, left, i, p) && AtLeast(s, j + 1, right + 1, p)
  }

  /** Exchanges two elements that are on the wrong sides, and keeps track of the pivot. */
  method Exchange(a: array<Elem>, left: nat, right: nat, i: nat, j: nat, mid: nat, ghost p: int, ghost s0: seq<Elem>) returns (mid1: nat)
    requires left < i < j < right < a.Length && AtMost(a[..], left, i, p) && AtLeast(a[..], j + 1, right + 1, p)
    requires a[j].key <= p <= a[i].key && left <= mid <= right && a[mid].key == p && PermWithin(s0, a[..], left, right + 1)
    modifies a
    ensures AtMost(a[..], left, i + 1, p) && AtLeast(a[..], j, right + 1, p) && PermWithin(s0, a[..], left, right + 1)
    ensures left <= mid1 <= right && a[mid1].key == p
  {
    hide *;
    ghost var s := a[..];
    assert s[i] == a[i] && s[j] == a[j] && s[mid] == a[mid];
    Exchanged(s, left, right, i, j, p);
    SwapPerm(s, i, j, left, right + 1);
    PermTrans(s0, s, Swapped(s, i, j), left, right + 1);
    mid1 := if mid == i then j else if mid == j then i else mid;
    PivotAt(s, i, j, mid, mid1);
    Swap(a, i, j);
    assert a[mid1] == a[..][mid1];
  }

  lemma PivotAt(s: seq<Elem>, i: nat, j: nat, mid: nat, mid1: nat)
    requires i < |s| && j < |s| && mid < |s| && mid1 == if mid == i then j else if mid == j then i else mid
    ensures Swapped(s, i, j)[mid1] == s[mid]
  {
  }

  /** Splits the elements from left to right into those up to j and those from i on. */
  method Partition(a: array<Elem>, left: nat, right: nat, mid0: nat) returns (i: nat, j: nat, ghost p: int)
    requires left < right < a.Length && left <= mid0 < right && a[left].key <= a[mid0].key <= a[right].key
    modifies a
    ensures Parted(a[..], left, right, i, j, p) && PermWithin(old(a[..]), a[..], left, right + 1)
  {
    hide *;
    ghost var s0 := a[..];
    var mid := mid0;
    p := a[mid].key;
    i, j := left + 1, right - 1;
    PermRefl(s0, left, right + 1);
    assert s0[left] == a[left] && s0[right] == a[right];
    EndsOk(s0, left, right, p);
    while true
      invariant left < i <= j + 1 && j < right && left <= mid <= right && a[mid].key == p
      invariant AtMost(a[..], left, i, p) && AtLeast(a[..], j + 1, right + 1, p) && PermWithin(s0, a[..], left, right + 1)
      decreases j + 1 - i
    {
      var i0 := i;
      i := ScanUp(a, left, right, i, j, mid);
      j := ScanDown(a, left, right, i0, j, mid);
      if i >= j {
        if i == j {
          assert a[i] == a[..][i];
          OneMore(a[..], left, right, i, p);
          i, j := i + 1, j - 1;
        }
        break;
      }
      mid := Exchange(a, left, right, i, j, mid, p, s0);
      i, j := i + 1, j - 1;
      if i > j {
        break;
      }
    }
    FoldParted(a[..], left, right, i, j, p);
  }

  lemma EndsOk(s: seq<Elem>, left: nat, right: nat, p: int)
    requires left < right < |s| && s[left].key <= p <= s[right].key
    ensures AtMost(s, left, left + 1, p) && AtLeast(s, right, right + 1, p)
  {
  }

  lemma FoldParted(s: seq<Elem>, left: nat, right: nat, i: nat, j: nat, p: int)
    requires left <= j < i <= right < |s| && AtMost(s, left, i, p) && AtLeast(s, j + 1, right + 1, p)
    ensures Parted(s, left, right, i, j, p)
  {
  }

  lemma OneMore(s: seq<Elem>, left: nat, right: nat, i: nat, p: int)
    requires left < i < right < |s| && AtMost(s, left, i, p) && AtLeast(s, i + 1, right + 1, p) && s[i].key == p
    ensures AtMost(s, left, i + 1, p) && AtLeast(s, i, right + 1, p)
  {
  }

  /** What is between the two parts, and the border, are cuts. */
  lemma PartedCuts(s: seq<Elem>, left: nat, right: nat, i: nat, j: nat, p: int, k: nat)
    requires Parted(s, left, right, i, j, p) && Cut(s, left) && Cut(s, right + 1) && j < k <= i
    ensures Cut(s, k)
  {
    InnerCut(s, left, right, k);
  }
}
