/** Array elements with an order, exchanging them, and rearranging part of an array. */
module SortElements {

  /** An element is compared by its key only; elements with the same key can be told apart by their values. */
  datatype Elem = Elem(key: int, value: int)

  /** The order, or the reverse of it. */
  predicate Less(up: bool, a: Elem, b: Elem) {
    if up then a.key < b.key else b.key < a.key
  }

  ghost function Swapped<T>(s: seq<T>, i: nat, j: nat): (t: seq<T>)
    requires i < |s| && j < |s|
    ensures |t| == |s|
  {
    s[i := s[j]][j := s[i]]
  }

  method Swap(a: array<Elem>, i: nat, j: nat)
    requires i < a.Length && j < a.Length
    modifies a
    ensures a[..] == Swapped(old(a[..]), i, j)
  {
    a[i], a[j] := a[j], a[i];
  }

  /** The part from lo to hi has been rearranged, and the rest is as it was. */
  ghost predicate PermWithin<T>(s: seq<T>, t: seq<T>, lo: nat, hi: nat) {
    |s| == |t| && lo <= hi <= |s| && s[..lo] == t[..lo] && s[hi..] == t[hi..] && multiset(s[lo..hi]) == multiset(t[lo..hi])
  }

  lemma PermParts<T>(s: seq<T>, t: seq<T>, lo: nat, hi: nat)
    requires PermWithin(s, t, lo, hi)
    ensures |s| == |t| && lo <= hi <= |s| && s[..lo] == t[..lo] && s[hi..] == t[hi..] && multiset(s[lo..hi]) == multiset(t[lo..hi])
  {
  }

  lemma SwapMultiset<T>(s: seq<T>, i: nat, j: nat)
    requires i < |s| && j < |s|
    ensures multiset(Swapped(s, i, j)) == multiset(s)
  {
    var t := s[i := s[j]];
    assert multiset(t) == multiset(s) - multiset{s[i]} + multiset{s[j]};
  }

  lemma SwapPerm<T>(s: seq<T>, i: nat, j: nat, lo: nat, hi: nat)
    requires lo <= i < hi <= |s| && lo <= j < hi
    ensures PermWithin(s, Swapped(s, i, j), lo, hi)
  {
    var t := Swapped(s, i, j);
    assert t[lo..hi] == Swapped(s[lo..hi], i - lo, j - lo);
    SwapMultiset(s[lo..hi], i - lo, j - lo);
  }

  lemma PermRefl<T>(s: seq<T>, lo: nat, hi: nat)
    requires lo <= hi <= |s|
    ensures PermWithin(s, s, lo, hi)
  {
  }

  lemma PermTrans<T>(s: seq<T>, t: seq<T>, u: seq<T>, lo: nat, hi: nat)
    requires PermWithin(s, t, lo, hi) && PermWithin(t, u, lo, hi)
    ensures PermWithin(s, u, lo, hi)
  {
  }

  /** Rearranging a part rearranges any larger part. */
  lemma PermWiden<T>(s: seq<T>, t: seq<T>, lo: nat, hi: nat, lo1: nat, hi1: nat)
    requires PermWithin(s, t, lo, hi) && lo1 <= lo && hi <= hi1 <= |s|
    ensures PermWithin(s, t, lo1, hi1)
  {
    assert s[lo1..hi1] == s[lo1..lo] + s[lo..hi] + s[hi..hi1];
    assert t[lo1..hi1] == t[lo1..lo] + t[lo..hi] + t[hi..hi1];
    assert s[lo1..lo] == s[..lo][lo1..] && t[lo1..lo] == t[..lo][lo1..];
    assert s[hi..hi1] == s[hi..][..hi1 - hi] && t[hi..hi1] == t[hi..][..hi1 - hi];
    assert s[..lo1] == s[..lo][..lo1] && t[..lo1] == t[..lo][..lo1];
    assert s[hi1..] == s[hi..][hi1 - hi..] && t[hi1..] == t[hi..][hi1 - hi..];
  }

  /** Each element of the part comes from the part. */
  lemma PermFrom<T>(s: seq<T>, t: seq<T>, lo: nat, hi: nat, k: nat) returns (j: nat)
    requires PermWithin(s, t, lo, hi) && lo <= k < hi
    ensures lo <= j < hi && t[k] == s[j]
  {
    assert t[lo..hi][k - lo] == t[k];
    assert t[k] in multiset(t[lo..hi]);
    assert t[k] in s[lo..hi];
    var i :| 0 <= i < hi - lo && s[lo..hi][i] == t[k];
    j := lo + i;
  }

  lemma PermOutside<T>(s: seq<T>, t: seq<T>, lo: nat, hi: nat, k: nat)
    requires PermWithin(s, t, lo, hi) && k < |s| && (k < lo || hi <= k)
    ensures t[k] == s[k]
  {
    if k < lo {
      assert t[..lo][k] == s[..lo][k];
    } else {
      assert t[hi..][k - hi] == s[hi..][k - hi];
    }
  }
}
