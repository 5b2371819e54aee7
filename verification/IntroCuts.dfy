/** Where an array is already cut into a lower and a higher part, and the segments that are still to be sorted. */
module IntroCuts {
  import opened SortElements

  /** Nothing before k is greater than anything from k on. */
  ghost predicate Cut(s: seq<Elem>, k: int) {
    forall x, y :: 0 <= x < k && k <= y < |s| ==> s[x].key <= s[y].key
  }

  ghost predicate Sorted(s: seq<Elem>) {
    forall x, y :: 0 <= x < y < |s| ==> s[x].key <= s[y].key
  }

  ghost predicate SortedIn(s: seq<Elem>, l: int, r: int) {
    forall x, y :: 0 <= l <= x < y <= r < |s| ==> s[x].key <= s[y].key
  }

  /** Rearranging a segment keeps the cuts outside of it. */
  lemma CutKept(s: seq<Elem>, t: seq<Elem>, l: nat, h: nat, k: nat)
    requires PermWithin(s, t, l, h) && Cut(s, k) && (k <= l || h <= k)
    ensures Cut(t, k)
  {
    forall x, y | 0 <= x < k && k <= y < |t| ensures t[x].key <= t[y].key {
      var x0 := Origin(s, t, l, h, x);
      var y0 := Origin(s, t, l, h, y);
      assert s[x0].key <= s[y0].key;
    }
  }

  /** Where an element was before. */
  lemma Origin(s: seq<Elem>, t: seq<Elem>, l: nat, h: nat, x: nat) returns (x0: nat)
    requires PermWithin(s, t, l, h) && x < |t|
    ensures x0 < |s| == |t| && s[x0] == t[x] && (l <= x < h ==> l <= x0 < h) && (x < l || h <= x ==> x0 == x)
  {
    if l <= x < h {
      x0 := PermFrom(s, t, l, h, x);
    } else {
      PermOutside(s, t, l, h, x);
      x0 := x;
    }
  }

  /** A cut within a segment whose ends are cuts. */
  lemma InnerCut(s: seq<Elem>, l: nat, r: nat, k: nat)
    requires l <= r < |s| && Cut(s, l) && Cut(s, r + 1) && l <= k <= r + 1
    requires forall x, y :: l <= x < k && k <= y <= r ==> s[x].key <= s[y].key
    ensures Cut(s, k)
  {
    forall x, y | 0 <= x < k && k <= y < |s| ensures s[x].key <= s[y].key {
    }
  }

  // ---------------------------------------------------------------- segments

  /** A part of the array, both ends included. */
  datatype Seg = Seg(left: nat, right: nat)

  ghost predicate Inside(g: Seg, k: int) {
    g.left < k <= g.right
  }

  ghost predicate Outside(segs: seq<Seg>, k: int) {
    forall t :: 0 <= t < |segs| ==> !Inside(segs[t], k)
  }

  ghost predicate Clear(g: Seg, h: Seg) {
    g.right < h.left || h.right < g.left
  }

  /** The segments lie in the array and do not overlap. */
  ghost predicate SegsOk(n: nat, segs: seq<Seg>) {
    (forall t :: 0 <= t < |segs| ==> segs[t].left <= segs[t].right < n) &&
    forall t, u :: 0 <= t < u < |segs| ==> Clear(segs[t], segs[u])
  }

  /** What is not inside a segment is a cut. */
  ghost predicate Cuts(s: seq<Elem>, segs: seq<Seg>) {
    forall k {:trigger Cut(s, k)} :: 0 <= k <= |s| && Outside(segs, k) ==> Cut(s, k)
  }

  ghost function Top(segs: seq<Seg>): Seg
    requires segs != []
  {
    segs[|segs| - 1]
  }

  ghost function Rest(segs: seq<Seg>): seq<Seg>
    requires segs != []
  {
    segs[..|segs| - 1]
  }

  lemma OutsideRest(segs: seq<Seg>, k: int)
    requires segs != []
    ensures Outside(segs, k) <==> Outside(Rest(segs), k) && !Inside(Top(segs), k)
  {
    if Outside(Rest(segs), k) && !Inside(Top(segs), k) {
      forall t | 0 <= t < |segs| ensures !Inside(segs[t], k) {
        if t < |segs| - 1 {
          assert Rest(segs)[t] == segs[t];
        }
      }
    }
  }

  /** The ends of the last segment are cuts. */
  lemma TopCuts(s: seq<Elem>, segs: seq<Seg>)
    requires segs != [] && SegsOk(|s|, segs) && Cuts(s, segs)
    ensures Top(segs).left <= Top(segs).right < |s| && Cut(s, Top(segs).left) && Cut(s, Top(segs).right + 1)
  {
    var g := Top(segs);
    forall t | 0 <= t < |segs| ensures !Inside(segs[t], g.left) && !Inside(segs[t], g.right + 1) {
      assert t < |segs| - 1 ==> Clear(segs[t], g);
    }
    assert Outside(segs, g.left) && Outside(segs, g.right + 1);
  }

  /** The last segment has been rearranged. */
  lemma TopRearranged(s: seq<Elem>, t: seq<Elem>, segs: seq<Seg>)
    requires segs != [] && SegsOk(|s|, segs) && Cuts(s, segs) && PermWithin(s, t, Top(segs).left, Top(segs).right + 1)
    ensures |t| == |s| && Cuts(t, segs)
  {
    var g := Top(segs);
    forall k | 0 <= k <= |t| && Outside(segs, k) ensures Cut(t, k) {
      assert !Inside(g, k);
      assert Cut(s, k);
      CutKept(s, t, g.left, g.right + 1, k);
    }
  }

  /** The last segment is sorted. */
  lemma TopSorted(s: seq<Elem>, segs: seq<Seg>)
    requires segs != [] && SegsOk(|s|, segs) && Cuts(s, segs) && SortedIn(s, Top(segs).left, Top(segs).right)
    ensures SegsOk(|s|, Rest(segs)) && Cuts(s, Rest(segs))
  {
    TopCuts(s, segs);
    var g := Top(segs);
    RestOk(|s|, segs);
    forall k | 0 <= k <= |s| && Outside(Rest(segs), k) ensures Cut(s, k) {
      OutsideRest(segs, k);
      if Inside(g, k) {
        InnerCut(s, g.left, g.right, k);
      }
    }
  }

  lemma RestOk(n: nat, segs: seq<Seg>)
    requires segs != [] && SegsOk(n, segs)
    ensures SegsOk(n, Rest(segs))
  {
    assert forall t :: 0 <= t < |segs| - 1 ==> Rest(segs)[t] == segs[t];
  }

  lemma AllSorted(s: seq<Elem>)
    requires Cuts(s, [])
    ensures Sorted(s)
  {
    forall x, y | 0 <= x < y < |s| ensures s[x].key <= s[y].key {
      assert Outside([], y);
      assert Cut(s, y);
    }
  }

  /** The last segment has been split into two. */
  lemma TopSplit(s: seq<Elem>, segs: seq<Seg>, g: Seg, h: Seg)
    requires segs != [] && SegsOk(|s|, segs) && Cuts(s, segs)
    requires Top(segs).left <= g.left <= g.right <= Top(segs).right && Top(segs).left <= h.left <= h.right <= Top(segs).right && Clear(g, h)
    requires forall k :: Inside(Top(segs), k) && !Inside(g, k) && !Inside(h, k) ==> Cut(s, k)
    ensures SegsOk(|s|, Rest(segs) + [g, h]) && Cuts(s, Rest(segs) + [g, h])
  {
    var ts := Rest(segs) + [g, h];
    var m := |segs| - 1;
    assert forall t :: 0 <= t < m ==> ts[t] == segs[t] && Clear(segs[t], Top(segs));
    assert ts[m] == g && ts[m + 1] == h;
    forall k | 0 <= k <= |s| && Outside(ts, k) ensures Cut(s, k) {
      assert !Inside(ts[m], k) && !Inside(ts[m + 1], k);
      if !Inside(Top(segs), k) {
        forall t | 0 <= t < |segs| ensures !Inside(segs[t], k) {
          assert t < m ==> !Inside(ts[t], k);
        }
        assert Outside(segs, k);
      }
    }
  }

  // ---------------------------------------------------------------- sizes

  function Size(g: Seg): int {
    g.right - g.left + 1
  }

  ghost function Pow2(n: nat): (p: nat)
    ensures p >= 1
  {
    if n == 0 then 1 else 2 * Pow2(n - 1)
  }

  lemma {:induction false} Pow2Less(m: nat, k: nat)
    requires Pow2(m) < Pow2(k)
    ensures m < k
    decreases m
  {
    if k == 0 {
    } else if m > 0 {
      Pow2Less(m - 1, k - 1);
    }
  }

  /** Each segment on the stack is at most half as large as was possible for the one below. */
  ghost predicate Halved(n: nat, segs: seq<Seg>) {
    forall t {:trigger Fits(n, segs, t)} :: 0 <= t < |segs| ==> Fits(n, segs, t)
  }

  ghost predicate Fits(n: nat, segs: seq<Seg>, t: int) {
    0 <= t < |segs| ==> Size(segs[t]) * Pow2(t) <= n
  }

  lemma RestHalved(n: nat, segs: seq<Seg>)
    requires segs != [] && Halved(n, segs)
    ensures Halved(n, Rest(segs))
  {
    forall t | 0 <= t < |segs| - 1 ensures Fits(n, Rest(segs), t) {
      assert Fits(n, segs, t);
      assert Rest(segs)[t] == segs[t];
    }
  }

  /** The smaller part is on top. */
  lemma SplitHalved(n: nat, segs: seq<Seg>, g: Seg, h: Seg)
    requires segs != [] && Halved(n, segs) && Size(g) <= Size(Top(segs)) && 2 * Size(h) <= Size(Top(segs))
    ensures Halved(n, Rest(segs) + [g, h])
  {
    var ts := Rest(segs) + [g, h];
    var m := |segs| - 1;
    assert Fits(n, segs, m);
    forall t | 0 <= t < |ts| ensures Fits(n, ts, t) {
      if t < m {
        assert Fits(n, segs, t);
        assert ts[t] == segs[t];
      } else if t == m {
        Scale(Size(g), Size(segs[m]), Pow2(m));
      } else {
        Scale(2 * Size(h), Size(segs[m]), Pow2(m));
        Double(Size(h), Pow2(m));
      }
    }
  }

  lemma Scale(a: int, b: int, p: nat)
    requires a <= b
    ensures a * p <= b * p
  {
  }

  lemma Double(a: int, p: nat)
    ensures (2 * a) * p == a * (2 * p)
  {
  }

  /** While the last segment has two elements or more, there are fewer than k segments below it if n < 2^k. */
  lemma StackDepth(n: nat, segs: seq<Seg>, k: nat)
    requires segs != [] && Halved(n, segs) && Size(Top(segs)) >= 1 && n < Pow2(k)
    ensures |segs| - 1 < k
  {
    var m := |segs| - 1;
    assert Fits(n, segs, m);
    Scale(1, Size(segs[m]), Pow2(m));
    Pow2Less(m, k);
  }

  /** What is left to do: it gets less with every segment that is sorted or split. */
  ghost function Work(segs: seq<Seg>): nat {
    if segs == [] then 0 else Work(Rest(segs)) + if Top(segs).left <= Top(segs).right then 2 * Size(Top(segs)) - 1 else 0
  }

  lemma WorkSplit(segs: seq<Seg>, g: Seg, h: Seg)
    requires segs != [] && g.left <= g.right && h.left <= h.right && Size(g) + Size(h) <= Size(Top(segs)) && Top(segs).left <= Top(segs).right
    ensures Work(Rest(segs) + [g, h]) < Work(segs)
  {
    var ts := Rest(segs) + [g, h];
    assert Rest(ts) == Rest(segs) + [g];
    assert Rest(Rest(ts)) == Rest(segs);
  }

  lemma WorkRest(segs: seq<Seg>)
    requires segs != [] && Top(segs).left <= Top(segs).right
    ensures Work(Rest(segs)) < Work(segs)
  {
  }
}
