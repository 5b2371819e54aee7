/** The free lists of the allocator, one for each size class. */
module HeapLists {
  import opened HeapBlocks
  import opened Division

  const NBUCKETS: int := 8

  /** The number of zero bits below the lowest one bit. */
  function Ctz(n: int): (k: nat)
    requires n > 0
  {
    if n % 2 == 1 then 0 else 1 + Ctz(n / 2)
  }

  function DivRoundUp(a: int, b: int): int
    requires b > 0
  {
    (a + b - 1) / b
  }

  /** The list for blocks of this size. */
  function Bucket(size: int): (i: int)
    requires size > 0
    ensures 0 <= i < NBUCKETS
  {
    var idx := Ctz(DivRoundUp(size, EXTRA));
    if idx < NBUCKETS - 1 then idx else NBUCKETS - 1
  }

  ghost function Pow2(i: nat): (p: nat)
    ensures p > 0
  {
    if i == 0 then 1 else 2 * Pow2(i - 1)
  }

  lemma TwiceMod(k: nat, m: nat)
    requires m > 0
    ensures (2 * k) % (2 * m) == 2 * (k % m) && (2 * k + 1) % (2 * m) == 2 * (k % m) + 1
  {
    var q, r := k / m, k % m;
    assert k == q * m + r;
    assert q >= 0;
    DivUnique(2 * k, 2 * m, q, 2 * r);
    DivUnique(2 * k + 1, 2 * m, q, 2 * r + 1);
  }

  lemma {:induction false} CtzIs(n: nat, i: nat)
    requires n > 0
    ensures Ctz(n) >= i <==> n % Pow2(i) == 0
    decreases n
  {
    if i > 0 {
      TwiceMod(n / 2, Pow2(i - 1));
      if n % 2 == 0 {
        CtzIs(n / 2, i - 1);
      }
    }
  }

  /** The class of a size is at least i exactly if its number of units of 16 bytes is divisible by 2^i. */
  lemma BucketIs(size: nat, i: nat)
    requires size > 0 && i < NBUCKETS
    ensures Bucket(size) >= i <==> DivRoundUp(size, EXTRA) % Pow2(i) == 0
  {
    CtzIs(DivRoundUp(size, EXTRA), i);
  }

  type Lists = seq<seq<int>>

  ghost predicate NoDup(s: seq<int>) {
    forall i, j :: 0 <= i < j < |s| ==> s[i] != s[j]
  }

  /** A free block that belongs to list i. */
  ghost predicate FreeIn(h: Headers, i: int, a: int) {
    a in h && !h[a].used && h[a].size > 0 && Bucket(h[a].size) == i
  }

  /** List i holds exactly the free blocks of its sizes but those of out. */
  ghost predicate ListOk(h: Headers, list: seq<int>, i: int, out: set<int>) {
    NoDup(list) && forall a :: a in list <==> FreeIn(h, i, a) && a !in out
  }

  ghost predicate ListedBut(h: Headers, ls: Lists, out: set<int>) {
    |ls| == NBUCKETS && forall i {:trigger ls[i]} :: 0 <= i < NBUCKETS ==> ListOk(h, ls[i], i, out)
  }

  /** The lists hold exactly the free blocks, each one once. */
  ghost predicate Listed(h: Headers, ls: Lists) {
    ListedBut(h, ls, {})
  }

  function Without(s: seq<int>, a: int): seq<int> {
    if s == [] then [] else if s[0] == a then s[1..] else [s[0]] + Without(s[1..], a)
  }

  lemma {:induction false} WithoutIs(s: seq<int>, a: int)
    requires NoDup(s)
    ensures NoDup(Without(s, a)) && forall x :: x in Without(s, a) <==> x in s && x != a
  {
    if s != [] {
      assert s == [s[0]] + s[1..];
      assert s[0] !in s[1..];
      WithoutIs(s[1..], a);
    }
  }

  lemma ListInserted(h: Headers, ls: Lists, a: int, i: int)
    requires ListedBut(h, ls, {a}) && FreeIn(h, i, a)
    ensures 0 <= i < |ls| && Listed(h, ls[i := [a] + ls[i]])
  {
    assert ListOk(h, ls[i], i, {a});
    var ms := ls[i := [a] + ls[i]];
    forall j | 0 <= j < NBUCKETS ensures ListOk(h, ms[j], j, {}) {
      assert ListOk(h, ls[j], j, {a});
    }
  }

  lemma ListRemoved(h: Headers, ls: Lists, a: int, i: int, out: set<int>)
    requires ListedBut(h, ls, out) && FreeIn(h, i, a)
    ensures 0 <= i < |ls| && ListedBut(h, ls[i := Without(ls[i], a)], out + {a})
  {
    assert ListOk(h, ls[i], i, out);
    WithoutIs(ls[i], a);
    var ms := ls[i := Without(ls[i], a)];
    forall j | 0 <= j < NBUCKETS ensures ListOk(h, ms[j], j, out + {a}) {
      assert ListOk(h, ls[j], j, out);
    }
  }

  /** Outside out, the free blocks and their sizes are the same. */
  lemma ListsKept(h: Headers, h1: Headers, ls: Lists, out: set<int>, out1: set<int>)
    requires ListedBut(h, ls, out)
    requires forall a, i :: FreeIn(h, i, a) && a !in out <==> FreeIn(h1, i, a) && a !in out1
    ensures ListedBut(h1, ls, out1)
  {
    forall i | 0 <= i < NBUCKETS ensures ListOk(h1, ls[i], i, out1) {
      assert ListOk(h, ls[i], i, out);
    }
  }

  // ---------------------------------------------------------------- what the search finds

  /** A free block that fits is found only in the lists that are searched: the class is the number of trailing
      zeros and not the logarithm, so that a free block of 48 bytes is no help for a request of 32 bytes. */
  lemma ClassesAreNotOrdered()
    ensures Bucket(48) == 0 && Bucket(32) == 1
  {
    assert DivRoundUp(48, EXTRA) == 3 && DivRoundUp(32, EXTRA) == 2;
    assert Ctz(3) == 0 && Ctz(1) == 0 && Ctz(2) == 1;
  }
}
