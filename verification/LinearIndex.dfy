/** Which bucket of a linear hash table a hash value belongs to. */
module LinearIndex {
  import opened Division
  import opened LinearChain

  /** The first p of n buckets have been split already. */
  function Index(h: nat, n: nat, p: nat): nat
    requires n > 0
  {
    if h % n >= p then h % n else h % (n * 2)
  }

  /** One more bit: the remainder is the same, or n more. */
  lemma ModDouble(h: nat, n: nat)
    requires n > 0
    ensures h % (n * 2) == h % n || h % (n * 2) == h % n + n
  {
    var m := n * 2;
    var q, r := h / m, h % m;
    Quotient(h, m);
    if r < n {
      Twice(q, n);
      DivUnique(h, n, 2 * q, r);
    } else {
      Twice(q, n);
      DivUnique(h, n, 2 * q + 1, r - n);
    }
  }

  lemma Twice(q: int, n: int)
    ensures q * (n * 2) == (2 * q) * n && (2 * q + 1) * n == (2 * q) * n + n
  {
  }

  lemma IndexInRange(h: nat, n: nat, p: nat)
    requires p < n
    ensures Index(h, n, p) < n + p
  {
    ModDouble(h, n);
  }

  /** After a split at p: everything else stays where it is, and what was there stays or goes to the new bucket. */
  lemma IndexAfterSplit(h: nat, n: nat, p: nat)
    requires p < n
    ensures var n1, p1 := if p + 1 == n then n * 2 else n, if p + 1 == n then 0 else p + 1;
      if Index(h, n, p) == p then Index(h, n1, p1) == p || Index(h, n1, p1) == n + p else Index(h, n1, p1) == Index(h, n, p)
  {
    ModDouble(h, n);
  }

  /** The items that belong to bucket idx, in order. */
  ghost function Picked(s: seq<Item>, hash: int -> nat, n: nat, p: nat, idx: nat): seq<Item>
    requires n > 0
  {
    if s == [] then [] else Picked(s[..|s| - 1], hash, n, p, idx) + Pick(s[|s| - 1], hash, n, p, idx)
  }

  ghost function Pick(x: Item, hash: int -> nat, n: nat, p: nat, idx: nat): seq<Item>
    requires n > 0
  {
    if Index(hash(x.key), n, p) == idx then [x] else []
  }

  lemma PickedMore(s: seq<Item>, x: Item, hash: int -> nat, n: nat, p: nat, idx: nat)
    requires n > 0
    ensures Picked(s + [x], hash, n, p, idx) == Picked(s, hash, n, p, idx) + Pick(x, hash, n, p, idx)
  {
    assert (s + [x])[..|s|] == s;
  }

  lemma {:induction false} PickedIs(s: seq<Item>, hash: int -> nat, n: nat, p: nat, idx: nat, x: Item)
    requires n > 0
    ensures x in Picked(s, hash, n, p, idx) <==> x in s && Index(hash(x.key), n, p) == idx
  {
    if s != [] {
      PickedIs(s[..|s| - 1], hash, n, p, idx, x);
      assert s == s[..|s| - 1] + [s[|s| - 1]];
    }
  }
}
