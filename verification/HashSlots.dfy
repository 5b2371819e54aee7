/** Slots of an open-addressing hash table, on a circle of n indices. */
module HashSlots {

  /** An entry is a key, which is all that lookups compare, and an opaque value. */
  datatype Entry = Entry(key: int, value: int)

  datatype Slot = Empty | Full(hash: nat, entry: Entry)

  const UINT32: nat := 0x1_0000_0000

  function Next(i: nat, n: nat): (j: nat)
    requires i < n
    ensures j < n
  {
    if i + 1 == n then 0 else i + 1
  }

  function Prev(i: nat, n: nat): (j: nat)
    requires i < n
    ensures j < n
  {
    if i == 0 then n - 1 else i - 1
  }

  /** How many steps lead from index b forward to index a. */
  function Off(a: nat, b: nat, n: nat): (d: nat)
    requires a < n && b < n
    ensures d < n
  {
    if a >= b then a - b else a + n - b
  }

  lemma OffStep(a: nat, b: nat, n: nat)
    requires a < n && b < n
    ensures Prev(Next(a, n), n) == a && Next(Prev(a, n), n) == a
    ensures Off(Next(a, n), b, n) == if Next(a, n) == b then 0 else Off(a, b, n) + 1
    ensures a != b ==> Off(Prev(a, n), b, n) == Off(a, b, n) - 1 && Off(b, Next(a, n), n) == Off(b, a, n) - 1
    ensures Off(a, b, n) == 0 <==> a == b
  {
  }

  lemma ModOnce(x: nat, n: nat)
    requires 0 < n && x < 2 * n
    ensures x % n == if x < n then x else x - n
  {
    if x >= n {
      assert x == 1 * n + (x - n);
    }
  }

  /** The index i steps on from start, as the source computes it with a mask. */
  function Wrap(start: nat, i: nat, n: nat): (j: nat)
    requires start < n && i <= n
    ensures j < n && j == if start + i < n then start + i else start + i - n
  {
    ModOnce(start + i, n);
    (start + i) % n
  }

  lemma WrapOff(start: nat, i: nat, n: nat)
    requires start < n && i < n
    ensures Off(Wrap(start, i, n), start, n) == i
  {
  }

  lemma OffWrap(start: nat, j: nat, n: nat)
    requires start < n && j < n
    ensures Wrap(start, Off(j, start, n), n) == j
  {
    hide Wrap;
  }

  lemma WrapNext(start: nat, i: nat, n: nat)
    requires start < n && i < n
    ensures Wrap(start, i + 1, n) == Next(Wrap(start, i, n), n)
  {
    hide Wrap;
  }

  /** The slots that two parallel arrays of hashes and entries stand for; hash 0 marks an empty slot. */
  ghost function View(hashes: array<nat>, entries: array<Entry>): (st: seq<Slot>)
    requires hashes.Length == entries.Length
    reads hashes, entries
    ensures |st| == hashes.Length
  {
    seq(hashes.Length, i requires 0 <= i < hashes.Length reads hashes, entries =>
      if hashes[i] == 0 then Empty else Full(hashes[i], entries[i]))
  }

  method Store(hashes: array<nat>, entries: array<Entry>, index: nat, hash: nat, entry: Entry)
    requires hashes.Length == entries.Length && index < hashes.Length && 0 < hash
    modifies hashes, entries
    ensures View(hashes, entries) == old(View(hashes, entries))[index := Full(hash, entry)]
  {
    hashes[index] := hash;
    entries[index] := entry;
  }

  method Erase(hashes: array<nat>, entries: array<Entry>, index: nat)
    requires hashes.Length == entries.Length && index < hashes.Length
    modifies hashes
    ensures View(hashes, entries) == old(View(hashes, entries))[index := Empty]
  {
    hashes[index] := 0;
  }

  lemma ViewAt(hashes: array<nat>, entries: array<Entry>, index: nat)
    requires hashes.Length == entries.Length && index < hashes.Length
    ensures View(hashes, entries)[index] == if hashes[index] == 0 then Empty else Full(hashes[index], entries[index])
  {
  }

  /** A larger copy of the arrays, the new slots empty. */
  method Enlarge(hashes: array<nat>, entries: array<Entry>, n1: nat) returns (h: array<nat>, e: array<Entry>)
    requires hashes.Length == entries.Length <= n1
    ensures fresh(h) && fresh(e) && h.Length == e.Length == n1
    ensures h[..hashes.Length] == hashes[..] && e[..hashes.Length] == entries[..]
    ensures forall i :: hashes.Length <= i < n1 ==> h[i] == 0
  {
    h, e := new nat[n1], new Entry[n1](i => Entry(0, 0));
    forall i | 0 <= i < n1 {
      h[i] := if i < hashes.Length then hashes[i] else 0;
    }
    forall i | 0 <= i < hashes.Length {
      e[i] := entries[i];
    }
  }

  /** The first n1 slots. */
  method Cut(hashes: array<nat>, entries: array<Entry>, n1: nat) returns (h: array<nat>, e: array<Entry>)
    requires hashes.Length == entries.Length >= n1
    ensures fresh(h) && fresh(e) && h.Length == e.Length == n1
    ensures h[..] == hashes[..n1] && e[..] == entries[..n1]
  {
    h, e := new nat[n1], new Entry[n1](i => Entry(0, 0));
    forall i | 0 <= i < n1 {
      h[i] := hashes[i];
    }
    forall i | 0 <= i < n1 {
      e[i] := entries[i];
    }
  }

  // ---------------------------------------------------------------- counting

  lemma MultisetUpdate<T>(s: seq<T>, i: nat, x: T)
    requires i < |s|
    ensures multiset(s[i := x]) + multiset{s[i]} == multiset(s) + multiset{x}
  {
  }

  lemma CancelOne<T>(a: multiset<T>, b: multiset<T>, x: T)
    requires a + multiset{x} == b + multiset{x}
    ensures a == b
  {
    assert a == a + multiset{x} - multiset{x};
    assert b == b + multiset{x} - multiset{x};
  }

  /** One exchange after another. */
  lemma Chain(m2: multiset<Slot>, m1: multiset<Slot>, m0: multiset<Slot>, x: Slot, y: Slot, e: Slot)
    requires m2 + multiset{y} == m1 + multiset{x} && m1 + multiset{e} == m0 + multiset{y}
    ensures m2 + multiset{e} == m0 + multiset{x}
  {
    forall z: Slot ensures (m2 + multiset{e})[z] == (m0 + multiset{x})[z] {
      assert (m2 + multiset{y})[z] == (m1 + multiset{x})[z];
      assert (m1 + multiset{e})[z] == (m0 + multiset{y})[z];
    }
  }

  /** The slots and the one in hand are together the same as before. */
  ghost predicate Conserved(st0: seq<Slot>, hand0: Slot, st: seq<Slot>, hand: Slot) {
    |st| == |st0| && multiset(st) + multiset{hand} == multiset(st0) + multiset{hand0}
  }

  lemma ConservedStart(st0: seq<Slot>, hand0: Slot)
    ensures Conserved(st0, hand0, st0, hand0)
  {
  }

  /** Exchanging the one in hand with a slot. */
  lemma Exchange(st0: seq<Slot>, hand0: Slot, st: seq<Slot>, hand: Slot, i: nat)
    requires Conserved(st0, hand0, st, hand) && i < |st|
    ensures Conserved(st0, hand0, st[i := hand], st[i])
  {
    MultisetUpdate(st, i, hand);
  }

  /** If the first n slots are all taken, at most the others are empty. */
  lemma EmptyBound(st: seq<Slot>, n: nat)
    requires n <= |st| && forall i :: 0 <= i < n ==> st[i].Full?
    ensures multiset(st)[Empty] <= |st| - n
  {
    assert st == st[..n] + st[n..];
    assert Empty !in multiset(st[..n]);
  }

  /** With few enough entries, one of the first n slots is empty. */
  lemma SomeEmpty(st: seq<Slot>, n: nat) returns (s: nat)
    requires n <= |st| && multiset(st)[Empty] > |st| - n
    ensures s < n && st[s] == Empty
  {
    if forall i :: 0 <= i < n ==> st[i].Full? {
      EmptyBound(st, n);
      assert false;
    }
    s :| 0 <= s < n && st[s] == Empty;
  }
}
