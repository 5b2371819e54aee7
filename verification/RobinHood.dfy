/** The Robin Hood order: what every step of an insertion keeps, also while a table is being rehashed in place. */
module RobinHood {
  import opened Division
  import opened HashSlots

  /** Where an entry with this hash would best be. */
  function Home(hash: nat, n: nat): (i: nat)
    requires 0 < n
    ensures i < n
  {
    11 * hash % UINT32 % n
  }

  /** 11 times this is 1 modulo 2^32. */
  const MIX_INVERSE: nat := 0xba2e_8ba3

  /** Multiplication spreads the hashes evenly: each slot is the home of exactly one hash for each k. */
  lemma EvenHomes(i: nat, k: nat, n: nat) returns (hash: nat)
    requires i < n && k * n + i < UINT32
    ensures hash < UINT32 && Home(hash, n) == i && Home(hash, UINT32) == k * n + i
  {
    var x := k * n + i;
    hash := MIX_INVERSE * x % UINT32;
    var q := MIX_INVERSE * x / UINT32;
    assert 11 * hash == (8 * x - 11 * q) * UINT32 + x;
    DivUnique(11 * hash, UINT32, 8 * x - 11 * q, x);
    DivUnique(x, n, k, i);
    DivUnique(x, UINT32, 0, x);
  }

  /** How far the entry in slot i is from its home. */
  ghost function Dist(st: seq<Slot>, i: nat, n: nat): (d: nat)
    requires i < n <= |st|
    ensures d < n
  {
    if st[i].Full? then Off(i, Home(st[i].hash, n), n) else 0
  }

  /** A placed slot holds an entry, and one that is away from its home directly follows a placed slot
      whose entry is nearly as far from home. */
  ghost predicate Fine(st: seq<Slot>, placed: seq<bool>, n: nat, i: nat)
    requires i < n <= |st| == |placed|
  {
    placed[i] ==> (st[i].Full? &&
      (Dist(st, i, n) > 0 ==> placed[Prev(i, n)] && Dist(st, Prev(i, n), n) >= Dist(st, i, n) - 1))
  }

  /** The order among the placed slots of a table of capacity n; slots that still need rehashing do not matter. */
  ghost predicate Ordered(st: seq<Slot>, placed: seq<bool>, n: nat) {
    3 <= n <= |st| == |placed| && (forall i :: 0 <= i < n ==> Fine(st, placed, n, i)) &&
    forall i :: n <= i < |placed| ==> !placed[i]
  }

  /** No entry is farther from home than the next slot back that is not placed. */
  lemma {:induction false} DistBound(st: seq<Slot>, placed: seq<bool>, n: nat, i: nat, s: nat)
    requires Ordered(st, placed, n) && i < n && s < n && placed[i] && !placed[s]
    ensures Dist(st, i, n) < Off(i, s, n)
    decreases Off(i, s, n)
  {
    assert Fine(st, placed, n, i);
    OffStep(i, s, n);
    if Dist(st, i, n) > 0 {
      DistBound(st, placed, n, Prev(i, n), s);
    }
  }

  /** An entry in hand looks at slot index, this far from its home; the slot before holds one nearly as far away. */
  ghost predicate Carried(st: seq<Slot>, placed: seq<bool>, n: nat, index: nat, hash: nat, distance: nat) {
    n <= |st| == |placed| && index < n && distance == Off(index, Home(hash, n), n) &&
    (distance > 0 ==> placed[Prev(index, n)] && Dist(st, Prev(index, n), n) >= distance - 1)
  }

  lemma CarriedHome(st: seq<Slot>, placed: seq<bool>, n: nat, hash: nat)
    requires 0 < n <= |st| == |placed|
    ensures Carried(st, placed, n, Home(hash, n), hash, 0)
  {
  }

  /** The slot's entry is at least as far from home: go on. */
  lemma Pass(st: seq<Slot>, placed: seq<bool>, n: nat, index: nat, hash: nat, distance: nat, s: nat)
    requires Ordered(st, placed, n) && Carried(st, placed, n, index, hash, distance)
    requires placed[index] && Dist(st, index, n) >= distance && s < n && !placed[s]
    ensures Carried(st, placed, n, Next(index, n), hash, distance + 1) && distance + 1 < n
  {
    DistBound(st, placed, n, index, s);
    OffStep(index, Home(hash, n), n);
    hide Ordered, Home;
  }

  /** The entry comes to rest in a slot that was not placed. */
  lemma Rest(st: seq<Slot>, placed: seq<bool>, n: nat, index: nat, hash: nat, entry: Entry, distance: nat)
    requires Ordered(st, placed, n) && Carried(st, placed, n, index, hash, distance) && !placed[index]
    ensures Ordered(st[index := Full(hash, entry)], placed[index := true], n)
  {
    var st1, placed1 := st[index := Full(hash, entry)], placed[index := true];
    hide Home;
    forall i | 0 <= i < n ensures Fine(st1, placed1, n, i) {
      assert Fine(st, placed, n, i);
      OffStep(i, index, n);
    }
  }

  /** The entry takes the place of one nearer its home, which goes on from the next slot. */
  lemma Swap(st: seq<Slot>, placed: seq<bool>, n: nat, index: nat, hash: nat, entry: Entry, distance: nat, s: nat)
    requires Ordered(st, placed, n) && Carried(st, placed, n, index, hash, distance)
    requires placed[index] && Dist(st, index, n) < distance && s < n && !placed[s]
    ensures st[index].Full?
    ensures var st1, d := st[index := Full(hash, entry)], Dist(st, index, n);
      Ordered(st1, placed, n) && d + 1 < n && Carried(st1, placed, n, Next(index, n), st[index].hash, d + 1)
  {
    var st1 := st[index := Full(hash, entry)];
    DistBound(st, placed, n, index, s);
    assert Fine(st, placed, n, index);
    OffStep(index, Home(st[index].hash, n), n);
    hide Home;
    forall i | 0 <= i < n ensures Fine(st1, placed, n, i) {
      assert Fine(st, placed, n, i);
      OffStep(i, index, n);
    }
  }
}
