/** Rehashing in place for a new capacity: placed entries and entries still to be moved share one array. */
module RobinHoodRehash {
  import opened HashSlots
  import opened RobinHood
  import opened RobinHoodInsert

  /** Which slots hold an entry. */
  ghost function Occupied(st: seq<Slot>): (placed: seq<bool>)
    ensures |placed| == |st|
  {
    seq(|st|, i requires 0 <= i < |st| => st[i].Full?)
  }

  /** A complete table of capacity n: all entries are in Robin Hood order. */
  ghost predicate Hashed(st: seq<Slot>, n: nat) {
    Ordered(st, Occupied(st), n)
  }

  /** Everything below index has been dealt with; behind the old capacity there was nothing to deal with. */
  ghost predicate Swept(st: seq<Slot>, placed: seq<bool>, index: nat, oldCapacity: nat) {
    index <= oldCapacity <= |st| == |placed| &&
    forall j :: 0 <= j < |st| && (j < index || oldCapacity <= j) && st[j].Full? ==> placed[j]
  }

  /** The state of the pass: entries placed so far are in order, nothing was lost or duplicated, and the entry in
      hand, if there is one, is missing from the array. */
  ghost predicate Rehashing(st0: seq<Slot>, st: seq<Slot>, placed: seq<bool>, n: nat, index: nat, oldCapacity: nat, hand: Slot) {
    Ordered(st, placed, n) && Swept(st, placed, index, oldCapacity) && Conserved(st0, Empty, st, hand) &&
    multiset(st0)[Empty] > |st0| - n
  }

  lemma PassStart(st: seq<Slot>, placed: seq<bool>, n: nat, oldCapacity: nat)
    requires 3 <= n <= |st| == |placed| && multiset(st)[Empty] > |st| - n && oldCapacity <= |st|
    requires forall j :: oldCapacity <= j < |st| ==> st[j] == Empty
    requires forall i :: 0 <= i < |placed| ==> !placed[i]
    ensures Rehashing(st, st, placed, n, 0, oldCapacity, Empty)
  {
  }

  lemma PassOver(st0: seq<Slot>, st: seq<Slot>, placed: seq<bool>, n: nat, index: nat, oldCapacity: nat)
    requires Rehashing(st0, st, placed, n, index, oldCapacity, Empty) && index < oldCapacity
    requires st[index] == Empty || placed[index]
    ensures Rehashing(st0, st, placed, n, index + 1, oldCapacity, Empty)
  {
  }

  /** An entry that is at its new home stays there. */
  lemma AlreadyHome(st0: seq<Slot>, st: seq<Slot>, placed: seq<bool>, n: nat, index: nat, oldCapacity: nat)
    requires Rehashing(st0, st, placed, n, index, oldCapacity, Empty) && index < oldCapacity && !placed[index] && st[index].Full?
    requires Home(st[index].hash, n) == index
    ensures index < n && Rehashing(st0, st, placed[index := true], n, index + 1, oldCapacity, Empty)
  {
    var x := st[index];
    assert st[index := Full(x.hash, x.entry)] == st;
    Rest(st, placed, n, index, x.hash, x.entry, 0);
  }

  lemma TakeOut(st0: seq<Slot>, st: seq<Slot>, placed: seq<bool>, n: nat, index: nat, oldCapacity: nat)
    requires Rehashing(st0, st, placed, n, index, oldCapacity, Empty) && index < oldCapacity && !placed[index]
    ensures Rehashing(st0, st[index := Empty], placed, n, index + 1, oldCapacity, st[index])
  {
    Exchange(st0, Empty, st, Empty, index);
    var st1 := st[index := Empty];
    hide Home;
    forall i | 0 <= i < n ensures Fine(st1, placed, n, i) {
      assert Fine(st, placed, n, i);
    }
  }

  /** There is always a slot left for the entry in hand. */
  lemma RoomLeft(st0: seq<Slot>, st: seq<Slot>, placed: seq<bool>, n: nat, index: nat, oldCapacity: nat, hand: Slot) returns (s: nat)
    requires Rehashing(st0, st, placed, n, index, oldCapacity, hand) && hand.Full?
    ensures s < n <= |placed| == |st| && !placed[s] && Ordered(st, placed, n)
  {
    assert multiset(st)[Empty] == (multiset(st) + multiset{hand})[Empty];
    s := SomeEmpty(st, n);
    assert Fine(st, placed, n, s);
  }

  lemma PutBack(st0: seq<Slot>, st: seq<Slot>, placed: seq<bool>, n: nat, index: nat, oldCapacity: nat, hand: Slot, start: nat,
                st1: seq<Slot>, end: nat, hand1: Slot)
    requires Rehashing(st0, st, placed, n, index, oldCapacity, hand) && Settled(st, placed, st1, n, start, end)
    requires Conserved(st, hand, st1, hand1)
    ensures end < |placed| && Rehashing(st0, st1, placed[end := true], n, index, oldCapacity, hand1)
    ensures multiset(placed[end := true])[false] < multiset(placed)[false]
  {
    MultisetUpdate(placed, end, true);
    hide Ordered, Grew;
    assert multiset(placed[end := true])[false] + 1 == multiset(placed)[false];
  }

  lemma PassEnd(st0: seq<Slot>, st: seq<Slot>, placed: seq<bool>, n: nat, oldCapacity: nat)
    requires Rehashing(st0, st, placed, n, oldCapacity, oldCapacity, Empty)
    ensures Hashed(st, n) && multiset(st) == multiset(st0)
  {
    forall i | 0 <= i < |st| ensures placed[i] == st[i].Full? {
      if i < n {
        assert Fine(st, placed, n, i);
      }
    }
    assert placed == Occupied(st);
    CancelOne(multiset(st), multiset(st0), Empty);
  }

  lemma Bits(bitmap: array?<bool>, st: seq<Slot>, placed: seq<bool>, n: nat)
    requires Marks(bitmap, st, placed, n) && bitmap != null
    ensures bitmap[..] == placed && bitmap.Length == |placed|
  {
  }

  lemma FoldBits(bitmap: array?<bool>, st: seq<Slot>, placed: seq<bool>, n: nat)
    requires bitmap != null && bitmap[..] == placed && n <= |st| == |placed|
    ensures Marks(bitmap, st, placed, n)
  {
  }

  lemma HomeFirst(st: seq<Slot>, placed: seq<bool>, n: nat, hash: nat)
    requires Ordered(st, placed, n)
    ensures 0 < n <= |st| == |placed| && Carried(st, placed, n, Home(hash, n), hash, 0)
  {
    CarriedHome(st, placed, n, hash);
  }

  /** Finds a place for the entry in hand, and for every entry that is displaced on the way and needs rehashing too. */
  method PlaceEntry(hashes: array<nat>, entries: array<Entry>, bitmap: array<bool>, hash0: nat, entry0: Entry, n: nat,
                    ghost st0: seq<Slot>, ghost index: nat, ghost oldCapacity: nat)
    requires hashes.Length == entries.Length == bitmap.Length && 0 < hash0
    requires Rehashing(st0, View(hashes, entries), bitmap[..], n, index, oldCapacity, Full(hash0, entry0))
    modifies hashes, entries, bitmap
    ensures Rehashing(st0, View(hashes, entries), bitmap[..], n, index, oldCapacity, Empty)
  {
    hide *;
    var hash, entry := hash0, entry0;
    ghost var st, placed := View(hashes, entries), bitmap[..];
    while true
      invariant View(hashes, entries) == st && bitmap[..] == placed && 0 < hash
      invariant Rehashing(st0, st, placed, n, index, oldCapacity, Full(hash, entry))
      decreases multiset(placed)[false]
    {
      ghost var s := RoomLeft(st0, st, placed, n, index, oldCapacity, Full(hash, entry));
      HomeFirst(st, placed, n, hash);
      FoldBits(bitmap, st, placed, n);
      var start := Home(hash, n);
      ghost var hand := Full(hash, entry);
      var needRehash;
      ghost var end;
      needRehash, hash, entry, end := InsertRobinHood(hashes, entries, bitmap, start, 0, hash, entry, n, placed, s);
      ghost var st1 := View(hashes, entries);
      PutBack(st0, st, placed, n, index, oldCapacity, hand, start, st1, end, if needRehash then Full(hash, entry) else Empty);
      Bits(bitmap, st1, placed[end := true], n);
      st, placed := st1, placed[end := true];
      if !needRehash {
        return;
      }
    }
  }

  lemma SlotHere(hashes: array<nat>, entries: array<Entry>, bitmap: array<bool>, index: nat, st: seq<Slot>, placed: seq<bool>)
    requires hashes.Length == entries.Length == bitmap.Length && index < hashes.Length
    requires View(hashes, entries) == st && bitmap[..] == placed
    ensures index < |st| == |placed| && placed[index] == bitmap[index]
    ensures st[index] == if hashes[index] == 0 then Empty else Full(hashes[index], entries[index])
  {
  }

  /** The pass over the old slots, in the same array. */
  method RehashAll(hashes: array<nat>, entries: array<Entry>, oldCapacity: nat, n: nat)
    requires hashes.Length == entries.Length && oldCapacity <= hashes.Length && 3 <= n <= hashes.Length
    requires multiset(View(hashes, entries))[Empty] > hashes.Length - n
    requires forall j :: oldCapacity <= j < hashes.Length ==> View(hashes, entries)[j] == Empty
    modifies hashes, entries
    ensures Hashed(View(hashes, entries), n)
    ensures multiset(View(hashes, entries)) == multiset(old(View(hashes, entries)))
  {
    hide View;
    var bitmap := new bool[hashes.Length](i => false);
    ghost var st0 := View(hashes, entries);
    PassStart(st0, bitmap[..], n, oldCapacity);
    hide *;
    for index := 0 to oldCapacity
      invariant Rehashing(st0, View(hashes, entries), bitmap[..], n, index, oldCapacity, Empty)
    {
      ghost var st, placed := View(hashes, entries), bitmap[..];
      SlotHere(hashes, entries, bitmap, index, st, placed);
      if hashes[index] < 1 {
        Erase(hashes, entries, index);
        PassOver(st0, st, placed, n, index, oldCapacity);
        assert st[index := Empty] == st;
        continue;
      }
      if bitmap[index] {
        PassOver(st0, st, placed, n, index, oldCapacity);
        continue;
      }
      var hash := hashes[index];
      if Home(hash, n) == index {
        AlreadyHome(st0, st, placed, n, index, oldCapacity);
        bitmap[index] := true;
        assert bitmap[..] == placed[index := true];
        continue;
      }
      var entry := entries[index];
      TakeOut(st0, st, placed, n, index, oldCapacity);
      Erase(hashes, entries, index);
      PlaceEntry(hashes, entries, bitmap, hash, entry, n, st0, index + 1, oldCapacity);
    }
    PassEnd(st0, View(hashes, entries), bitmap[..], n, oldCapacity);
  }
}
