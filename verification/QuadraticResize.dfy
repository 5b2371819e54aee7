/** Rehashing a quadratic table in place. */
module QuadraticResize {
  import opened HashSlots
  import opened HashCapacity
  import opened Triangular
  import opened Quadratic

  ghost function Occupied(st: seq<Slot>): (who: seq<bool>)
    ensures |who| == |st|
  {
    seq(|st|, i requires 0 <= i < |st| => st[i].Full?)
  }

  /** Entries that have been placed can be found through placed slots only. */
  ghost predicate PlacedWell(st: seq<Slot>, placed: seq<bool>, n: nat) {
    n <= |placed| == |st| && Reachable(st, placed, placed[..n], n)
  }

  lemma PlaceOne(st: seq<Slot>, placed: seq<bool>, n: nat, k: nat, hash: nat, entry: Entry)
    requires 0 < n && PlacedWell(st, placed, n) && k < n && Probed(placed[..n], n, Home(hash, n), k)
    requires !placed[Probe(Home(hash, n), k, n)]
    ensures var i := Probe(Home(hash, n), k, n); PlacedWell(st[i := Full(hash, entry)], placed[i := true], n)
  {
    var i := Probe(Home(hash, n), k, n);
    Rest(st, placed, placed[..n], n, k, hash, entry);
    assert placed[i := true][..n] == placed[..n][i := true];
    hide Reachable;
  }

  lemma FreeIsUnplaced(st: seq<Slot>, placed: seq<bool>, n: nat, i: nat)
    requires PlacedWell(st, placed, n) && i < |st| && st[i] == Empty
    ensures !placed[i]
  {
    if i < n {
      assert !Findable(st, placed[..n], n, i);
    }
  }

  lemma PlacedFacts(st: seq<Slot>, placed: seq<bool>, n: nat)
    requires PlacedWell(st, placed, n)
    ensures n <= |placed| == |st| && PowerOfTwo(n) && 0 < n == |placed[..n]|
  {
  }

  lemma PlaceStart(placed: seq<bool>, n: nat, home: nat)
    requires home < n <= |placed|
    ensures Probed(placed[..n], n, home, 0) && Probe(home, 0, n) == home
  {
  }

  lemma PlaceOn(placed: seq<bool>, n: nat, home: nat, k: nat, s: nat)
    requires PowerOfTwo(n) && home < n <= |placed| && k < n && Probed(placed[..n], n, home, k)
    requires s < n && !placed[s] && placed[Probe(home, k, n)]
    ensures k + 1 < n && Probed(placed[..n], n, home, k + 1) && Probe(home, k + 1, n) == Mod(Probe(home, k, n) + (k + 1), n)
    ensures k < Step(home, s, n) && k + 1 <= Step(home, s, n) < n
  {
    ProbedNext(placed[..n], n, home, k);
    ProbedBound(placed[..n], n, home, k + 1, s);
  }

  lemma PlaceAt(hashes: array<nat>, entries: array<Entry>, st: seq<Slot>, i: nat)
    requires hashes.Length == entries.Length && Cells(hashes[..], entries[..]) == st && i < |st|
    ensures st[i] == if hashes[i] < 2 then Empty else Full(hashes[i], entries[i])
  {
  }

  /** The entry in hand takes slot i and its bit is set; what was there is handed back. */
  method PlaceIn(hashes: array<nat>, entries: array<Entry>, bitmap: array<bool>, i: nat, hash: nat, entry: Entry,
                 ghost st: seq<Slot>, ghost placed: seq<bool>)
    returns (oldHash: nat, oldEntry: Entry)
    requires hashes.Length == entries.Length == bitmap.Length && i < hashes.Length && 2 <= hash
    requires Cells(hashes[..], entries[..]) == st && bitmap[..] == placed
    modifies hashes, entries, bitmap
    ensures Cells(hashes[..], entries[..]) == st[i := Full(hash, entry)] && bitmap[..] == placed[i := true]
    ensures hashes[..] == old(hashes[..])[i := hash]
    ensures oldHash == old(hashes[i]) && (2 <= oldHash ==> st[i] == Full(oldHash, oldEntry))
  {
    PlaceAt(hashes, entries, st, i);
    CellsUpdate(hashes[..], entries[..], i, hash, entry);
    hide Cells;
    oldHash, oldEntry := hashes[i], entries[i];
    hashes[i] := hash;
    entries[i] := entry;
    bitmap[i] := true;
    assert hashes[..] == old(hashes[..])[i := hash] && entries[..] == old(entries[..])[i := entry];
  }

  /** Puts the entry in hand into the first slot on its way that is empty or still needs rehashing; the entry of the
      latter is handed back. */
  method InsertDuringResize(hashes: array<nat>, entries: array<Entry>, bitmap: array<bool>, hash0: nat, entry0: Entry,
                            n: nat, ghost s: nat)
    returns (needRehash: bool, hash: nat, entry: Entry, ghost end: nat)
    requires hashes.Length == entries.Length == bitmap.Length && 2 <= hash0
    requires PlacedWell(Cells(hashes[..], entries[..]), bitmap[..], n) && s < n <= bitmap.Length && !bitmap[s]
    modifies hashes, entries, bitmap
    ensures end < n && end < |old(bitmap[..])| && !old(bitmap[..])[end] && bitmap[..] == old(bitmap[..])[end := true]
    ensures PlacedWell(Cells(hashes[..], entries[..]), bitmap[..], n)
    ensures hashes[..] == old(hashes[..])[end := hash0]
    ensures Cells(hashes[..], entries[..]) == old(Cells(hashes[..], entries[..]))[end := Full(hash0, entry0)]
    ensures needRehash ==> 2 <= hash
    ensures old(Cells(hashes[..], entries[..]))[end] == if needRehash then Full(hash, entry) else Empty
  {
    hide *;
    ghost var hs, st, placed := hashes[..], Cells(hashes[..], entries[..]), bitmap[..];
    PlacedFacts(st, placed, n);
    ghost var home := Home(hash0, n);
    hash, entry := hash0, entry0;
    var index, increment := Home(hash, n), 0;
    PlaceStart(placed, n, home);
    while true
      invariant hashes[..] == hs && Cells(hashes[..], entries[..]) == st && bitmap[..] == placed
      invariant home < n && increment < n && index == Probe(home, increment, n) && Probed(placed[..n], n, home, increment)
      decreases n - increment
    {
      PlaceAt(hashes, entries, st, index);
      if hashes[index] < 2 {
        FreeIsUnplaced(st, placed, n, index);
        PlaceOne(st, placed, n, increment, hash, entry);
        end := index;
        var _, _ := PlaceIn(hashes, entries, bitmap, index, hash, entry, st, placed);
        needRehash := false;
        return;
      }
      if !bitmap[index] {
        PlaceOne(st, placed, n, increment, hash, entry);
        end := index;
        hash, entry := PlaceIn(hashes, entries, bitmap, index, hash, entry, st, placed);
        needRehash := true;
        return;
      }
      PlaceOn(placed, n, home, increment, s);
      increment := increment + 1;
      index := Mod(index + increment, n);
    }
  }

  // ---------------------------------------------------------------- the pass over all old slots

  /** Below index, and behind the old capacity, there are no tombstones, and entries have been placed. */
  ghost predicate Swept(hashes: seq<nat>, placed: seq<bool>, index: nat, oldCapacity: nat) {
    index <= oldCapacity <= |hashes| == |placed| &&
    forall j :: 0 <= j < |hashes| && (j < index || oldCapacity <= j) ==> hashes[j] == 0 || (2 <= hashes[j] && placed[j])
  }

  ghost predicate Rehashing(st0: seq<Slot>, hashes: seq<nat>, st: seq<Slot>, placed: seq<bool>, n: nat, index: nat,
                            oldCapacity: nat, hand: Slot)
  {
    PlacedWell(st, placed, n) && Swept(hashes, placed, index, oldCapacity) && Conserved(st0, Empty, st, hand) &&
    multiset(st0)[Empty] > |st0| - n
  }

  lemma PassStart(hashes: seq<nat>, entries: seq<Entry>, placed: seq<bool>, n: nat, oldCapacity: nat)
    requires |hashes| == |entries| == |placed| && n <= |hashes| && oldCapacity <= |hashes| && PowerOfTwo(n)
    requires multiset(Cells(hashes, entries))[Empty] > |hashes| - n
    requires forall i :: 0 <= i < |placed| ==> !placed[i]
    requires forall j :: oldCapacity <= j < |hashes| ==> hashes[j] == 0
    ensures var st := Cells(hashes, entries); Rehashing(st, hashes, st, placed, n, 0, oldCapacity, Empty)
  {
  }

  /** A slot without an entry is emptied; a tombstone becomes an empty slot. */
  lemma PassEmpty(st0: seq<Slot>, hashes: seq<nat>, st: seq<Slot>, placed: seq<bool>, n: nat, index: nat, oldCapacity: nat)
    requires Rehashing(st0, hashes, st, placed, n, index, oldCapacity, Empty) && index < oldCapacity
    ensures Rehashing(st0, hashes[index := 0], st, placed, n, index + 1, oldCapacity, Empty)
  {
    hide PlacedWell, Conserved;
  }

  lemma PassPlaced(st0: seq<Slot>, hashes: seq<nat>, st: seq<Slot>, placed: seq<bool>, n: nat, index: nat, oldCapacity: nat)
    requires Rehashing(st0, hashes, st, placed, n, index, oldCapacity, Empty) && index < oldCapacity
    requires placed[index] && 2 <= hashes[index]
    ensures Rehashing(st0, hashes, st, placed, n, index + 1, oldCapacity, Empty)
  {
    hide PlacedWell, Conserved;
  }

  lemma AlreadyHome(st0: seq<Slot>, hashes: seq<nat>, st: seq<Slot>, placed: seq<bool>, n: nat, index: nat, oldCapacity: nat)
    requires Rehashing(st0, hashes, st, placed, n, index, oldCapacity, Empty) && index < oldCapacity
    requires !placed[index] && st[index].Full? && 2 <= hashes[index] && 0 < n && Home(st[index].hash, n) == index
    ensures Rehashing(st0, hashes, st, placed[index := true], n, index + 1, oldCapacity, Empty)
  {
    RestHome(st, placed, placed[..n], n, index);
    assert placed[index := true][..n] == placed[..n][index := true];
    hide Reachable, Home, Conserved;
  }

  lemma TakeOut(st0: seq<Slot>, hashes: seq<nat>, st: seq<Slot>, placed: seq<bool>, n: nat, index: nat, oldCapacity: nat)
    requires Rehashing(st0, hashes, st, placed, n, index, oldCapacity, Empty) && index < oldCapacity && !placed[index]
    ensures Rehashing(st0, hashes[index := 0], st[index := Empty], placed, n, index + 1, oldCapacity, st[index])
  {
    Exchange(st0, Empty, st, Empty, index);
    Withdraw(st, placed, placed[..n], n, index);
    assert placed[index := false] == placed;
    hide Reachable, Conserved;
  }

  lemma RoomLeft(st0: seq<Slot>, hashes: seq<nat>, st: seq<Slot>, placed: seq<bool>, n: nat, index: nat, oldCapacity: nat,
                 hand: Slot)
    returns (s: nat)
    requires Rehashing(st0, hashes, st, placed, n, index, oldCapacity, hand) && hand.Full?
    ensures s < n <= |placed| == |st| && !placed[s] && PlacedWell(st, placed, n)
  {
    assert multiset(st)[Empty] == (multiset(st) + multiset{hand})[Empty];
    s := SomeEmpty(st, n);
    FreeIsUnplaced(st, placed, n, s);
  }

  lemma PutBack(st0: seq<Slot>, hashes: seq<nat>, st: seq<Slot>, placed: seq<bool>, n: nat, index: nat, oldCapacity: nat,
                hand: Slot, end: nat)
    requires Rehashing(st0, hashes, st, placed, n, index, oldCapacity, hand) && hand.Full? && 2 <= hand.hash
    requires end < n <= |placed| && !placed[end] && end < |st| && PlacedWell(st[end := hand], placed[end := true], n)
    ensures end < |hashes|
    ensures Rehashing(st0, hashes[end := hand.hash], st[end := hand], placed[end := true], n, index, oldCapacity, st[end])
    ensures multiset(placed[end := true])[false] < multiset(placed)[false]
  {
    Exchange(st0, Empty, st, hand, end);
    MultisetUpdate(placed, end, true);
    hide PlacedWell, Conserved;
    assert multiset(placed[end := true])[false] + 1 == multiset(placed)[false];
  }

  /** A complete table without tombstones. */
  ghost predicate Clean(hashes: seq<nat>, st: seq<Slot>, n: nat) {
    PlacedWell(st, Occupied(st), n) && |hashes| == |st| && forall j :: 0 <= j < |hashes| ==> hashes[j] == 0 || 2 <= hashes[j]
  }

  lemma PassEnd(st0: seq<Slot>, hashes: seq<nat>, entries: seq<Entry>, placed: seq<bool>, n: nat, oldCapacity: nat)
    requires |hashes| == |entries|
    requires Rehashing(st0, hashes, Cells(hashes, entries), placed, n, oldCapacity, oldCapacity, Empty)
    ensures Clean(hashes, Cells(hashes, entries), n) && multiset(Cells(hashes, entries)) == multiset(st0)
  {
    var st := Cells(hashes, entries);
    forall i | 0 <= i < |st| ensures placed[i] == st[i].Full? {
      if st[i] == Empty {
        FreeIsUnplaced(st, placed, n, i);
      }
    }
    assert placed == Occupied(st);
    CancelOne(multiset(st), multiset(st0), Empty);
    hide PlacedWell;
  }

  /** Finds a place for the entry in hand, and for every entry displaced on the way. */
  method PlaceEntry(hashes: array<nat>, entries: array<Entry>, bitmap: array<bool>, hash0: nat, entry0: Entry, n: nat,
                    ghost st0: seq<Slot>, ghost index: nat, ghost oldCapacity: nat)
    requires hashes.Length == entries.Length == bitmap.Length && 2 <= hash0
    requires Rehashing(st0, hashes[..], Cells(hashes[..], entries[..]), bitmap[..], n, index, oldCapacity, Full(hash0, entry0))
    modifies hashes, entries, bitmap
    ensures Rehashing(st0, hashes[..], Cells(hashes[..], entries[..]), bitmap[..], n, index, oldCapacity, Empty)
  {
    hide *;
    var hash, entry := hash0, entry0;
    while true
      invariant 2 <= hash
      invariant Rehashing(st0, hashes[..], Cells(hashes[..], entries[..]), bitmap[..], n, index, oldCapacity, Full(hash, entry))
      decreases multiset(bitmap[..])[false]
    {
      ghost var hs, st, placed := hashes[..], Cells(hashes[..], entries[..]), bitmap[..];
      ghost var hand := Full(hash, entry);
      ghost var s := RoomLeft(st0, hs, st, placed, n, index, oldCapacity, hand);
      var needRehash;
      ghost var end;
      needRehash, hash, entry, end := InsertDuringResize(hashes, entries, bitmap, hash, entry, n, s);
      PutBack(st0, hs, st, placed, n, index, oldCapacity, hand, end);
      if !needRehash {
        return;
      }
    }
  }

  method EraseAt(hashes: array<nat>, entries: array<Entry>, i: nat, hash: nat)
    requires hashes.Length == entries.Length && i < hashes.Length && hash < 2
    modifies hashes
    ensures hashes[..] == old(hashes[..])[i := hash]
    ensures Cells(hashes[..], entries[..]) == old(Cells(hashes[..], entries[..]))[i := Empty]
  {
    CellsErase(hashes[..], entries[..], i, hash);
    hide Cells;
    hashes[i] := hash;
    assert hashes[..] == old(hashes[..])[i := hash];
  }

  /** The pass over the old slots, in the same array. */
  method ResizeCommon(hashes: array<nat>, entries: array<Entry>, oldCapacity: nat, n: nat)
    requires hashes.Length == entries.Length && oldCapacity <= hashes.Length && n <= hashes.Length && PowerOfTwo(n)
    requires multiset(Cells(hashes[..], entries[..]))[Empty] > hashes.Length - n
    requires forall j :: oldCapacity <= j < hashes.Length ==> hashes[j] == 0
    modifies hashes, entries
    ensures Clean(hashes[..], Cells(hashes[..], entries[..]), n)
    ensures multiset(Cells(hashes[..], entries[..])) == multiset(old(Cells(hashes[..], entries[..])))
  {
    var bitmap := new bool[hashes.Length](i => false);
    hide *;
    ghost var st0 := Cells(hashes[..], entries[..]);
    PassStart(hashes[..], entries[..], bitmap[..], n, oldCapacity);
    for index := 0 to oldCapacity
      invariant Rehashing(st0, hashes[..], Cells(hashes[..], entries[..]), bitmap[..], n, index, oldCapacity, Empty)
    {
      ghost var hs, st, placed := hashes[..], Cells(hashes[..], entries[..]), bitmap[..];
      PlaceAt(hashes, entries, st, index);
      PassFacts(st0, hs, st, placed, n, index, oldCapacity);
      if hashes[index] < 2 {
        PassEmpty(st0, hs, st, placed, n, index, oldCapacity);
        EraseAt(hashes, entries, index, 0);
        assert st[index := Empty] == st;
        continue;
      }
      if bitmap[index] {
        PassPlaced(st0, hs, st, placed, n, index, oldCapacity);
        continue;
      }
      var hash := hashes[index];
      if Home(hash, n) == index {
        AlreadyHome(st0, hs, st, placed, n, index, oldCapacity);
        bitmap[index] := true;
        assert bitmap[..] == placed[index := true];
        continue;
      }
      var entry := entries[index];
      TakeOut(st0, hs, st, placed, n, index, oldCapacity);
      EraseAt(hashes, entries, index, 0);
      PlaceEntry(hashes, entries, bitmap, hash, entry, n, st0, index + 1, oldCapacity);
    }
    PassEnd(st0, hashes[..], entries[..], bitmap[..], n, oldCapacity);
  }

  lemma PassFacts(st0: seq<Slot>, hashes: seq<nat>, st: seq<Slot>, placed: seq<bool>, n: nat, index: nat, oldCapacity: nat)
    requires Rehashing(st0, hashes, st, placed, n, index, oldCapacity, Empty)
    ensures index <= oldCapacity <= |hashes| == |placed| && 0 < n
  {
  }
}
