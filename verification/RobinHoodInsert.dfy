/** Robin Hood insertion: the entry in hand displaces entries that are nearer their home. */
module RobinHoodInsert {
  import opened HashSlots
  import opened RobinHood

  /** Placed slots stay placed, and their entries are at least as far from home as before. */
  ghost predicate Grew(st0: seq<Slot>, placed0: seq<bool>, st: seq<Slot>, placed: seq<bool>, n: nat) {
    n <= |st0| == |placed0| && n <= |st| == |placed| &&
    forall j :: 0 <= j < n && placed0[j] ==> placed[j] && Dist(st, j, n) >= Dist(st0, j, n)
  }

  /** Slots that are not placed are not touched. */
  ghost predicate Untouched(st0: seq<Slot>, placed0: seq<bool>, st: seq<Slot>, except: nat) {
    |st0| == |placed0| == |st| && forall j :: 0 <= j < |st| && !placed0[j] && j != except ==> st[j] == st0[j]
  }

  /** The bitmap says which slots are placed; without one, exactly the slots with entries are. */
  ghost predicate Marks(bitmap: array?<bool>, st: seq<Slot>, placed: seq<bool>, n: nat)
    reads bitmap
  {
    n <= |st| == |placed| &&
    if bitmap != null then bitmap[..] == placed else forall i :: 0 <= i < n ==> (placed[i] <==> st[i].Full?)
  }

  /** The entry in hand at slot index, some way from slot start, where the walk began. */
  ghost predicate Walking(st0: seq<Slot>, st: seq<Slot>, placed: seq<bool>, n: nat, start: nat, index: nat, hash: nat,
                          distance: nat, s: nat)
  {
    Ordered(st, placed, n) && Carried(st, placed, n, index, hash, distance) &&
    Grew(st0, placed, st, placed, n) && Untouched(st0, placed, st, |st|) &&
    start < n && s < n && !placed[s] && Off(s, index, n) + Off(index, start, n) == Off(s, start, n) &&
    (placed[Prev(start, n)] ==> st[Prev(start, n)] == st0[Prev(start, n)])
  }

  lemma WalkStart(st: seq<Slot>, placed: seq<bool>, n: nat, start: nat, hash: nat, distance: nat, s: nat)
    requires Ordered(st, placed, n) && Carried(st, placed, n, start, hash, distance) && s < n && !placed[s]
    ensures Walking(st, st, placed, n, start, start, hash, distance, s)
  {
  }

  lemma WalkOn(n: nat, start: nat, index: nat, s: nat)
    requires start < n && index < n && s < n && index != s && Off(s, index, n) + Off(index, start, n) == Off(s, start, n)
    ensures Off(s, Next(index, n), n) + Off(Next(index, n), start, n) == Off(s, start, n)
    ensures Off(s, Next(index, n), n) < Off(s, index, n)
    ensures index == Prev(start, n) ==> s == index
  {
  }

  lemma WalkPass(st0: seq<Slot>, st: seq<Slot>, placed: seq<bool>, n: nat, start: nat, index: nat, hash: nat,
                 distance: nat, s: nat)
    requires Walking(st0, st, placed, n, start, index, hash, distance, s)
    requires placed[index] && Dist(st, index, n) >= distance
    ensures Walking(st0, st, placed, n, start, Next(index, n), hash, distance + 1, s)
    ensures Off(s, Next(index, n), n) < Off(s, index, n)
  {
    Pass(st, placed, n, index, hash, distance, s);
    WalkOn(n, start, index, s);
    hide Ordered, Carried, Grew, Untouched;
  }

  lemma WalkSwap(st0: seq<Slot>, st: seq<Slot>, placed: seq<bool>, n: nat, start: nat, index: nat, hash: nat, entry: Entry,
                 distance: nat, s: nat)
    requires Walking(st0, st, placed, n, start, index, hash, distance, s)
    requires placed[index] && Dist(st, index, n) < distance
    ensures st[index].Full?
    ensures Walking(st0, st[index := Full(hash, entry)], placed, n, start, Next(index, n), st[index].hash, Dist(st, index, n) + 1, s)
    ensures Off(s, Next(index, n), n) < Off(s, index, n)
  {
    Swap(st, placed, n, index, hash, entry, distance, s);
    WalkOn(n, start, index, s);
    hide Ordered, Home;
  }

  /** One more slot, end, has been placed; the order is kept. */
  ghost predicate Settled(st0: seq<Slot>, placed: seq<bool>, st: seq<Slot>, n: nat, start: nat, end: nat) {
    end < n <= |st| == |st0| == |placed| && !placed[end] && Ordered(st, placed[end := true], n) &&
    Grew(st0, placed, st, placed[end := true], n) && Untouched(st0, placed, st, end) && start < n &&
    (placed[Prev(start, n)] ==> st[Prev(start, n)] == st0[Prev(start, n)])
  }

  lemma WalkRest(st0: seq<Slot>, st: seq<Slot>, placed: seq<bool>, n: nat, start: nat, index: nat, hash: nat, entry: Entry,
                 distance: nat, s: nat)
    requires Walking(st0, st, placed, n, start, index, hash, distance, s) && !placed[index]
    ensures Settled(st0, placed, st[index := Full(hash, entry)], n, start, index)
  {
    Rest(st, placed, n, index, hash, entry, distance);
    hide Ordered, Home;
  }

  /** The walk is shorter than the table. */
  lemma WalkLength(st0: seq<Slot>, st: seq<Slot>, placed: seq<bool>, n: nat, start: nat, i: nat, index: nat, hash: nat,
                   distance: nat, s: nat)
    requires Walking(st0, st, placed, n, start, index, hash, distance, s) && i < n && index == Wrap(start, i, n)
    requires placed[index]
    ensures i + 1 < n
  {
    WrapOff(start, i, n);
    hide Ordered, Carried, Grew, Untouched;
  }

  lemma WalkFacts(hashes: array<nat>, entries: array<Entry>, bitmap: array?<bool>, st0: seq<Slot>, st: seq<Slot>,
                  placed: seq<bool>, n: nat, start: nat, index: nat, hash: nat, distance: nat, s: nat)
    requires hashes.Length == entries.Length && View(hashes, entries) == st && Marks(bitmap, st, placed, n)
    requires Walking(st0, st, placed, n, start, index, hash, distance, s)
    ensures index < hashes.Length && index < n == |placed[..n]| && n <= |placed| == |st| && 3 <= n
    ensures st[index] == if hashes[index] == 0 then Empty else Full(hashes[index], entries[index])
    ensures bitmap != null ==> bitmap.Length == |placed| && bitmap[index] == placed[index]
    ensures bitmap == null ==> (placed[index] <==> hashes[index] != 0)
    ensures hashes[index] == 0 ==> !placed[index]
    ensures hashes[index] != 0 ==> Dist(st, index, n) == Off(index, Home(hashes[index], n), n)
  {
    assert Fine(st, placed, n, index);
  }

  lemma MarksSame(bitmap: array?<bool>, st: seq<Slot>, placed: seq<bool>, n: nat, index: nat, x: Slot)
    requires Marks(bitmap, st, placed, n) && index < n && placed[index] && x.Full?
    ensures Marks(bitmap, st[index := x], placed, n)
  {
  }

  /** Sets the bit of a slot that has been placed. */
  method Mark(bitmap: array?<bool>, index: nat, ghost st: seq<Slot>, ghost placed: seq<bool>, ghost n: nat, ghost x: Slot)
    requires Marks(bitmap, st, placed, n) && index < n && x.Full? && (bitmap != null ==> bitmap.Length == |placed|)
    modifies bitmap
    ensures Marks(bitmap, st[index := x], placed[index := true], n)
  {
    if bitmap != null {
      bitmap[index] := true;
    }
  }

  /** The entry in hand comes to rest in a slot that was not placed; what was there is handed back. */
  method PlaceIn(hashes: array<nat>, entries: array<Entry>, bitmap: array?<bool>, index: nat, hash: nat, entry: Entry,
                 ghost st: seq<Slot>, ghost placed: seq<bool>, ghost n: nat)
    returns (oldHash: nat, oldEntry: Entry)
    requires hashes.Length == entries.Length && View(hashes, entries) == st && Marks(bitmap, st, placed, n)
    requires index < n <= |placed| == |st| && 0 < hash && (bitmap != null ==> bitmap.Length == |placed|)
    modifies hashes, entries, bitmap
    ensures View(hashes, entries) == st[index := Full(hash, entry)]
    ensures Marks(bitmap, st[index := Full(hash, entry)], placed[index := true], n)
    ensures oldHash != 0 ==> st[index] == Full(oldHash, oldEntry)
    ensures oldHash == old(hashes[index])
  {
    ViewAt(hashes, entries, index);
    Mark(bitmap, index, st, placed, n, Full(hash, entry));
    oldHash, oldEntry := hashes[index], entries[index];
    hide View, Marks;
    Store(hashes, entries, index, hash, entry);
  }

  /** The entry in hand takes a slot; its entry is handed back. */
  method TakeSlot(hashes: array<nat>, entries: array<Entry>, index: nat, hash: nat, entry: Entry, ghost st: seq<Slot>)
    returns (oldHash: nat, oldEntry: Entry)
    requires hashes.Length == entries.Length && View(hashes, entries) == st && index < |st| && st[index].Full? && 0 < hash
    modifies hashes, entries
    ensures View(hashes, entries) == st[index := Full(hash, entry)] && 0 < oldHash && st[index] == Full(oldHash, oldEntry)
  {
    ViewAt(hashes, entries, index);
    oldHash, oldEntry := hashes[index], entries[index];
    hide View;
    Store(hashes, entries, index, hash, entry);
  }

  /** Puts the entry in hand where it belongs, displacing others. With a bitmap, ends as soon as the entry in hand
      has taken the slot of one that still needs rehashing; that one is then handed back. */
  method InsertRobinHood(hashes: array<nat>, entries: array<Entry>, bitmap: array?<bool>, start: nat, distance0: nat,
                         hash0: nat, entry0: Entry, n: nat, ghost placed: seq<bool>, ghost s: nat)
    returns (displaced: bool, hash: nat, entry: Entry, ghost end: nat)
    requires hashes.Length == entries.Length && 0 < hash0
    requires Ordered(View(hashes, entries), placed, n) && Marks(bitmap, View(hashes, entries), placed, n)
    requires Carried(View(hashes, entries), placed, n, start, hash0, distance0) && s < n && !placed[s]
    modifies hashes, entries, bitmap
    ensures end < n <= |placed| && !placed[end]
    ensures Settled(old(View(hashes, entries)), placed, View(hashes, entries), n, start, end)
    ensures Marks(bitmap, View(hashes, entries), placed[end := true], n)
    ensures displaced ==> bitmap != null && 0 < hash
    ensures Conserved(old(View(hashes, entries)), Full(hash0, entry0), View(hashes, entries),
                      if displaced then Full(hash, entry) else Empty)
  {
    hash, entry := hash0, entry0;
    var i, distance := 0, distance0;
    var index: nat := start;
    ghost var st0 := View(hashes, entries);
    ghost var st := st0;
    WalkStart(st, placed, n, start, hash, distance, s);
    assert start < n && Wrap(start, 0, n) == start;
    hide *;
    ConservedStart(st0, Full(hash, entry));
    while true
      invariant View(hashes, entries) == st && Marks(bitmap, st, placed, n) && 0 < hash
      invariant index < n && start < n && i < n && index == Wrap(start, i, n)
      invariant Walking(st0, st, placed, n, start, index, hash, distance, s)
      invariant Conserved(st0, Full(hash0, entry0), st, Full(hash, entry))
      decreases Off(s, index, n)
    {
      WalkFacts(hashes, entries, bitmap, st0, st, placed, n, start, index, hash, distance, s);
      Exchange(st0, Full(hash0, entry0), st, Full(hash, entry), index);
      if hashes[index] == 0 {
        end := index;
        WalkRest(st0, st, placed, n, start, index, hash, entry, distance, s);
        var _, _ := PlaceIn(hashes, entries, bitmap, index, hash, entry, st, placed, n);
        displaced := false;
        return;
      }
      var d := 0;
      if bitmap != null && !bitmap[index] {
        end := index;
        WalkRest(st0, st, placed, n, start, index, hash, entry, distance, s);
        hash, entry := PlaceIn(hashes, entries, bitmap, index, hash, entry, st, placed, n);
        displaced := true;
        return;
      }
      WalkLength(st0, st, placed, n, start, i, index, hash, distance, s);
      d := Off(index, Home(hashes[index], n), n);
      if d < distance {
        WalkSwap(st0, st, placed, n, start, index, hash, entry, distance, s);
        MarksSame(bitmap, st, placed, n, index, Full(hash, entry));
        ghost var st1 := st[index := Full(hash, entry)];
        hash, entry := TakeSlot(hashes, entries, index, hash, entry, st);
        st := st1;
        distance := d;
      } else {
        WalkPass(st0, st, placed, n, start, index, hash, distance, s);
      }
      WrapNext(start, i, n);
      i, distance := i + 1, distance + 1;
      index := Wrap(start, i, n);
    }
  }
}
