/** The hash table with quadratic probing and tombstones. */
module QuadraticHashtable {
  import opened HashSlots
  import opened HashContents
  import opened HashCapacity
  import opened Quadratic
  import opened QuadraticResize
  import opened QuadraticSearch

  /** The hash as it is stored: 0 and 1 stand for empty slots and tombstones. */
  function Sanitize(hash: nat): (h: nat)
    ensures 2 <= h && (hash >= 2 ==> h == hash)
  {
    if hash < 2 then UINT32 + hash - 2 else hash
  }

  /** A larger table starts out with the same entries. */
  lemma CellsEnlarged(hashes: seq<nat>, entries: seq<Entry>, h: seq<nat>, e: seq<Entry>, contents: map<int, int>,
                      slotHash: int -> nat)
    requires |hashes| == |entries| <= |h| == |e| && h[..|hashes|] == hashes && e[..|hashes|] == entries
    requires forall i :: |hashes| <= i < |h| ==> h[i] == 0
    requires Keeps(Cells(hashes, entries), contents, slotHash)
    ensures Keeps(Cells(h, e), contents, slotHash)
  {
    var st, st1 := Cells(hashes, entries), Cells(h, e);
    assert st1[..|st|] == st by {
      assert forall i :: 0 <= i < |st| ==> h[i] == h[..|hashes|][i] && e[i] == e[..|hashes|][i];
    }
    hide Keeps;
    Padded(st, st1, contents, slotHash);
  }

  /** Behind the new capacity nothing is left. */
  lemma CellsCut(hashes: seq<nat>, entries: seq<Entry>, n: nat, contents: map<int, int>, slotHash: int -> nat)
    requires |hashes| == |entries| && n <= |hashes|
    requires Clean(hashes, Cells(hashes, entries), n) && Keeps(Cells(hashes, entries), contents, slotHash)
    ensures Clean(hashes[..n], Cells(hashes[..n], entries[..n]), n)
    ensures Keeps(Cells(hashes[..n], entries[..n]), contents, slotHash)
  {
    var st, st1 := Cells(hashes, entries), Cells(hashes[..n], entries[..n]);
    assert st1 == st[..n];
    CleanPrefix(hashes, st, n);
    hide Keeps, Clean, Cells;
    Padded(st1, st, contents, slotHash);
  }

  lemma CleanPrefix(hashes: seq<nat>, st: seq<Slot>, n: nat)
    requires n <= |hashes| && Clean(hashes, st, n)
    ensures n <= |st| && Clean(hashes[..n], st[..n], n) && forall i :: n <= i < |st| ==> st[i] == Empty
  {
    var st1 := st[..n];
    var busy := Occupied(st)[..n];
    assert Occupied(st1) == busy && Occupied(st1)[..n] == busy;
    forall j | 0 <= j < n && busy[j] ensures Findable(st1, busy, n, j) {
      assert Findable(st, busy, n, j);
    }
    forall i | n <= i < |st| ensures st[i] == Empty {
      assert !Occupied(st)[i];
    }
  }

  method GrowStorage(hashes: array<nat>, entries: array<Entry>, n1: nat, ghost contents: map<int, int>, ghost slotHash: int -> nat)
    returns (h: array<nat>, e: array<Entry>)
    requires hashes.Length == entries.Length <= n1 && PowerOfTwo(n1) && |contents| < n1
    requires Keeps(Cells(hashes[..], entries[..]), contents, slotHash)
    ensures fresh(h) && fresh(e) && h.Length == e.Length == n1
    ensures Clean(h[..], Cells(h[..], e[..]), n1) && Keeps(Cells(h[..], e[..]), contents, slotHash)
  {
    hide *;
    h, e := Enlarge(hashes, entries, n1);
    CellsEnlarged(hashes[..], entries[..], h[..], e[..], contents, slotHash);
    ghost var st1 := Cells(h[..], e[..]);
    KeepsRoom(st1, n1, contents, slotHash);
    ResizeCommon(h, e, hashes.Length, n1);
    KeepsSame(st1, Cells(h[..], e[..]), contents, slotHash);
  }

  method ShrinkStorage(hashes: array<nat>, entries: array<Entry>, n1: nat, ghost contents: map<int, int>, ghost slotHash: int -> nat)
    returns (h: array<nat>, e: array<Entry>)
    requires hashes.Length == entries.Length >= n1 && PowerOfTwo(n1) && |contents| < n1
    requires Keeps(Cells(hashes[..], entries[..]), contents, slotHash)
    modifies hashes, entries
    ensures fresh(h) && fresh(e) && h.Length == e.Length == n1
    ensures Clean(h[..], Cells(h[..], e[..]), n1) && Keeps(Cells(h[..], e[..]), contents, slotHash)
  {
    hide *;
    ghost var st := Cells(hashes[..], entries[..]);
    KeepsRoom(st, n1, contents, slotHash);
    ResizeCommon(hashes, entries, hashes.Length, n1);
    KeepsSame(st, Cells(hashes[..], entries[..]), contents, slotHash);
    CellsCut(hashes[..], entries[..], n1, contents, slotHash);
    h, e := Cut(hashes, entries, n1);
  }

  /** All entries can be found, and tombs slots are tombstones. */
  ghost predicate Probing(hashes: seq<nat>, st: seq<Slot>, n: nat, tombs: nat) {
    |hashes| == |st| == n && Reachable(st, Occupied(st), Busy(hashes), n) && multiset(hashes)[1] == tombs
  }

  /** With few enough entries and tombstones there is an empty slot. */
  lemma SearchEnds(hashes: seq<nat>, entries: seq<Entry>, n: nat, tombs: nat, contents: map<int, int>, slotHash: int -> nat)
    requires |hashes| == |entries| && Probing(hashes, Cells(hashes, entries), n, tombs)
    requires Keeps(Cells(hashes, entries), contents, slotHash) && |contents| + tombs < n
    ensures Searchable(hashes, Cells(hashes, entries), n)
  {
    CountEmpty(hashes, entries);
    hide Reachable;
  }

  lemma CleanProbing(hashes: seq<nat>, entries: seq<Entry>, n: nat)
    requires |hashes| == |entries| == n && Clean(hashes, Cells(hashes, entries), n)
    ensures Probing(hashes, Cells(hashes, entries), n, 0)
  {
    var st := Cells(hashes, entries);
    assert Occupied(st)[..n] == Occupied(st) && Busy(hashes) == Occupied(st);
    assert 1 !in hashes;
    hide Reachable;
  }

  lemma AddedProbing(st0: seq<Slot>, hashes0: seq<nat>, hashes: seq<nat>, st: seq<Slot>, n: nat, index: nat, hash: nat,
                     reused: bool, tombs: nat)
    requires Added(st0, hashes, st, n, index, hash) && |hashes0| == n && hashes == hashes0[index := hash] && 2 <= hash
    requires hashes0[index] < 2 && (reused <==> hashes0[index] == 1) && multiset(hashes0)[1] == tombs
    ensures reused ==> tombs > 0
    ensures Probing(hashes, st, n, if reused then tombs - 1 else tombs)
  {
    MultisetUpdate(hashes0, index, hash);
    assert (multiset(hashes) + multiset{hashes0[index]})[1] == (multiset(hashes0) + multiset{hash})[1];
    hide Reachable, Conserved;
  }

  /** A removal makes the table a quarter as large, but no smaller than 8, if an eighth is more than enough, and
      otherwise clears the tombstones when they are more than half of the slots. */
  ghost predicate Trimmed(capacity: nat, numEntries: nat, numTombstones: nat, capacity1: nat, numTombstones1: nat) {
    if numEntries - 1 < capacity / 8 then capacity1 == (if capacity / 4 < 8 then 8 else capacity / 4) && numTombstones1 == 0
    else capacity1 == capacity && numTombstones1 == if numTombstones + 1 > capacity / 2 then 0 else numTombstones + 1
  }

  lemma TrimmedIs(capacity: nat, numEntries: nat, numTombstones: nat, capacity1: nat, numTombstones1: nat)
    requires numEntries - 1 < capacity / 8 ==> capacity1 == (if capacity / 4 < 8 then 8 else capacity / 4) && numTombstones1 == 0
    requires numEntries - 1 >= capacity / 8 ==>
      capacity1 == capacity && numTombstones1 == if numTombstones + 1 > capacity / 2 then 0 else numTombstones + 1
    ensures Trimmed(capacity, numEntries, numTombstones, capacity1, numTombstones1)
  {
  }

  class Hashtable {
    const threshold: nat
    ghost const hashOf: int -> nat
    var numEntries: nat
    var numTombstones: nat
    var maxEntries: nat
    var capacity: nat
    var entries: array<Entry>
    var hashes: array<nat>
    /** The map the table stands for. */
    ghost var contents: map<int, int>

    ghost function SlotHash(): int -> nat {
      (key: int) => Sanitize(hashOf(key))
    }

    lemma SlotHashIs(key: int)
      ensures SlotHash()(key) == Sanitize(hashOf(key)) >= 2
    {
    }

    /** The slots. */
    ghost function Slots(): seq<Slot>
      requires hashes.Length == entries.Length
      reads this, hashes, entries
    {
      Cells(hashes[..], entries[..])
    }

    /** Everything but the number of entries. */
    ghost predicate Sound()
      reads this, hashes, entries
    {
      5 <= threshold <= 9 && 8 <= capacity <= MAX_CAPACITY && PowerOfTwo(capacity) &&
      hashes.Length == entries.Length == capacity && maxEntries == MaxEntries(capacity, threshold) &&
      Probing(hashes[..], Slots(), capacity, numTombstones) && Keeps(Slots(), contents, SlotHash())
    }

    /** Entries and tombstones together never exceed the load factor. */
    ghost predicate Valid()
      reads this, hashes, entries
    {
      Sound() && numEntries == |contents| && numEntries + numTombstones <= maxEntries
    }

    ghost function Repr(): (r: set<object>)
      reads this
      ensures r == {this, hashes, entries}
    {
      {this, hashes, entries}
    }

    constructor (capacity: nat, threshold: nat, ghost hashOf: int -> nat)
      requires 5 <= threshold <= 9 && capacity <= MAX_CAPACITY
      ensures Valid() && contents == map[] && fresh(Repr()) && this.hashOf == hashOf
      ensures this.capacity == RoundCapacity(if capacity < 8 then 8 else capacity) && this.threshold == threshold
    {
      var c := if capacity < 8 then 8 else capacity;
      var n := RoundUp(c);
      this.threshold, this.hashOf := threshold, hashOf;
      numEntries, numTombstones := 0, 0;
      this.capacity, maxEntries := n, MaxEntries(n, threshold);
      hashes := new nat[n](i => 0);
      entries := new Entry[n](i => Entry(0, 0));
      contents := map[];
      new;
      hide *;
      EmptyTable(hashes[..], entries[..], n, SlotHash());
      SlotsIs();
      FoldSound();
    }

    lemma SlotsIs()
      requires hashes.Length == entries.Length
      ensures Slots() == Cells(hashes[..], entries[..])
    {
    }

    lemma FoldSound()
      requires 5 <= threshold <= 9 && 8 <= capacity <= MAX_CAPACITY && PowerOfTwo(capacity)
      requires hashes.Length == entries.Length == capacity && maxEntries == MaxEntries(capacity, threshold)
      requires Probing(hashes[..], Slots(), capacity, numTombstones) && Keeps(Slots(), contents, SlotHash())
      ensures Sound() && (numEntries == |contents| && numEntries + numTombstones <= maxEntries ==> Valid())
    {
    }

    lemma Parts()
      requires Sound()
      ensures 5 <= threshold <= 9 && 8 <= capacity <= MAX_CAPACITY && PowerOfTwo(capacity)
      ensures hashes.Length == entries.Length == capacity && maxEntries == MaxEntries(capacity, threshold) < capacity
      ensures Slots() == Cells(hashes[..], entries[..])
      ensures Probing(hashes[..], Slots(), capacity, numTombstones) && Keeps(Slots(), contents, SlotHash())
      ensures |contents| + numTombstones < capacity ==> Searchable(hashes[..], Slots(), capacity)
      ensures Valid() ==> numEntries == |contents| && numEntries + numTombstones <= maxEntries
    {
      MaxEntriesBounds(capacity, threshold);
      if |contents| + numTombstones < capacity {
        SearchEnds(hashes[..], entries[..], capacity, numTombstones, contents, SlotHash());
      }
    }

    lemma ValidSound()
      requires Valid()
      ensures Sound() && numEntries == |contents| && numEntries + numTombstones <= maxEntries
    {
    }

    /** The slot of the key. */
    method Find(key: int, hash: nat) returns (found: bool, index: nat)
      requires Valid() && hash == hashOf(key)
      ensures found <==> key in contents
      ensures found ==> index < capacity == entries.Length == hashes.Length && entries[index] == Entry(key, contents[key])
      ensures found ==> index < |Slots()| && Slots()[index] == SlotOf(key, contents[key], SlotHash())
    {
      hide *;
      ValidSound();
      Parts();
      var h := Sanitize(hash);
      SlotHashIs(key);
      found, index := QuadraticSearch.Lookup(hashes, entries, capacity, h, key);
      ghost var st := Slots();
      if found {
        MatchMeans(st, index, key, contents, SlotHash());
        SlotHere(hashes, entries, st, index);
        SlotParts(key, contents[key], SlotHash());
      } else {
        NoMatchMeans(st, key, contents, SlotHash());
      }
    }

    /** Finds the key exactly if it is in the map, with its value. */
    method Lookup(key: int, hash: nat) returns (found: bool, entry: Entry)
      requires Valid() && hash == hashOf(key)
      ensures found <==> key in contents
      ensures found ==> entry == Entry(key, contents[key])
    {
      hide *;
      var index;
      found, index := Find(key, hash);
      entry := if found then entries[index] else Entry(0, 0);
    }

    /** Grows the table, or only clears it of tombstones. */
    method Grow(newCapacity: nat)
      requires Sound() && capacity <= newCapacity <= MAX_CAPACITY && PowerOfTwo(newCapacity) && |contents| < newCapacity
      modifies this
      ensures Sound() && contents == old(contents) && numEntries == old(numEntries) && capacity == newCapacity
      ensures fresh(hashes) && fresh(entries) && numTombstones == 0
    {
      hide *;
      Parts();
      var h, e := GrowStorage(hashes, entries, newCapacity, contents, SlotHash());
      Install(h, e, newCapacity);
    }

    /** Shrinks the table, but not below 8 slots. */
    method Shrink(newCapacity: nat)
      requires Sound() && newCapacity < capacity && |contents| < newCapacity
      requires var c := if newCapacity < 8 then 8 else newCapacity; PowerOfTwo(c)
      modifies this, hashes, entries
      ensures Sound() && contents == old(contents) && numEntries == old(numEntries)
      ensures capacity == (if newCapacity < 8 then 8 else newCapacity) && numTombstones == 0
      ensures fresh(hashes) && fresh(entries)
    {
      hide *;
      Parts();
      var n := if newCapacity < 8 then 8 else newCapacity;
      var h, e := ShrinkStorage(hashes, entries, n, contents, SlotHash());
      Install(h, e, n);
    }

    /** The new storage is put in place; it has no tombstones. */
    method Install(h: array<nat>, e: array<Entry>, n: nat)
      requires 5 <= threshold <= 9 && 8 <= n <= MAX_CAPACITY && PowerOfTwo(n) && h.Length == e.Length == n
      requires Clean(h[..], Cells(h[..], e[..]), n) && Keeps(Cells(h[..], e[..]), contents, SlotHash())
      modifies this
      ensures hashes == h && entries == e && capacity == n && numTombstones == 0
      ensures Sound() && contents == old(contents) && numEntries == old(numEntries)
    {
      hide *;
      hashes, entries, capacity, numTombstones := h, e, n, 0;
      maxEntries := MaxEntries(capacity, threshold);
      CleanProbing(h[..], e[..], n);
      SlotsIs();
      FoldSound();
    }

    /** Adds an entry for a key that is not there. */
    method Insert(key: int, hash: nat, value: int)
      requires Valid() && key !in contents && hash == hashOf(key)
      requires numEntries + numTombstones < maxEntries || 2 * capacity <= MAX_CAPACITY
      modifies Repr()
      ensures Valid() && contents == old(contents)[key := value] && fresh(Repr() - old(Repr()))
      ensures if old(numEntries + 1 + numTombstones > maxEntries) then capacity == 2 * old(capacity) && numTombstones == 0
              else capacity == old(capacity) && numTombstones <= old(numTombstones) <= numTombstones + 1
    {
      hide *;
      ValidSound();
      Parts();
      var h := Sanitize(hash);
      SlotHashIs(key);
      numEntries := numEntries + 1;
      SlotsIs();
      StillSound();
      if numEntries + numTombstones > maxEntries {
        DoubleIsEnough(capacity, threshold);
        Grow(2 * capacity);
      }
      Parts();
      AddEntry(key, h, value);
    }

    lemma StillSound()
      requires 5 <= threshold <= 9 && 8 <= capacity <= MAX_CAPACITY && PowerOfTwo(capacity)
      requires hashes.Length == entries.Length == capacity && maxEntries == MaxEntries(capacity, threshold)
      requires Probing(hashes[..], Slots(), capacity, numTombstones) && Keeps(Slots(), contents, SlotHash())
      ensures Sound()
    {
    }

    /** A slot is made for the entry, and the entry is written to it. */
    method AddEntry(key: int, h: nat, value: int)
      requires Sound() && key !in contents && h == SlotHash()(key) >= 2
      requires numEntries == |contents| + 1 && numEntries + numTombstones <= maxEntries
      modifies this, hashes, entries
      ensures Valid() && contents == old(contents)[key := value] && hashes == old(hashes) && entries == old(entries)
      ensures capacity == old(capacity) && numTombstones <= old(numTombstones) <= numTombstones + 1
    {
      hide *;
      Parts();
      ghost var st0 := Slots();
      var reused;
      ghost var index;
      reused, index := StoreEntry(h, Entry(key, value));
      ghost var st := Slots();
      SlotsIs();
      if reused {
        numTombstones := numTombstones - 1;
      }
      SlotIs(key, value, SlotHash());
      KeepsAdded(st0, st, key, value, contents, SlotHash());
      MapGrows(contents, key, value);
      contents := contents[key := value];
      SlotsIs();
      FoldSound();
    }

    method StoreEntry(h: nat, entry: Entry) returns (reused: bool, ghost index: nat)
      requires hashes.Length == entries.Length == capacity && 2 <= h
      requires Searchable(hashes[..], Slots(), capacity) && Probing(hashes[..], Slots(), capacity, numTombstones)
      modifies hashes, entries
      ensures reused ==> numTombstones > 0
      ensures Probing(hashes[..], Slots(), capacity, if reused then numTombstones - 1 else numTombstones)
      ensures Conserved(old(Slots()), Full(h, entry), Slots(), Empty)
    {
      hide *;
      ghost var st0, hs0 := Slots(), hashes[..];
      SlotsIs();
      ProbingTombs(hs0, st0, capacity, numTombstones);
      var i;
      i, reused := DoInsert(hashes, entries, capacity, h);
      index := i;
      ghost var hs := hashes[..];
      SlotsIs();
      AddedParts(st0, hs, Slots(), capacity, index, h);
      AddedEntry(st0, hs, Slots(), capacity, index, h, entry);
      PutEntry(i, entry);
      AddedProbing(st0, hs0, hs, Slots(), capacity, index, h, reused, numTombstones);
      AddedParts(st0, hs, Slots(), capacity, index, h);
    }

    /** Only the entry is written; the hash is there already. */
    method PutEntry(index: nat, entry: Entry)
      requires hashes.Length == entries.Length && index < hashes.Length && hashes[index] >= 2
      modifies entries
      ensures hashes[..] == old(hashes[..])
      ensures Slots() == old(Slots())[index := Full(hashes[index], entry)]
    {
      CellsUpdate(hashes[..], entries[..], index, hashes[index], entry);
      assert hashes[..][index := hashes[index]] == hashes[..];
      hide Cells;
      entries[index] := entry;
      assert entries[..] == old(entries[..])[index := entry];
    }

    /** Removes the entry of the key, if there is one. */
    method Remove(key: int, hash: nat) returns (found: bool, entry: Entry)
      requires Valid() && hash == hashOf(key)
      modifies Repr()
      ensures Valid() && fresh(Repr() - old(Repr()))
      ensures found <==> key in old(contents)
      ensures if found then entry == Entry(key, old(contents)[key]) && contents == old(contents) - {key}
              else contents == old(contents)
      ensures if found then Trimmed(old(capacity), old(numEntries), old(numTombstones), capacity, numTombstones)
              else capacity == old(capacity) && numTombstones == old(numTombstones)
    {
      hide *;
      var index;
      found, index := Find(key, hash);
      entry := Entry(0, 0);
      if found {
        entry := entries[index];
        RemoveAt(index, key);
      }
    }

    /** Leaves a tombstone; shrinks a nearly empty table and clears one with too many tombstones. */
    method RemoveAt(index: nat, ghost key: int)
      requires Valid() && key in contents && index < capacity == hashes.Length == entries.Length
      requires index < |Slots()| && Slots()[index] == SlotOf(key, contents[key], SlotHash())
      modifies Repr()
      ensures Valid() && fresh(Repr() - old(Repr())) && contents == old(contents) - {key}
      ensures Trimmed(old(capacity), old(numEntries), old(numTombstones), capacity, numTombstones)
    {
      hide *;
      Bury(index, key);
      Parts();
      if numEntries < capacity / 8 {
        QuarterIsEnough(capacity, threshold, numEntries);
        Shrink(capacity / 4);
        Parts();
        SlotsIs();
        FoldSound();
      } else if numTombstones > capacity / 2 {
        Grow(capacity);
        Parts();
        SlotsIs();
        FoldSound();
      } else {
        SlotsIs();
        FoldSound();
      }
      TrimmedIs(old(capacity), old(numEntries), old(numTombstones), capacity, numTombstones);
    }

    method Bury(index: nat, ghost key: int)
      requires Valid() && key in contents && index < capacity == hashes.Length == entries.Length
      requires index < |Slots()| && Slots()[index] == SlotOf(key, contents[key], SlotHash())
      modifies this, hashes
      ensures Sound() && contents == old(contents) - {key} && hashes == old(hashes) && entries == old(entries)
      ensures numEntries == |contents| && numEntries + numTombstones <= maxEntries
      ensures capacity == old(capacity) && numEntries == old(numEntries) - 1 && numTombstones == old(numTombstones) + 1
    {
      hide *;
      ValidSound();
      Parts();
      ghost var st0, hs0 := Slots(), hashes[..];
      SlotParts(key, contents[key], SlotHash());
      SlotHere(hashes, entries, st0, index);
      KeepsRemoved(st0, index, contents, SlotHash());
      ProbingTombs(hs0, st0, capacity, numTombstones);
      Buried(hs0, st0, capacity, index);
      EraseAt(hashes, entries, index, 1);
      FoldProbing(hs0[index := 1], st0[index := Empty], capacity, numTombstones + 1);
      numEntries := numEntries - 1;
      numTombstones := numTombstones + 1;
      contents := contents - {key};
      SlotsIs();
      FoldSound();
    }

    /** Changes the capacity to the least power of two from the size asked for on that all entries fit in, but not below 8. */
    method Resize(newCapacity: nat)
      requires Valid() && 1 <= newCapacity <= MAX_CAPACITY
      modifies Repr()
      ensures Valid() && fresh(Repr() - old(Repr())) && contents == old(contents) && newCapacity <= capacity
      ensures PowerOfTwo(capacity) && numEntries <= MaxEntries(capacity, threshold)
      ensures capacity == 8 || capacity < 2 * newCapacity || MaxEntries(capacity / 2, threshold) < numEntries
      ensures numTombstones == 0
    {
      hide *;
      ValidSound();
      Parts();
      var n := SuitableCapacity(newCapacity, capacity, threshold, numEntries);
      ResizeTarget(n, threshold, numEntries);
      if n < capacity {
        Shrink(n);
      } else {
        Grow(n);
      }
      Parts();
      SlotsIs();
      FoldSound();
    }
  }

  lemma ProbingTombs(hashes: seq<nat>, st: seq<Slot>, n: nat, tombs: nat)
    requires Probing(hashes, st, n, tombs)
    ensures multiset(hashes)[1] == tombs && |hashes| == |st| == n
  {
  }

  lemma FoldProbing(hashes: seq<nat>, st: seq<Slot>, n: nat, tombs: nat)
    requires Searchable(hashes, st, n) && multiset(hashes)[1] == tombs
    ensures Probing(hashes, st, n, tombs)
  {
  }

  lemma AddedParts(st0: seq<Slot>, hashes: seq<nat>, st: seq<Slot>, n: nat, index: nat, hash: nat)
    requires Added(st0, hashes, st, n, index, hash)
    ensures |st| == |hashes| == n && index < n && st[index].Full? && st[index].hash == hash == hashes[index]
    ensures Conserved(st0, st[index], st, Empty)
  {
  }

  lemma EmptyTable(hashes: seq<nat>, entries: seq<Entry>, n: nat, slotHash: int -> nat)
    requires |hashes| == |entries| == n && PowerOfTwo(n) && forall i :: 0 <= i < n ==> hashes[i] == 0
    ensures Probing(hashes, Cells(hashes, entries), n, 0) && Keeps(Cells(hashes, entries), map[], slotHash)
  {
    AllEmpty(Cells(hashes, entries));
    assert 1 !in hashes;
  }
}
