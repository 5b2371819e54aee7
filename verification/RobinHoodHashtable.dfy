/** The Robin Hood hash table object. */
module RobinHoodHashtable {
  import opened HashSlots
  import opened HashContents
  import opened HashCapacity
  import opened RobinHoodRehash
  import opened RobinHoodSearch
  import opened RobinHoodTable

  /** The hash as it is stored: 0 stands for an empty slot, so it is replaced by the greatest hash. */
  function Sanitize(hash: nat): (h: nat)
    ensures h != 0 && (hash != 0 ==> h == hash)
  {
    if hash < 1 then UINT32 - 1 else hash
  }

  class Hashtable {
    const threshold: nat
    ghost const hashOf: int -> nat
    var numEntries: nat
    var maxEntries: nat
    var capacity: nat
    var entries: array<Entry>
    var hashes: array<nat>
    /** The map the table stands for. */
    ghost var contents: map<int, int>

    /** The hash stored for each key. */
    ghost function SlotHash(): int -> nat {
      (key: int) => Sanitize(hashOf(key))
    }

    lemma SlotHashIs(key: int)
      ensures SlotHash()(key) == Sanitize(hashOf(key)) != 0
    {
    }

    /** Everything but the number of entries. */
    ghost predicate Sound()
      reads this, hashes, entries
    {
      5 <= threshold <= 9 && 8 <= capacity <= MAX_CAPACITY && PowerOfTwo(capacity) &&
      hashes.Length == entries.Length == capacity && maxEntries == MaxEntries(capacity, threshold) &&
      Hashed(View(hashes, entries), capacity) && Keeps(View(hashes, entries), contents, SlotHash())
    }

    ghost predicate Valid()
      reads this, hashes, entries
    {
      Sound() && numEntries == |contents| <= maxEntries
    }

    ghost function Repr(): (r: set<object>)
      reads this
      ensures r == {this, hashes, entries}
    {
      {this, hashes, entries}
    }

    constructor (capacity: nat, threshold: nat, ghost hashOf: int -> nat)
      requires 5 <= threshold <= 9 && capacity <= MAX_CAPACITY
      ensures Valid() && contents == map[] && fresh(Repr()) && this.hashOf == hashOf
      ensures this.capacity == RoundCapacity(if capacity < 8 then 8 else capacity) && this.threshold == threshold
    {
      var c := if capacity < 8 then 8 else capacity;
      var n := RoundUp(c);
      this.threshold, this.hashOf := threshold, hashOf;
      numEntries := 0;
      this.capacity, maxEntries := n, MaxEntries(n, threshold);
      hashes := new nat[n](i => 0);
      entries := new Entry[n](i => Entry(0, 0));
      contents := map[];
      new;
      hide *;
      EmptyTable(hashes, entries, n, SlotHash());
      FoldSound();
    }

    lemma Parts()
      requires Sound()
      ensures 5 <= threshold <= 9 && 8 <= capacity <= MAX_CAPACITY && PowerOfTwo(capacity)
      ensures hashes.Length == entries.Length == capacity && maxEntries == MaxEntries(capacity, threshold) < capacity
      ensures Hashed(View(hashes, entries), capacity) && Keeps(View(hashes, entries), contents, SlotHash())
      ensures Valid() ==> numEntries == |contents| <= maxEntries
      ensures |contents| < capacity ==> multiset(View(hashes, entries))[Empty] == capacity - |contents|
    {
      MaxEntriesBounds(capacity, threshold);
    }

    lemma ValidSound()
      requires Valid()
      ensures Sound() && numEntries == |contents| <= maxEntries
    {
    }

    /** Finds the key exactly if it is in the map, with its value. */
    method Lookup(key: int, hash: nat) returns (found: bool, entry: Entry)
      requires Valid() && hash == hashOf(key)
      ensures found <==> key in contents
      ensures found ==> entry == Entry(key, contents[key])
    {
      hide *;
      ValidSound();
      Parts();
      var index;
      found, index := Find(key, hash);
      entry := if found then entries[index] else Entry(0, 0);
    }

    /** The slot of the key. */
    method Find(key: int, hash: nat) returns (found: bool, index: nat)
      requires Valid() && hash == hashOf(key)
      ensures found <==> key in contents
      ensures found ==> index < capacity == entries.Length == hashes.Length && entries[index] == Entry(key, contents[key])
      ensures found ==> View(hashes, entries)[index] == SlotOf(key, contents[key], SlotHash())
    {
      hide *;
      ValidSound();
      Parts();
      var h := Sanitize(hash);
      SlotHashIs(key);
      found, index := RobinHoodSearch.Lookup(hashes, entries, capacity, h, key);
      ghost var st := View(hashes, entries);
      if found {
        MatchMeans(st, index, key, contents, SlotHash());
        ViewAt(hashes, entries, index);
        SlotParts(key, contents[key], SlotHash());
      } else {
        NoMatchMeans(st, key, contents, SlotHash());
      }
    }

    /** Grows the table; one more entry than there are will fit in. */
    method Grow(newCapacity: nat)
      requires Sound() && capacity <= newCapacity <= MAX_CAPACITY && PowerOfTwo(newCapacity) && |contents| < newCapacity
      modifies this
      ensures Sound() && contents == old(contents) && numEntries == old(numEntries) && capacity == newCapacity
      ensures fresh(hashes) && fresh(entries)
    {
      hide *;
      Parts();
      var h, e := GrowStorage(hashes, entries, newCapacity, contents, SlotHash());
      hashes, entries, capacity := h, e, newCapacity;
      maxEntries := MaxEntries(capacity, threshold);
      FoldSound();
    }

    /** Shrinks the table, but not below 8 slots. Its slots need not be in order. */
    method Shrink(newCapacity: nat)
      requires 5 <= threshold <= 9 && 8 <= capacity <= MAX_CAPACITY && hashes.Length == entries.Length == capacity
      requires newCapacity < capacity && |contents| < newCapacity
      requires var c := if newCapacity < 8 then 8 else newCapacity; PowerOfTwo(c)
      requires Keeps(View(hashes, entries), contents, SlotHash())
      modifies this, hashes, entries
      ensures Sound() && contents == old(contents) && numEntries == old(numEntries)
      ensures capacity == if newCapacity < 8 then 8 else newCapacity
      ensures fresh(hashes) && fresh(entries)
    {
      hide *;
      var n := if newCapacity < 8 then 8 else newCapacity;
      var h, e := ShrinkStorage(hashes, entries, n, contents, SlotHash());
      hashes, entries, capacity := h, e, n;
      maxEntries := MaxEntries(capacity, threshold);
      FoldSound();
    }

    /** Adds an entry for a key that is not there. */
    method Insert(key: int, hash: nat, value: int)
      requires Valid() && key !in contents && hash == hashOf(key)
      requires numEntries < maxEntries || 2 * capacity <= MAX_CAPACITY
      modifies Repr()
      ensures Valid() && contents == old(contents)[key := value] && fresh(Repr() - old(Repr()))
      ensures capacity == old(if numEntries + 1 > maxEntries then 2 * capacity else capacity)
    {
      hide *;
      ValidSound();
      Parts();
      var h := Sanitize(hash);
      SlotHashIs(key);
      numEntries := numEntries + 1;
      StillSound();
      if numEntries > maxEntries {
        DoubleIsEnough(capacity, threshold);
        Grow(2 * capacity);
      }
      Parts();
      AddEntry(key, h, value);
    }

    /** A slot is made for the entry, and the entry is written to it. */
    method AddEntry(key: int, h: nat, value: int)
      requires Sound() && key !in contents && h == SlotHash()(key) != 0 && numEntries == |contents| + 1 <= maxEntries
      modifies this, hashes, entries
      ensures Valid() && contents == old(contents)[key := value] && hashes == old(hashes) && entries == old(entries)
      ensures capacity == old(capacity)
    {
      hide *;
      Parts();
      ghost var st0 := View(hashes, entries);
      var index := DoInsert(hashes, entries, capacity, h);
      AddedParts(st0, View(hashes, entries), capacity, index, h);
      ViewAt(hashes, entries, index);
      AddedEntry(st0, View(hashes, entries), capacity, index, h, Entry(key, value));
      PutEntry(index, Entry(key, value));
      ghost var st := View(hashes, entries);
      AddedParts(st0, st, capacity, index, h);
      SlotIs(key, value, SlotHash());
      KeepsAdded(st0, st, key, value, contents, SlotHash());
      MapGrows(contents, key, value);
      contents := contents[key := value];
      FoldSound();
    }

    /** Removes the entry of the key, if there is one. */
    method Remove(key: int, hash: nat) returns (found: bool, entry: Entry)
      requires Valid() && hash == hashOf(key)
      modifies Repr()
      ensures Valid() && fresh(Repr() - old(Repr()))
      ensures found <==> key in old(contents)
      ensures if found then entry == Entry(key, old(contents)[key]) && contents == old(contents) - {key}
              else contents == old(contents)
      ensures capacity == if found && old(numEntries) - 1 < old(capacity) / 8
        then (if old(capacity) / 4 < 8 then 8 else old(capacity) / 4) else old(capacity)
    {
      hide *;
      var index;
      found, index := Find(key, hash);
      entry := Entry(0, 0);
      if found {
        entry := entries[index];
        RemoveAt(index, key);
      }
    }

    /** Empties a slot that holds the entry of the key. */
    method RemoveAt(index: nat, ghost key: int)
      requires Valid() && key in contents && index < capacity == hashes.Length == entries.Length
      requires View(hashes, entries)[index] == SlotOf(key, contents[key], SlotHash())
      modifies Repr()
      ensures Valid() && fresh(Repr() - old(Repr())) && contents == old(contents) - {key}
      ensures capacity == if old(numEntries) - 1 < old(capacity) / 8
        then (if old(capacity) / 4 < 8 then 8 else old(capacity) / 4) else old(capacity)
    {
      hide *;
      ValidSound();
      Parts();
      ghost var st0 := View(hashes, entries);
      SlotParts(key, contents[key], SlotHash());
      KeepsRemoved(st0, index, contents, SlotHash());
      HoleMade(st0, capacity, index);
      Erase(hashes, entries, index);
      numEntries := numEntries - 1;
      contents := contents - {key};
      if numEntries < capacity / 8 {
        QuarterIsEnough(capacity, threshold, numEntries);
        Shrink(capacity / 4);
        ShrunkBound();
        Parts();
        FoldSound();
      } else {
        Close(index);
      }
    }

    lemma ShrunkBound()
      requires Sound() && numEntries == |contents| <= MaxEntries(capacity, threshold)
      ensures Valid()
    {
    }

    /** Closes the hole that the removed entry left. */
    method Close(index: nat)
      requires 5 <= threshold <= 9 && 8 <= capacity <= MAX_CAPACITY && PowerOfTwo(capacity)
      requires hashes.Length == entries.Length == capacity && maxEntries == MaxEntries(capacity, threshold)
      requires index < capacity && Shifting(View(hashes, entries), capacity, index)
      requires Keeps(View(hashes, entries), contents, SlotHash()) && numEntries == |contents| < maxEntries
      modifies hashes, entries
      ensures Valid()
    {
      hide *;
      ghost var st := View(hashes, entries);
      TwoEmpties(st, contents, SlotHash(), capacity, threshold);
      BackShift(hashes, entries, capacity, index);
      KeepsSame(st, View(hashes, entries), contents, SlotHash());
      FoldSound();
    }

    /** Changes the capacity to the least power of two from the size asked for on that all entries fit in, but not below 8. */
    method Resize(newCapacity: nat)
      requires Valid() && 1 <= newCapacity <= MAX_CAPACITY
      modifies Repr()
      ensures Valid() && fresh(Repr() - old(Repr())) && contents == old(contents) && newCapacity <= capacity
      ensures PowerOfTwo(capacity) && numEntries <= MaxEntries(capacity, threshold)
      ensures capacity == 8 || capacity < 2 * newCapacity || MaxEntries(capacity / 2, threshold) < numEntries
    {
      hide *;
      ValidSound();
      Parts();
      var n := SuitableCapacity(newCapacity, capacity, threshold, numEntries);
      ResizeTarget(n, threshold, numEntries);
      if n < capacity {
        Shrink(n);
      } else {
        Grow(n);
      }
      ShrunkBound();
    }

    /** Only the entry is written; the hash is there already. */
    method PutEntry(index: nat, entry: Entry)
      requires hashes.Length == entries.Length && index < hashes.Length && hashes[index] != 0
      modifies entries
      ensures View(hashes, entries) == old(View(hashes, entries))[index := Full(hashes[index], entry)]
    {
      entries[index] := entry;
    }

    lemma StillSound()
      requires 5 <= threshold <= 9 && 8 <= capacity <= MAX_CAPACITY && PowerOfTwo(capacity)
      requires hashes.Length == entries.Length == capacity && maxEntries == MaxEntries(capacity, threshold)
      requires Hashed(View(hashes, entries), capacity) && Keeps(View(hashes, entries), contents, SlotHash())
      ensures Sound()
    {
    }

    lemma FoldSound()
      requires 5 <= threshold <= 9 && 8 <= capacity <= MAX_CAPACITY && PowerOfTwo(capacity)
      requires hashes.Length == entries.Length == capacity && maxEntries == MaxEntries(capacity, threshold)
      requires Hashed(View(hashes, entries), capacity) && Keeps(View(hashes, entries), contents, SlotHash())
      ensures Sound() && (numEntries == |contents| <= maxEntries ==> Valid())
    {
    }
  }

  lemma AddedParts(st0: seq<Slot>, st: seq<Slot>, n: nat, index: nat, hash: nat)
    requires Added(st0, st, n, index, hash)
    ensures |st| == n && Hashed(st, n) && index < n && st[index].Full? && st[index].hash == hash
    ensures Conserved(st0, st[index], st, Empty)
  {
  }

  lemma TwoEmpties(st: seq<Slot>, contents: map<int, int>, slotHash: int -> nat, capacity: nat, threshold: nat)
    requires Keeps(st, contents, slotHash) && |st| == capacity && 5 <= threshold <= 9 && 8 <= capacity
    requires |contents| < MaxEntries(capacity, threshold)
    ensures multiset(st)[Empty] >= 2
  {
    MaxEntriesBounds(capacity, threshold);
  }

  lemma EmptyTable(hashes: array<nat>, entries: array<Entry>, n: nat, slotHash: int -> nat)
    requires hashes.Length == entries.Length == n && 3 <= n && forall i :: 0 <= i < n ==> hashes[i] == 0
    ensures Hashed(View(hashes, entries), n) && Keeps(View(hashes, entries), map[], slotHash)
  {
    var st := View(hashes, entries);
    AllEmpty(st);
  }
}
