/** Lookup, insertion and backward-shift removal in a table in Robin Hood order. */
module RobinHoodSearch {
  import opened HashSlots
  import opened HashContents
  import opened RobinHood
  import opened RobinHoodInsert
  import opened RobinHoodRehash

  /** From its home to an entry, every slot is taken, by entries at least as far from home. */
  lemma {:induction false} ChainBack(st: seq<Slot>, placed: seq<bool>, n: nat, j: nat, m: nat)
    requires Ordered(st, placed, n) && j < n && placed[j] && st[j].Full? && m <= Dist(st, j, n)
    ensures var i := Wrap(Home(st[j].hash, n), m, n); placed[i] && Dist(st, i, n) >= m
    decreases Dist(st, j, n) - m
  {
    var home := Home(st[j].hash, n);
    if m == Dist(st, j, n) {
      OffWrap(home, j, n);
    } else {
      ChainBack(st, placed, n, j, m + 1);
      var i1 := Wrap(home, m + 1, n);
      assert Fine(st, placed, n, i1);
      WrapNext(home, m, n);
      OffStep(Wrap(home, m, n), home, n);
      hide Home, Wrap;
    }
  }

  /** The first i slots from start on do not match. */
  ghost predicate NotYet(st: seq<Slot>, n: nat, start: nat, i: nat, hash: nat, key: int) {
    start < n <= |st| && i <= n && forall k :: 0 <= k < i ==> !Matches(st[Wrap(start, k, n)], hash, key)
  }

  /** An empty slot, or one whose entry is nearer its home, ends the search: what is looked for is not there. */
  lemma StopHere(st: seq<Slot>, n: nat, i: nat, hash: nat, key: int)
    requires Hashed(st, n) && |st| == n && i < n && NotYet(st, n, Home(hash, n), i, hash, key)
    requires var x := Wrap(Home(hash, n), i, n); st[x] == Empty || Dist(st, x, n) < i
    ensures NoMatch(st, hash, key)
  {
    var start := Home(hash, n);
    var x := Wrap(start, i, n);
    forall j | 0 <= j < |st| ensures !Matches(st[j], hash, key) {
      if Matches(st[j], hash, key) {
        OffWrap(start, j, n);
        if Dist(st, j, n) >= i {
          ChainBack(st, Occupied(st), n, j, i);
        }
      }
    }
  }

  lemma NotYetNext(st: seq<Slot>, n: nat, start: nat, i: nat, hash: nat, key: int)
    requires NotYet(st, n, start, i, hash, key) && i < n && !Matches(st[Wrap(start, i, n)], hash, key)
    ensures NotYet(st, n, start, i + 1, hash, key)
  {
  }

  lemma BeforeEmpty(st: seq<Slot>, n: nat, start: nat, i: nat, s: nat)
    requires start < n <= |st| && s < n && st[s] == Empty && i <= Off(s, start, n) && st[Wrap(start, i, n)].Full?
    ensures i < Off(s, start, n)
  {
    OffWrap(start, s, n);
  }

  lemma SlotAt(hashes: array<nat>, entries: array<Entry>, n: nat, st: seq<Slot>, x: nat)
    requires hashes.Length == entries.Length && View(hashes, entries) == st && x < n <= |st|
    ensures |st| == hashes.Length
    ensures st[x] == if hashes[x] == 0 then Empty else Full(hashes[x], entries[x])
    ensures hashes[x] != 0 ==> Dist(st, x, n) == Off(x, Home(hashes[x], n), n)
  {
  }

  lemma HashedEmpty(st: seq<Slot>, n: nat) returns (s: nat)
    requires Hashed(st, n) && |st| == n && multiset(st)[Empty] > 0
    ensures s < n && st[s] == Empty && 3 <= n
  {
    s := SomeEmpty(st, n);
  }

  method Lookup(hashes: array<nat>, entries: array<Entry>, n: nat, hash: nat, key: int) returns (found: bool, index: nat)
    requires hashes.Length == entries.Length == n && Hashed(View(hashes, entries), n)
    requires multiset(View(hashes, entries))[Empty] > 0 && hash != 0
    ensures found ==> index < n && Matches(View(hashes, entries)[index], hash, key)
    ensures !found ==> NoMatch(View(hashes, entries), hash, key)
  {
    ghost var st := View(hashes, entries);
    ghost var s := HashedEmpty(st, n);
    var start, i := Home(hash, n), 0;
    assert NotYet(st, n, start, 0, hash, key);
    hide *;
    index := 0;
    while true
      invariant start < n && i <= Off(s, start, n) && NotYet(st, n, start, i, hash, key)
      decreases Off(s, start, n) - i
    {
      index := Wrap(start, i, n);
      SlotAt(hashes, entries, n, st, index);
      if hashes[index] == 0 {
        StopHere(st, n, i, hash, key);
        break;
      }
      var dist := Off(index, Home(hashes[index], n), n);
      if dist < i {
        StopHere(st, n, i, hash, key);
        break;
      }
      MatchesAt(st[index], hash, key);
      if hash == hashes[index] && key == entries[index].key {
        return true, index;
      }
      NotYetNext(st, n, start, i, hash, key);
      BeforeEmpty(st, n, start, i, s);
      i := i + 1;
    }
    found := false;
  }

  // ---------------------------------------------------------------- insertion

  lemma OccupiedMarks(st: seq<Slot>, n: nat)
    requires n <= |st|
    ensures Marks(null, st, Occupied(st), n) && |Occupied(st)| == |st|
    ensures forall i :: 0 <= i < |st| ==> (Occupied(st)[i] <==> st[i].Full?)
  {
  }

  lemma SettledHashed(st0: seq<Slot>, st: seq<Slot>, n: nat, start: nat, end: nat)
    requires |st0| == n && Settled(st0, Occupied(st0), st, n, start, end) && Marks(null, st, Occupied(st0)[end := true], n)
    ensures Hashed(st, n) && Occupied(st) == Occupied(st0)[end := true]
  {
    assert Occupied(st) == Occupied(st0)[end := true];
  }

  /** One more entry in slot index, whatever it is. */
  ghost predicate Added(st0: seq<Slot>, st: seq<Slot>, n: nat, index: nat, hash: nat) {
    |st0| == |st| == n && Hashed(st, n) && index < n && st[index].Full? && st[index].hash == hash &&
    Conserved(st0, st[index], st, Empty)
  }

  lemma AddedAtEmpty(st: seq<Slot>, n: nat, index: nat, hash: nat, distance: nat, x: Slot)
    requires |st| == n && Hashed(st, n) && Carried(st, Occupied(st), n, index, hash, distance) && st[index] == Empty
    requires x.Full? && x.hash == hash
    ensures Added(st, st[index := x], n, index, hash)
  {
    var st1 := st[index := x];
    Rest(st, Occupied(st), n, index, hash, x.entry, distance);
    assert Occupied(st1) == Occupied(st)[index := true];
    ConservedStart(st, x);
    Exchange(st, x, st, x, index);
  }

  /** The new entry takes the place of one that has already found another place. */
  lemma AddedAtDisplaced(st0: seq<Slot>, st: seq<Slot>, n: nat, index: nat, hash: nat, i: nat, start: nat, end: nat, x: Slot)
    requires |st0| == n && Hashed(st0, n) && Carried(st0, Occupied(st0), n, index, hash, i)
    requires st0[index].Full? && Dist(st0, index, n) < i && x.Full? && x.hash == hash && start == Next(index, n)
    requires Settled(st0, Occupied(st0), st, n, start, end) && Marks(null, st, Occupied(st0)[end := true], n)
    requires Conserved(st0, st0[index], st, Empty) && multiset(st0)[Empty] >= 2
    ensures Added(st0, st[index := x], n, index, hash)
  {
    SettledHashed(st0, st, n, start, end);
    OffStep(index, index, n);
    assert st[index] == st0[index];
    assert Carried(st, Occupied(st), n, index, hash, i);
    EmptiesLeft(st0, st0[index], st);
    var s := SomeEmpty(st, n);
    assert Dist(st, index, n) == Dist(st0, index, n);
    hide Carried, Grew, Untouched, Home, Ordered;
    Swap(st, Occupied(st), n, index, hash, x.entry, i, s);
    assert Occupied(st[index := x]) == Occupied(st);
    Substitute(st0, st, index, x);
  }

  lemma EmptiesLeft(st0: seq<Slot>, hand: Slot, st: seq<Slot>)
    requires Conserved(st0, hand, st, Empty) && hand.Full?
    ensures multiset(st)[Empty] + 1 == multiset(st0)[Empty]
  {
    assert multiset(st)[Empty] + 1 == (multiset(st) + multiset{Empty})[Empty];
    assert multiset(st0)[Empty] == (multiset(st0) + multiset{hand})[Empty];
  }

  lemma Substitute(st0: seq<Slot>, st: seq<Slot>, index: nat, x: Slot)
    requires index < |st| && Conserved(st0, st[index], st, Empty)
    ensures Conserved(st0, x, st[index := x], Empty)
  {
    MultisetUpdate(st, index, x);
    Chain(multiset(st[index := x]), multiset(st), multiset(st0), x, st[index], Empty);
  }

  /** The caller writes the new entry into its slot. */
  lemma AddedEntry(st0: seq<Slot>, st: seq<Slot>, n: nat, index: nat, hash: nat, entry: Entry)
    requires Added(st0, st, n, index, hash)
    ensures Added(st0, st[index := Full(hash, entry)], n, index, hash)
  {
    var st1 := st[index := Full(hash, entry)];
    Substitute(st0, st, index, Full(hash, entry));
    assert Occupied(st1) == Occupied(st);
    forall i | 0 <= i < n ensures Fine(st1, Occupied(st1), n, i) {
      assert Fine(st, Occupied(st), n, i);
    }
  }

  lemma InsertStart(st: seq<Slot>, n: nat, hash: nat)
    requires Hashed(st, n)
    ensures Carried(st, Occupied(st), n, Home(hash, n), hash, 0) && |Occupied(st)| == |st|
    ensures forall i :: 0 <= i < |st| ==> (Occupied(st)[i] <==> st[i].Full?)
  {
  }

  lemma InsertPass(st: seq<Slot>, n: nat, start: nat, i: nat, hash: nat, s: nat)
    requires Hashed(st, n) && |st| == n && start < n && i < n && s < n && st[s] == Empty
    requires Carried(st, Occupied(st), n, Wrap(start, i, n), hash, i) && i <= Off(s, start, n)
    requires st[Wrap(start, i, n)].Full? && Dist(st, Wrap(start, i, n), n) >= i
    ensures i < Off(s, start, n) && Carried(st, Occupied(st), n, Wrap(start, i + 1, n), hash, i + 1)
  {
    BeforeEmpty(st, n, start, i, s);
    Pass(st, Occupied(st), n, Wrap(start, i, n), hash, i, s);
    WrapNext(start, i, n);
    hide Ordered, Carried, Wrap;
  }

  /** The displaced entry can go on from the next slot. */
  lemma InsertDisplace(st: seq<Slot>, n: nat, start: nat, i: nat, hash: nat, s: nat)
    requires Hashed(st, n) && |st| == n && start < n && i < n && s < n && st[s] == Empty
    requires Carried(st, Occupied(st), n, Wrap(start, i, n), hash, i)
    requires st[Wrap(start, i, n)].Full? && Dist(st, Wrap(start, i, n), n) < i
    ensures var index := Wrap(start, i, n);
      Wrap(start, i + 1, n) == Next(index, n) &&
      Carried(st, Occupied(st), n, Next(index, n), st[index].hash, Dist(st, index, n) + 1)
    ensures Ordered(st, Occupied(st), n) && !Occupied(st)[s]
  {
    var index := Wrap(start, i, n);
    WrapNext(start, i, n);
    DistBound(st, Occupied(st), n, index, s);
    OffStep(index, Home(st[index].hash, n), n);
    hide Wrap, Home, Ordered;
  }

  /** Makes room for an entry with this hash and returns its slot; the caller writes the entry itself. What is in
      the entry's place before that is arbitrary. */
  method DoInsert(hashes: array<nat>, entries: array<Entry>, n: nat, hash: nat) returns (index: nat)
    requires hashes.Length == entries.Length == n && Hashed(View(hashes, entries), n) && hash != 0
    requires multiset(View(hashes, entries))[Empty] >= 2
    modifies hashes, entries
    ensures Added(old(View(hashes, entries)), View(hashes, entries), n, index, hash)
  {
    ghost var st := View(hashes, entries);
    ghost var s := HashedEmpty(st, n);
    InsertStart(st, n, hash);
    var start, i := Home(hash, n), 0;
    assert Wrap(start, 0, n) == start;
    hide *;
    index := start;
    while true
      invariant start < n && i <= Off(s, start, n) && i < n && View(hashes, entries) == st
      invariant Carried(st, Occupied(st), n, Wrap(start, i, n), hash, i)
      decreases Off(s, start, n) - i
    {
      index := Wrap(start, i, n);
      SlotAt(hashes, entries, n, st, index);
      if hashes[index] == 0 {
        AddedAtEmpty(st, n, index, hash, i, Full(hash, entries[index]));
        SetHash(hashes, entries, index, hash);
        return;
      }
      var d := Off(index, Home(hashes[index], n), n);
      if d < i {
        InsertDisplace(st, n, start, i, hash, s);
        Displace(hashes, entries, n, hash, start, i, index, d, s);
        return;
      }
      InsertPass(st, n, start, i, hash, s);
      i := i + 1;
    }
  }

  method SetHash(hashes: array<nat>, entries: array<Entry>, index: nat, hash: nat)
    requires hashes.Length == entries.Length && index < hashes.Length && hash != 0
    modifies hashes
    ensures View(hashes, entries) == old(View(hashes, entries))[index := Full(hash, entries[index])]
  {
    hashes[index] := hash;
  }

  /** The entry in slot index moves on; its place in the array serves as the hand, and is left with a stale entry. */
  method Displace(hashes: array<nat>, entries: array<Entry>, n: nat, hash: nat, start: nat, i: nat, index: nat, d: nat, ghost s: nat)
    requires hashes.Length == entries.Length == n && Hashed(View(hashes, entries), n) && hash != 0
    requires multiset(View(hashes, entries))[Empty] >= 2 && start < n && i < n && index == Wrap(start, i, n)
    requires s < n && View(hashes, entries)[s] == Empty
    requires Carried(View(hashes, entries), Occupied(View(hashes, entries)), n, index, hash, i)
    requires hashes[index] != 0 && d == Dist(View(hashes, entries), index, n) < i
    modifies hashes, entries
    ensures Added(old(View(hashes, entries)), View(hashes, entries), n, index, hash)
  {
    ghost var st0 := View(hashes, entries);
    SlotAt(hashes, entries, n, st0, index);
    InsertDisplace(st0, n, start, i, hash, s);
    OccupiedMarks(st0, n);
    var h, e := hashes[index], entries[index];
    hide *;
    var next := Wrap(start, i + 1, n);
    var displaced, h1, stale, end := InsertRobinHood(hashes, entries, null, next, d + 1, h, e, n, Occupied(st0), s);
    ghost var st1 := View(hashes, entries);
    AddedAtDisplaced(st0, st1, n, index, hash, i, next, end, Full(hash, stale));
    Store(hashes, entries, index, hash, stale);
  }

  // ---------------------------------------------------------------- removal

  /** All slots are in order around a hole at cur; what comes next may move into it. */
  ghost predicate Shifting(st: seq<Slot>, n: nat, cur: nat) {
    3 <= n == |st| && cur < n && st[cur] == Empty &&
    (forall i :: 0 <= i < n && i != Next(cur, n) ==> Fine(st, Occupied(st), n, i)) &&
    (st[Next(cur, n)].Full? && Dist(st, Next(cur, n), n) >= 2 ==>
      st[Prev(cur, n)].Full? && Dist(st, Prev(cur, n), n) >= Dist(st, Next(cur, n), n) - 2)
  }

  lemma HoleMade(st: seq<Slot>, n: nat, index: nat)
    requires Hashed(st, n) && |st| == n && index < n
    ensures Shifting(st[index := Empty], n, index)
  {
    var st1 := st[index := Empty];
    OffStep(index, index, n);
    assert Fine(st, Occupied(st), n, index) && Fine(st, Occupied(st), n, Next(index, n));
    forall i | 0 <= i < n && i != Next(index, n) ensures Fine(st1, Occupied(st1), n, i) {
      assert Fine(st, Occupied(st), n, i);
      OffStep(i, index, n);
    }
    hide Home;
  }

  ghost function ShiftedInto(st: seq<Slot>, cur: nat, next: nat): seq<Slot>
    requires cur < |st| && next < |st|
  {
    st[cur := st[next]][next := Empty]
  }

  lemma ShiftOne(st: seq<Slot>, n: nat, cur: nat)
    requires Shifting(st, n, cur) && st[Next(cur, n)].Full? && Dist(st, Next(cur, n), n) > 0
    ensures Shifting(ShiftedInto(st, cur, Next(cur, n)), n, Next(cur, n))
  {
    var next := Next(cur, n);
    var st1 := ShiftedInto(st, cur, next);
    OffStep(cur, Home(st[next].hash, n), n);
    OffStep(next, Home(st[next].hash, n), n);
    OffStep(cur, cur, n);
    OffStep(next, next, n);
    hide Home;
    assert Fine(st, Occupied(st), n, Next(next, n));
    forall i | 0 <= i < n && i != Next(next, n) ensures Fine(st1, Occupied(st1), n, i) {
      if i != next {
        assert Fine(st, Occupied(st), n, i);
      }
      OffStep(i, cur, n);
    }
  }

  lemma HoleClosed(st: seq<Slot>, n: nat, cur: nat)
    requires Shifting(st, n, cur) && (st[Next(cur, n)] == Empty || Dist(st, Next(cur, n), n) == 0)
    ensures Hashed(st, n)
  {
    forall i | 0 <= i < n ensures Fine(st, Occupied(st), n, i) {
    }
  }
}
