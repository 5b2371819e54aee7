/** Lookup and insertion by quadratic probing, among entries and tombstones. */
module QuadraticSearch {
  import opened HashSlots
  import opened HashCapacity
  import opened HashContents
  import opened Triangular
  import opened Quadratic
  import opened QuadraticResize

  /** Slots that end no search: those with an entry or a tombstone. */
  ghost function Busy(hashes: seq<nat>): (busy: seq<bool>)
    ensures |busy| == |hashes|
  {
    seq(|hashes|, i requires 0 <= i < |hashes| => hashes[i] != 0)
  }

  /** Every entry can be found, and there is an empty slot for every search to end at. */
  ghost predicate Searchable(hashes: seq<nat>, st: seq<Slot>, n: nat) {
    |hashes| == |st| == n && Reachable(st, Occupied(st), Busy(hashes), n) && multiset(hashes)[0] > 0
  }

  /** Slots without an entry are either empty or tombstones. */
  lemma {:induction false} CountEmpty(hashes: seq<nat>, entries: seq<Entry>)
    requires |hashes| == |entries|
    ensures multiset(Cells(hashes, entries))[Empty] == multiset(hashes)[0] + multiset(hashes)[1]
  {
    if hashes != [] {
      var m := |hashes| - 1;
      CountEmpty(hashes[..m], entries[..m]);
      var st, last := Cells(hashes, entries), Cells(hashes, entries)[m];
      assert hashes == hashes[..m] + [hashes[m]];
      assert st == Cells(hashes[..m], entries[..m]) + [last];
    }
  }

  lemma ZeroSlot(hashes: seq<nat>, st: seq<Slot>, n: nat) returns (z: nat)
    requires Searchable(hashes, st, n)
    ensures z < n && !Busy(hashes)[z] && PowerOfTwo(n) && 0 < n && |Busy(hashes)| == n
  {
    assert 0 in hashes;
    z :| z < |hashes| && hashes[z] == 0;
  }

  ghost predicate NotYet(st: seq<Slot>, n: nat, home: nat, k: nat, hash: nat, key: int) {
    home < n <= |st| && forall m :: 0 <= m < k ==> !Matches(st[Probe(home, m, n)], hash, key)
  }

  lemma NotYetNext(st: seq<Slot>, n: nat, home: nat, k: nat, hash: nat, key: int)
    requires NotYet(st, n, home, k, hash, key) && !Matches(st[Probe(home, k, n)], hash, key)
    ensures NotYet(st, n, home, k + 1, hash, key)
  {
    hide Probe;
  }

  /** An empty slot ends the search. */
  lemma StopHere(hashes: seq<nat>, st: seq<Slot>, n: nat, k: nat, hash: nat, key: int)
    requires Searchable(hashes, st, n) && k < n && NotYet(st, n, Home(hash, n), k, hash, key)
    requires var i := Probe(Home(hash, n), k, n); hashes[i] == 0 && st[i] == Empty
    ensures NoMatch(st, hash, key)
  {
    hide Probe, Home;
    forall j | 0 <= j < |st| ensures !Matches(st[j], hash, key) {
      if st[j].Full? && st[j].hash == hash {
        assert Findable(st, Busy(hashes), n, j);
      }
    }
  }

  /** One more advance. */
  lemma ProbeOn(busy: seq<bool>, n: nat, home: nat, k: nat, z: nat)
    requires PowerOfTwo(n) && home < n == |busy| && k < n && Probed(busy, n, home, k) && z < n && !busy[z]
    requires busy[Probe(home, k, n)]
    ensures k + 1 < n && Probed(busy, n, home, k + 1) && Probe(home, k + 1, n) == Mod(Probe(home, k, n) + (k + 1), n)
  {
    ProbedNext(busy, n, home, k);
    ProbedBound(busy, n, home, k + 1, z);
  }

  lemma ProbeStart(hashes: seq<nat>, st: seq<Slot>, n: nat, hash: nat, key: int)
    requires 0 < n == |hashes| == |st|
    ensures Probed(Busy(hashes), n, Home(hash, n), 0) && Probe(Home(hash, n), 0, n) == Home(hash, n)
    ensures NotYet(st, n, Home(hash, n), 0, hash, key)
  {
  }

  lemma SlotHere(hashes: array<nat>, entries: array<Entry>, st: seq<Slot>, i: nat)
    requires hashes.Length == entries.Length && Cells(hashes[..], entries[..]) == st && i < |st|
    ensures i < hashes.Length == |st| && (Busy(hashes[..])[i] <==> hashes[i] != 0) && hashes[..][i] == hashes[i]
    ensures st[i] == if hashes[i] < 2 then Empty else Full(hashes[i], entries[i])
    ensures Occupied(st)[i] <==> 2 <= hashes[i]
  {
  }

  method Lookup(hashes: array<nat>, entries: array<Entry>, n: nat, hash: nat, key: int) returns (found: bool, index: nat)
    requires hashes.Length == entries.Length && Searchable(hashes[..], Cells(hashes[..], entries[..]), n) && 2 <= hash
    ensures found ==> index < n == hashes.Length && Matches(Cells(hashes[..], entries[..])[index], hash, key)
    ensures !found ==> NoMatch(Cells(hashes[..], entries[..]), hash, key)
  {
    ghost var hs, st := hashes[..], Cells(hashes[..], entries[..]);
    ghost var z := ZeroSlot(hs, st, n);
    hide *;
    ghost var home := Home(hash, n);
    index := Home(hash, n);
    var increment := 0;
    ProbeStart(hs, st, n, hash, key);
    while true
      invariant increment < n && index == Probe(home, increment, n)
      invariant Probed(Busy(hs), n, home, increment) && NotYet(st, n, home, increment, hash, key)
      decreases n - increment
    {
      SlotHere(hashes, entries, st, index);
      if hashes[index] == 0 {
        StopHere(hs, st, n, increment, hash, key);
        break;
      }
      MatchesAt(st[index], hash, key);
      if hash == hashes[index] && key == entries[index].key {
        return true, index;
      }
      NotYetNext(st, n, home, increment, hash, key);
      ProbeOn(Busy(hs), n, home, increment, z);
      increment := increment + 1;
      index := Mod(index + increment, n);
    }
    found := false;
  }

  /** One more entry in slot index, whatever it is. */
  ghost predicate Added(st0: seq<Slot>, hashes: seq<nat>, st: seq<Slot>, n: nat, index: nat, hash: nat) {
    |st0| == |st| == |hashes| == n && Reachable(st, Occupied(st), Busy(hashes), n) && index < n &&
    st[index].Full? && st[index].hash == hash == hashes[index] && Conserved(st0, st[index], st, Empty)
  }

  lemma AddedHere(hashes: seq<nat>, st: seq<Slot>, n: nat, k: nat, hash: nat, x: Slot)
    requires Searchable(hashes, st, n) && k < n && 0 < n && Probed(Busy(hashes), n, Home(hash, n), k)
    requires st[Probe(Home(hash, n), k, n)] == Empty && x.Full? && x.hash == hash && 2 <= hash
    ensures var i := Probe(Home(hash, n), k, n); Added(st, hashes[i := hash], st[i := x], n, i, hash)
  {
    var i := Probe(Home(hash, n), k, n);
    Rest(st, Occupied(st), Busy(hashes), n, k, hash, x.entry);
    assert Occupied(st[i := x]) == Occupied(st)[i := true];
    assert Busy(hashes[i := hash]) == Busy(hashes)[i := true];
    ConservedStart(st, x);
    Exchange(st, x, st, x, i);
    hide Reachable, Probe, Home;
  }

  /** The caller writes the new entry into its slot. */
  lemma AddedEntry(st0: seq<Slot>, hashes: seq<nat>, st: seq<Slot>, n: nat, index: nat, hash: nat, entry: Entry)
    requires Added(st0, hashes, st, n, index, hash)
    ensures Added(st0, hashes, st[index := Full(hash, entry)], n, index, hash)
  {
    var st1 := st[index := Full(hash, entry)];
    MultisetUpdate(st, index, Full(hash, entry));
    Chain(multiset(st1), multiset(st), multiset(st0), Full(hash, entry), st[index], Empty);
    assert Occupied(st1) == Occupied(st);
    forall j | 0 <= j < n && Occupied(st)[j] ensures Findable(st1, Busy(hashes), n, j) {
      assert Findable(st, Busy(hashes), n, j);
    }
  }

  /** The first slot without an entry takes the hash; the caller writes the entry itself. */
  method DoInsert(hashes: array<nat>, entries: array<Entry>, n: nat, hash: nat) returns (index: nat, reused: bool)
    requires hashes.Length == entries.Length && Searchable(hashes[..], Cells(hashes[..], entries[..]), n) && 2 <= hash
    modifies hashes
    ensures Added(old(Cells(hashes[..], entries[..])), hashes[..], Cells(hashes[..], entries[..]), n, index, hash)
    ensures index < hashes.Length && hashes[..] == old(hashes[..])[index := hash]
    ensures reused <==> old(hashes[..])[index] == 1
    ensures old(hashes[..])[index] < 2
  {
    ghost var hs, st := hashes[..], Cells(hashes[..], entries[..]);
    ghost var z := ZeroSlot(hs, st, n);
    hide *;
    ghost var home := Home(hash, n);
    index := Home(hash, n);
    var increment := 0;
    ProbeStart(hs, st, n, hash, 0);
    while true
      invariant hashes[..] == hs && Cells(hashes[..], entries[..]) == st
      invariant increment < n && index == Probe(home, increment, n) && Probed(Busy(hs), n, home, increment)
      decreases n - increment
    {
      SlotHere(hashes, entries, st, index);
      if hashes[index] < 2 {
        reused := hashes[index] == 1;
        AddedHere(hs, st, n, increment, hash, Full(hash, entries[index]));
        break;
      }
      ProbeOn(Busy(hs), n, home, increment, z);
      increment := increment + 1;
      index := Mod(index + increment, n);
    }
    SetHash(hashes, entries, index, hash);
  }

  method SetHash(hashes: array<nat>, entries: array<Entry>, i: nat, hash: nat)
    requires hashes.Length == entries.Length && i < hashes.Length && 2 <= hash
    modifies hashes
    ensures hashes[..] == old(hashes[..])[i := hash]
    ensures Cells(hashes[..], entries[..]) == old(Cells(hashes[..], entries[..]))[i := Full(hash, entries[i])]
  {
    CellsUpdate(hashes[..], entries[..], i, hash, entries[i]);
    assert entries[..][i := entries[i]] == entries[..];
    hide Cells;
    hashes[i] := hash;
    assert hashes[..] == old(hashes[..])[i := hash];
  }

  /** A removed entry leaves a tombstone. */
  lemma Buried(hashes: seq<nat>, st: seq<Slot>, n: nat, i: nat)
    requires Searchable(hashes, st, n) && i < n && st[i].Full? && 2 <= hashes[i]
    ensures Searchable(hashes[i := 1], st[i := Empty], n)
    ensures multiset(hashes[i := 1])[1] == multiset(hashes)[1] + 1
  {
    Withdraw(st, Occupied(st), Busy(hashes), n, i);
    assert Occupied(st[i := Empty]) == Occupied(st)[i := false];
    assert Busy(hashes[i := 1]) == Busy(hashes);
    hide Reachable;
    MultisetUpdate(hashes, i, 1);
    var a, b := multiset(hashes[i := 1]), multiset(hashes);
    assert (a + multiset{hashes[i]})[1] == (b + multiset{1})[1];
    assert (a + multiset{hashes[i]})[0] == (b + multiset{1})[0];
  }
}
