/** Quadratic probing: which slots must stay taken so that every entry can be found, also while rehashing in place. */
module Quadratic {
  import opened HashSlots
  import opened HashCapacity
  import opened Triangular

  function Home(hash: nat, n: nat): (i: nat)
    requires 0 < n
    ensures i < n
  {
    hash % n
  }

  /** Hash 0 is an empty slot, hash 1 a tombstone; neither holds an entry. */
  ghost function Cells(hashes: seq<nat>, entries: seq<Entry>): (st: seq<Slot>)
    requires |hashes| == |entries|
    ensures |st| == |hashes|
  {
    seq(|hashes|, i requires 0 <= i < |hashes| => if hashes[i] < 2 then Empty else Full(hashes[i], entries[i]))
  }

  lemma CellsUpdate(hashes: seq<nat>, entries: seq<Entry>, i: nat, hash: nat, entry: Entry)
    requires |hashes| == |entries| && i < |hashes| && 2 <= hash
    ensures Cells(hashes[i := hash], entries[i := entry]) == Cells(hashes, entries)[i := Full(hash, entry)]
  {
  }

  lemma CellsErase(hashes: seq<nat>, entries: seq<Entry>, i: nat, hash: nat)
    requires |hashes| == |entries| && i < |hashes| && hash < 2
    ensures Cells(hashes[i := hash], entries) == Cells(hashes, entries)[i := Empty]
  {
  }

  /** All slots that are probed before slot j is reached are busy. */
  ghost predicate PathBusy(busy: seq<bool>, n: nat, home: nat, j: nat)
    requires PowerOfTwo(n) && home < n == |busy| && j < n
  {
    forall m :: 0 <= m < Step(home, j, n) ==> busy[Probe(home, m, n)]
  }

  /** The entry in slot j can be found from its home. */
  ghost predicate Findable(st: seq<Slot>, busy: seq<bool>, n: nat, j: nat)
    requires PowerOfTwo(n) && j < n == |busy| <= |st|
  {
    st[j].Full? && busy[j] && PathBusy(busy, n, Home(st[j].hash, n), j)
  }

  ghost predicate Reachable(st: seq<Slot>, who: seq<bool>, busy: seq<bool>, n: nat) {
    PowerOfTwo(n) && n == |busy| <= |st| == |who| &&
    (forall j :: 0 <= j < n && who[j] ==> Findable(st, busy, n, j)) && forall j :: n <= j < |who| ==> !who[j]
  }

  /** The first k probed slots are busy. */
  ghost predicate Probed(busy: seq<bool>, n: nat, home: nat, k: nat)
    requires home < n == |busy|
  {
    forall m :: 0 <= m < k ==> busy[Probe(home, m, n)]
  }

  lemma ProbedNext(busy: seq<bool>, n: nat, home: nat, k: nat)
    requires home < n == |busy| && Probed(busy, n, home, k) && busy[Probe(home, k, n)]
    ensures Probed(busy, n, home, k + 1)
  {
    hide Probe;
  }

  /** Probing reaches a slot that is not busy in fewer than n advances. */
  lemma ProbedBound(busy: seq<bool>, n: nat, home: nat, k: nat, s: nat)
    requires PowerOfTwo(n) && home < n == |busy| && Probed(busy, n, home, k) && s < n && !busy[s]
    ensures k <= Step(home, s, n) < n
  {
    hide Probe;
  }

  lemma StillBusy(busy: seq<bool>, busy1: seq<bool>, n: nat, home: nat, j: nat)
    requires PowerOfTwo(n) && home < n == |busy| == |busy1| && j < n && PathBusy(busy, n, home, j)
    requires forall i :: 0 <= i < n && busy[i] ==> busy1[i]
    ensures PathBusy(busy1, n, home, j)
  {
    hide Probe;
  }

  /** An entry comes to rest in the first slot on its way that is free for it. */
  lemma Rest(st: seq<Slot>, who: seq<bool>, busy: seq<bool>, n: nat, k: nat, hash: nat, entry: Entry)
    requires Reachable(st, who, busy, n) && k < n && Probed(busy, n, Home(hash, n), k)
    requires !who[Probe(Home(hash, n), k, n)]
    ensures var i := Probe(Home(hash, n), k, n);
      Reachable(st[i := Full(hash, entry)], who[i := true], busy[i := true], n)
  {
    var home := Home(hash, n);
    var i := Probe(home, k, n);
    var st1, who1, busy1 := st[i := Full(hash, entry)], who[i := true], busy[i := true];
    StepOfProbe(home, k, n);
    hide Probe, Step, Home;
    forall j | 0 <= j < n && who1[j] ensures Findable(st1, busy1, n, j) {
      if j == i {
        assert PathBusy(busy1, n, home, i);
      } else {
        assert Findable(st, busy, n, j);
        StillBusy(busy, busy1, n, Home(st[j].hash, n), j);
      }
    }
  }

  /** An entry that is where it would be probed first stays there. */
  lemma RestHome(st: seq<Slot>, who: seq<bool>, busy: seq<bool>, n: nat, i: nat)
    requires Reachable(st, who, busy, n) && i < n && st[i].Full? && Home(st[i].hash, n) == i && !who[i]
    ensures Reachable(st, who[i := true], busy[i := true], n)
  {
    assert Probe(i, 0, n) == i;
    Rest(st, who, busy, n, 0, st[i].hash, st[i].entry);
    assert st[i := Full(st[i].hash, st[i].entry)] == st;
  }

  /** Taking out an entry changes nothing for the others, as long as its slot stays busy. */
  lemma Withdraw(st: seq<Slot>, who: seq<bool>, busy: seq<bool>, n: nat, i: nat)
    requires Reachable(st, who, busy, n) && i < |st|
    ensures Reachable(st[i := Empty], who[i := false], busy, n)
  {
    var st1, who1 := st[i := Empty], who[i := false];
    forall j | 0 <= j < n && who1[j] ensures Findable(st1, busy, n, j) {
      assert Findable(st, busy, n, j);
    }
  }
}
