/** The Robin Hood hash table. */
module RobinHoodTable {
  import opened HashSlots
  import opened HashContents
  import opened RobinHood
  import opened RobinHoodRehash
  import opened RobinHoodSearch

  lemma OtherEmpty(st: seq<Slot>, n: nat, index: nat) returns (s: nat)
    requires |st| == n && index < n && st[index] == Empty && multiset(st)[Empty] >= 2
    ensures s < n && s != index && st[s] == Empty
  {
    var x := Full(0, Entry(0, 0));
    MultisetUpdate(st, index, x);
    assert multiset(st[index := x])[Empty] + 1 == (multiset(st) + multiset{x})[Empty];
    s := SomeEmpty(st[index := x], n);
  }

  /** The hole is at slot cur of the array, whatever is stored there. */
  ghost predicate HoleAt(hashes: array<nat>, entries: array<Entry>, n: nat, cur: nat, st: seq<Slot>)
    requires hashes.Length == entries.Length
    reads hashes, entries
  {
    cur < n == |st| == hashes.Length && View(hashes, entries)[cur := Empty] == st
  }

  lemma HoleFacts(hashes: array<nat>, entries: array<Entry>, n: nat, cur: nat, st: seq<Slot>, next: nat)
    requires hashes.Length == entries.Length && HoleAt(hashes, entries, n, cur, st) && next == Next(cur, n) && 3 <= n
    ensures next < |st| && st[next] == if hashes[next] == 0 then Empty else Full(hashes[next], entries[next])
    ensures hashes[next] != 0 ==> Dist(st, next, n) == Off(next, Home(hashes[next], n), n)
  {
    ViewAt(hashes, entries, next);
    hide Home;
  }

  lemma HoleMoved(st: seq<Slot>, view: seq<Slot>, cur: nat, next: nat)
    requires |st| == |view| && cur < |st| && next < |st| && cur != next && view[cur := Empty] == st && st[next].Full?
    ensures view[cur := st[next]][next := Empty] == ShiftedInto(st, cur, next)
  {
  }

  lemma MovedSame(st: seq<Slot>, cur: nat, next: nat)
    requires cur < |st| && next < |st| && cur != next && st[cur] == Empty
    ensures multiset(ShiftedInto(st, cur, next)) == multiset(st)
  {
    var x := st[next];
    MultisetUpdate(st, cur, x);
    MultisetUpdate(st[cur := x], next, Empty);
    CancelOne(multiset(ShiftedInto(st, cur, next)), multiset(st), x);
  }

  lemma ShiftSteps(n: nat, index: nat, i: nat, s: nat, cur: nat, next: nat)
    requires index < n && i < n && s < n && cur == Wrap(index, i, n) && next == Wrap(index, i + 1, n)
    requires s != cur && Off(s, cur, n) + i == Off(s, index, n) && 3 <= n
    ensures next == Next(cur, n) && next != cur
    ensures s != next ==> Off(s, next, n) + (i + 1) == Off(s, index, n) && i + 1 < n
  {
    WrapNext(index, i, n);
    hide Wrap;
  }

  lemma ShiftKeeps(st: seq<Slot>, cur: nat, next: nat, s: nat)
    requires cur < |st| && next < |st| && s < |st| && s != cur && st[s] == Empty
    ensures ShiftedInto(st, cur, next)[s] == Empty && |ShiftedInto(st, cur, next)| == |st|
  {
  }

  lemma ShiftingFacts(st: seq<Slot>, n: nat, cur: nat)
    requires Shifting(st, n, cur)
    ensures 3 <= n == |st| && cur < n && st[cur] == Empty
  {
  }

  /** Closes the hole at index: entries move one slot back until one is at home or a slot is empty. */
  method BackShift(hashes: array<nat>, entries: array<Entry>, n: nat, index: nat)
    requires hashes.Length == entries.Length == n && index < n
    requires Shifting(View(hashes, entries), n, index) && multiset(View(hashes, entries))[Empty] >= 2
    modifies hashes, entries
    ensures Hashed(View(hashes, entries), n)
    ensures multiset(View(hashes, entries)) == multiset(old(View(hashes, entries)))
  {
    ghost var st0 := View(hashes, entries);
    ghost var st := st0;
    ghost var s := OtherEmpty(st0, n, index);
    assert st[index := Empty] == st && Wrap(index, 0, n) == index;
    var i, current: nat := 0, index;
    FoldHole(hashes, entries, n, index, st);
    hide *;
    while true
      invariant i < n && current == Wrap(index, i, n) && HoleAt(hashes, entries, n, current, st) && Shifting(st, n, current)
      invariant s < |st| == n && s != current && st[s] == Empty && Off(s, current, n) + i == Off(s, index, n)
      invariant multiset(st) == multiset(st0)
      decreases n - i
    {
      var next := Wrap(index, i + 1, n);
      ShiftingFacts(st, n, current);
      ShiftSteps(n, index, i, s, current, next);
      HoleFacts(hashes, entries, n, current, st, next);
      var distance := 0;
      if hashes[next] != 0 {
        distance := Off(next, Home(hashes[next], n), n);
      }
      if hashes[next] == 0 || distance == 0 {
        HoleClosed(st, n, current);
        EraseHole(hashes, entries, n, current, st);
        return;
      }
      ShiftOne(st, n, current);
      ShiftKeeps(st, current, next, s);
      MovedSame(st, current, next);
      MoveBack(hashes, entries, n, current, next, st);
      st := ShiftedInto(st, current, next);
      i, current := i + 1, next;
    }
  }

  lemma FoldHole(hashes: array<nat>, entries: array<Entry>, n: nat, cur: nat, st: seq<Slot>)
    requires hashes.Length == entries.Length == n && cur < n && View(hashes, entries) == st && st[cur] == Empty
    ensures HoleAt(hashes, entries, n, cur, st)
  {
  }

  method EraseHole(hashes: array<nat>, entries: array<Entry>, n: nat, cur: nat, ghost st: seq<Slot>)
    requires hashes.Length == entries.Length && HoleAt(hashes, entries, n, cur, st)
    modifies hashes
    ensures View(hashes, entries) == st
  {
    hide View;
    Erase(hashes, entries, cur);
  }

  method MoveBack(hashes: array<nat>, entries: array<Entry>, n: nat, cur: nat, next: nat, ghost st: seq<Slot>)
    requires hashes.Length == entries.Length && HoleAt(hashes, entries, n, cur, st)
    requires next < |st| && st[next].Full? && next != cur && hashes[next] != 0
    requires next < n && st[next] == Full(hashes[next], entries[next])
    modifies hashes, entries
    ensures HoleAt(hashes, entries, n, next, ShiftedInto(st, cur, next))
  {
    HoleMoved(st, View(hashes, entries), cur, next);
    ghost var view := View(hashes, entries);
    hide View, ShiftedInto;
    Store(hashes, entries, cur, hashes[next], entries[next]);
  }

  lemma HashedPrefix(st: seq<Slot>, n: nat)
    requires Hashed(st, n)
    ensures n <= |st| && Hashed(st[..n], n) && forall i :: n <= i < |st| ==> st[i] == Empty
  {
    var st1 := st[..n];
    hide Home;
    forall i | 0 <= i < n ensures Fine(st1, Occupied(st1), n, i) {
      assert Fine(st, Occupied(st), n, i);
    }
    forall i | n <= i < |st| ensures st[i] == Empty {
      assert !Occupied(st)[i];
    }
  }

  lemma ViewEnlarged(hashes: array<nat>, entries: array<Entry>, h: array<nat>, e: array<Entry>)
    requires hashes.Length == entries.Length <= h.Length == e.Length
    requires h[..hashes.Length] == hashes[..] && e[..hashes.Length] == entries[..]
    requires forall i :: hashes.Length <= i < h.Length ==> h[i] == 0
    ensures View(h, e)[..hashes.Length] == View(hashes, entries)
    ensures forall i :: hashes.Length <= i < h.Length ==> View(h, e)[i] == Empty
  {
    assert forall i :: 0 <= i < hashes.Length ==> h[..hashes.Length][i] == hashes[..][i];
    assert forall i :: 0 <= i < hashes.Length ==> e[..hashes.Length][i] == entries[..][i];
  }

  lemma ViewCut(hashes: array<nat>, entries: array<Entry>, h: array<nat>, e: array<Entry>)
    requires hashes.Length == entries.Length >= h.Length == e.Length
    requires h[..] == hashes[..h.Length] && e[..] == entries[..h.Length]
    ensures View(h, e) == View(hashes, entries)[..h.Length]
  {
    assert forall i :: 0 <= i < h.Length ==> h[..][i] == hashes[..h.Length][i];
    assert forall i :: 0 <= i < h.Length ==> e[..][i] == entries[..h.Length][i];
  }

  /** Growing keeps every entry and puts all of them in order for the new capacity. */
  method GrowStorage(hashes: array<nat>, entries: array<Entry>, n1: nat, ghost contents: map<int, int>, ghost slotHash: int -> nat)
    returns (h: array<nat>, e: array<Entry>)
    requires hashes.Length == entries.Length <= n1 && 3 <= n1 && |contents| < n1
    requires Keeps(View(hashes, entries), contents, slotHash)
    ensures fresh(h) && fresh(e) && h.Length == e.Length == n1
    ensures Hashed(View(h, e), n1) && Keeps(View(h, e), contents, slotHash)
  {
    hide *;
    ghost var st := View(hashes, entries);
    h, e := Enlarge(hashes, entries, n1);
    ViewEnlarged(hashes, entries, h, e);
    ghost var st1 := View(h, e);
    Padded(st, st1, contents, slotHash);
    KeepsRoom(st1, n1, contents, slotHash);
    RehashAll(h, e, hashes.Length, n1);
    KeepsSame(st1, View(h, e), contents, slotHash);
  }

  /** Shrinking, too; it works in the old array. */
  method ShrinkStorage(hashes: array<nat>, entries: array<Entry>, n1: nat, ghost contents: map<int, int>, ghost slotHash: int -> nat)
    returns (h: array<nat>, e: array<Entry>)
    requires hashes.Length == entries.Length >= n1 && 3 <= n1 && |contents| < n1
    requires Keeps(View(hashes, entries), contents, slotHash)
    modifies hashes, entries
    ensures fresh(h) && fresh(e) && h.Length == e.Length == n1
    ensures Hashed(View(h, e), n1) && Keeps(View(h, e), contents, slotHash)
  {
    hide *;
    ghost var st := View(hashes, entries);
    KeepsRoom(st, n1, contents, slotHash);
    RehashAll(hashes, entries, hashes.Length, n1);
    ghost var st1 := View(hashes, entries);
    KeepsSame(st, st1, contents, slotHash);
    HashedPrefix(st1, n1);
    Padded(st1[..n1], st1, contents, slotHash);
    h, e := Cut(hashes, entries, n1);
    ViewCut(hashes, entries, h, e);
  }
}
