/** The slots of a hash table as a finite map. */
module HashContents {
  import opened HashSlots

  ghost predicate Matches(x: Slot, hash: nat, key: int) {
    x.Full? && x.hash == hash && x.entry.key == key
  }

  ghost predicate NoMatch(st: seq<Slot>, hash: nat, key: int) {
    forall j :: 0 <= j < |st| ==> !Matches(st[j], hash, key)
  }

  lemma MatchesAt(x: Slot, hash: nat, key: int)
    ensures Matches(x, hash, key) <==> x.Full? && x.hash == hash && x.entry.key == key
  {
  }

  ghost function SlotOf(key: int, value: int, slotHash: int -> nat): Slot {
    Full(slotHash(key), Entry(key, value))
  }

  /** The slots hold exactly the entries of the map, each of them once and with the hash of its key. */
  ghost predicate Represents(ms: multiset<Slot>, contents: map<int, int>, slotHash: int -> nat) {
    (forall x :: x in ms && x.Full? ==>
      ms[x] == 1 && x.entry.key in contents && x == SlotOf(x.entry.key, contents[x.entry.key], slotHash)) &&
    (forall k :: k in contents ==> SlotOf(k, contents[k], slotHash) in ms)
  }

  ghost predicate Keeps(st: seq<Slot>, contents: map<int, int>, slotHash: int -> nat) {
    Represents(multiset(st), contents, slotHash) && |contents| + multiset(st)[Empty] == |st|
  }

  /** Two tables with the same entries. */
  ghost predicate SameEntries(a: multiset<Slot>, b: multiset<Slot>) {
    forall x: Slot :: x.Full? ==> a[x] == b[x]
  }

  lemma SameRepresents(a: multiset<Slot>, b: multiset<Slot>, contents: map<int, int>, slotHash: int -> nat)
    requires Represents(a, contents, slotHash) && SameEntries(a, b)
    ensures Represents(b, contents, slotHash)
  {
    forall x | x in b && x.Full? ensures x in a && b[x] == a[x] {
    }
    forall k | k in contents ensures SlotOf(k, contents[k], slotHash) in b {
      var x := SlotOf(k, contents[k], slotHash);
      assert a[x] == b[x];
    }
  }

  lemma KeepsSame(st: seq<Slot>, st1: seq<Slot>, contents: map<int, int>, slotHash: int -> nat)
    requires Keeps(st, contents, slotHash) && multiset(st) == multiset(st1)
    ensures Keeps(st1, contents, slotHash) && |st| == |st1|
  {
    assert |multiset(st)| == |st| && |multiset(st1)| == |st1|;
  }

  /** Empty slots behind the table do not matter. */
  lemma KeepsPadded(st: seq<Slot>, pad: seq<Slot>, contents: map<int, int>, slotHash: int -> nat)
    requires forall i :: 0 <= i < |pad| ==> pad[i] == Empty
    ensures Keeps(st + pad, contents, slotHash) <==> Keeps(st, contents, slotHash)
  {
    AllEmpty(pad);
    assert multiset(st + pad) == multiset(st) + multiset(pad);
    assert SameEntries(multiset(st), multiset(st + pad)) && SameEntries(multiset(st + pad), multiset(st));
    if Represents(multiset(st), contents, slotHash) {
      SameRepresents(multiset(st), multiset(st + pad), contents, slotHash);
    }
    if Represents(multiset(st + pad), contents, slotHash) {
      SameRepresents(multiset(st + pad), multiset(st), contents, slotHash);
    }
  }

  lemma {:induction false} AllEmpty(pad: seq<Slot>)
    requires forall i :: 0 <= i < |pad| ==> pad[i] == Empty
    ensures multiset(pad)[Empty] == |pad| && forall x: Slot :: x.Full? ==> multiset(pad)[x] == 0
  {
    assert forall x: Slot :: x in multiset(pad) ==> x in pad;
    if pad != [] {
      AllEmpty(pad[1..]);
      assert pad == [pad[0]] + pad[1..];
    }
  }

  lemma KeepsRoom(st: seq<Slot>, n: nat, contents: map<int, int>, slotHash: int -> nat)
    requires Keeps(st, contents, slotHash) && |contents| < n <= |st|
    ensures multiset(st)[Empty] > |st| - n
  {
  }

  lemma Padded(st: seq<Slot>, st1: seq<Slot>, contents: map<int, int>, slotHash: int -> nat)
    requires |st| <= |st1| && st1[..|st|] == st && forall i :: |st| <= i < |st1| ==> st1[i] == Empty
    ensures Keeps(st1, contents, slotHash) <==> Keeps(st, contents, slotHash)
  {
    assert st1 == st + st1[|st|..];
    KeepsPadded(st, st1[|st|..], contents, slotHash);
  }

  lemma KeepsAdded(st0: seq<Slot>, st: seq<Slot>, key: int, value: int, contents: map<int, int>, slotHash: int -> nat)
    requires Keeps(st0, contents, slotHash) && key !in contents && Conserved(st0, SlotOf(key, value, slotHash), st, Empty)
    ensures Keeps(st, contents[key := value], slotHash)
  {
    var x := SlotOf(key, value, slotHash);
    var a, b := multiset(st0), multiset(st);
    assert x !in a;
    forall y: Slot ensures b[y] + (if y == Empty then 1 else 0) == a[y] + if y == x then 1 else 0 {
      assert (b + multiset{Empty})[y] == (a + multiset{x})[y];
    }
    var m := contents[key := value];
    forall k | k in m ensures SlotOf(k, m[k], slotHash) in b {
      if k != key {
        assert SlotOf(k, contents[k], slotHash) in a;
      }
    }
    assert |m| == |contents| + 1;
  }

  lemma KeepsRemoved(st0: seq<Slot>, index: nat, contents: map<int, int>, slotHash: int -> nat)
    requires Keeps(st0, contents, slotHash) && index < |st0| && st0[index].Full?
    ensures var key := st0[index].entry.key;
      key in contents && contents[key] == st0[index].entry.value && Keeps(st0[index := Empty], contents - {key}, slotHash)
    ensures |contents| == |contents - {st0[index].entry.key}| + 1
  {
    var x := st0[index];
    assert x in multiset(st0);
    var key := x.entry.key;
    var a, b, m := multiset(st0), multiset(st0[index := Empty]), contents - {key};
    MultisetUpdate(st0, index, Empty);
    forall y: Slot ensures b[y] + (if y == x then 1 else 0) == a[y] + if y == Empty then 1 else 0 {
      assert (b + multiset{x})[y] == (a + multiset{Empty})[y];
    }
    forall k | k in m ensures SlotOf(k, m[k], slotHash) in b {
      assert SlotOf(k, contents[k], slotHash) in a;
    }
    assert contents == m[key := contents[key]];
  }

  lemma MatchMeans(st: seq<Slot>, index: nat, key: int, contents: map<int, int>, slotHash: int -> nat)
    requires Keeps(st, contents, slotHash) && index < |st| && Matches(st[index], slotHash(key), key)
    ensures key in contents && st[index] == SlotOf(key, contents[key], slotHash)
  {
    assert st[index] in multiset(st);
  }

  lemma PresentMatches(st: seq<Slot>, key: int, contents: map<int, int>, slotHash: int -> nat)
    requires Keeps(st, contents, slotHash) && key in contents
    ensures exists j :: 0 <= j < |st| && Matches(st[j], slotHash(key), key)
  {
    var x := SlotOf(key, contents[key], slotHash);
    assert x in multiset(st);
    var j :| 0 <= j < |st| && st[j] == x;
    assert Matches(st[j], slotHash(key), key);
  }

  lemma NoMatchMeans(st: seq<Slot>, key: int, contents: map<int, int>, slotHash: int -> nat)
    requires Keeps(st, contents, slotHash) && NoMatch(st, slotHash(key), key)
    ensures key !in contents
  {
    hide Keeps;
    if key in contents {
      PresentMatches(st, key, contents, slotHash);
    }
  }

  lemma SlotParts(key: int, value: int, slotHash: int -> nat)
    ensures SlotOf(key, value, slotHash).Full? && SlotOf(key, value, slotHash).entry == Entry(key, value)
  {
  }

  lemma SlotIs(key: int, value: int, slotHash: int -> nat)
    ensures SlotOf(key, value, slotHash) == Full(slotHash(key), Entry(key, value))
  {
  }

  lemma MapGrows(m: map<int, int>, key: int, value: int)
    requires key !in m
    ensures |m[key := value]| == |m| + 1
  {
    assert m[key := value].Keys == m.Keys + {key};
  }
}
