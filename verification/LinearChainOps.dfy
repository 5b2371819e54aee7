/** Searching a chain, adding an item to it, and taking one out. */
module LinearChainOps {
  import opened LinearChain

  ghost predicate HasKey(s: seq<Item>, key: int) {
    exists i :: 0 <= i < |s| && s[i].key == key
  }

  /** A chain in memory, reached by head. */
  ghost predicate Row(m: Mem, head: Bucket?, ns: seq<Bucket>, size: nat) {
    size > 0 && head == Head(ns) && Chain(m, ns, size)
  }

  ghost function Items(m: Mem, ns: seq<Bucket>, size: nat): seq<Item>
    requires Chain(m, ns, size)
  {
    ChainCounts(m, ns, size);
    Flat(m, ns)
  }

  lemma ItemsAre(m: Mem, ns: seq<Bucket>, size: nat)
    requires Chain(m, ns, size)
    ensures Counts(m, ns) && Items(m, ns, size) == Flat(m, ns)
  {
    ChainCounts(m, ns, size);
  }

  /** Only buckets of this chain, and new ones, are written. */
  ghost predicate Elsewhere(m: Mem, m1: Mem, ns: seq<Bucket>) {
    m.Keys <= m1.Keys && forall b :: b in m && b !in ns ==> m1[b] == m[b]
  }

  /** The position of a cursor in a chain. */
  ghost predicate Cursor(ns: seq<Bucket>, k: nat, bucket: Bucket?, prev: Bucket?) {
    k <= |ns| && bucket == (if k < |ns| then ns[k] else null) && prev == (if 0 < k then ns[k - 1] else null)
  }

  lemma CursorStart(m: Mem, head: Bucket?, ns: seq<Bucket>, size: nat)
    requires Row(m, head, ns, size)
    ensures Cursor(ns, 0, head, null) && Counts(m, ns) && Counts(m, ns[..0]) && Flat(m, ns[..0]) == []
  {
    ChainCounts(m, ns, size);
  }

  lemma CursorFacts(m: Mem, head: Bucket?, ns: seq<Bucket>, size: nat, k: nat, bucket: Bucket?, prev: Bucket?)
    requires Row(m, head, ns, size) && Cursor(ns, k, bucket, prev)
    ensures bucket != null <==> k < |ns|
    ensures prev == null <==> k == 0
    ensures bucket != null ==> bucket in m && ns[k] == bucket && 0 < m[bucket].count <= size == |m[bucket].slots|
    ensures bucket != null ==> Cursor(ns, k + 1, m[bucket].next, bucket)
    ensures bucket != null && m[bucket].count < size ==> k == |ns| - 1
    ensures prev != null ==> prev in m && prev == ns[k - 1]
    ensures Counts(m, ns) && Counts(m, ns[..k]) && (k == |ns| ==> ns[..k] == ns) && size > 0
    ensures bucket != null ==>
      Counts(m, ns[..k + 1]) && Flat(m, ns[..k + 1]) == Flat(m, ns[..k]) + Used(m, bucket) && Flat(m, ns[..k + 1]) <= Flat(m, ns)
  {
    ChainCounts(m, ns, size);
    if k < |ns| {
      ChainNode(m, ns, size, k);
      FlatUpto(m, ns, k);
    }
    if k > 0 {
      ChainNode(m, ns, size, k - 1);
      FlatUpto(m, ns, k - 1);
    }
  }

  lemma NoKeyJoin(s: seq<Item>, t: seq<Item>, key: int)
    ensures HasKey(s + t, key) <==> HasKey(s, key) || HasKey(t, key)
  {
    if HasKey(s, key) {
      var i :| 0 <= i < |s| && s[i].key == key;
      assert (s + t)[i].key == key;
    }
    if HasKey(t, key) {
      var i :| 0 <= i < |t| && t[i].key == key;
      assert (s + t)[|s| + i].key == key;
    }
  }

  lemma PrefixKey(s: seq<Item>, t: seq<Item>, key: int)
    requires s <= t && HasKey(s, key)
    ensures HasKey(t, key)
  {
    var i :| 0 <= i < |s| && s[i].key == key;
    assert t[i].key == key;
  }

  /** Looks for a key in one bucket. */
  method FindInBucket(bucket: Bucket, key: int, ghost m: Mem) returns (i: nat)
    requires Mirrors(m) && bucket in m && m[bucket].count <= |m[bucket].slots|
    ensures i <= m[bucket].count && (i < m[bucket].count ==> m[bucket].slots[i].key == key)
    ensures i == m[bucket].count ==> !HasKey(Used(m, bucket), key)
    ensures i < m[bucket].count ==> HasKey(Used(m, bucket), key)
  {
    Peek(m, bucket);
    i := 0;
    while i < bucket.count
      invariant 0 <= i <= bucket.count && forall j :: 0 <= j < i ==> bucket.slots[j].key != key
    {
      if key == bucket.slots[i].key {
        assert Used(m, bucket)[i].key == key;
        return;
      }
      i := i + 1;
    }
  }

  /** The item of a key. */
  method Find(head: Bucket?, key: int, size: nat, ghost m: Mem, ghost ns: seq<Bucket>)
    returns (bucket: Bucket?, prev: Bucket?, i: nat, ghost k: nat)
    requires Mirrors(m) && Row(m, head, ns, size)
    ensures bucket == null ==> !HasKey(Items(m, ns, size), key)
    ensures bucket != null ==> Cursor(ns, k, bucket, prev) && bucket in m && i < m[bucket].count <= |m[bucket].slots|
    ensures bucket != null ==> m[bucket].slots[i].key == key && HasKey(Items(m, ns, size), key)
  {
    hide *;
    ItemsOf(m, head, ns, size);
    bucket, prev, i, k := head, null, 0, 0;
    CursorStart(m, head, ns, size);
    NoKeyEmpty(key);
    while bucket != null
      invariant k <= |ns| && Cursor(ns, k, bucket, prev) && Counts(m, ns[..k]) && !HasKey(Flat(m, ns[..k]), key)
      decreases |ns| - k
    {
      CursorFacts(m, head, ns, size, k, bucket, prev);
      i := FindInBucket(bucket, key, m);
      Peek(m, bucket);
      NoKeyJoin(Flat(m, ns[..k]), Used(m, bucket), key);
      if i < bucket.count {
        PrefixKey(Flat(m, ns[..k + 1]), Flat(m, ns), key);
        return;
      }
      prev, bucket, k := bucket, bucket.next, k + 1;
    }
    CursorFacts(m, head, ns, size, k, bucket, prev);
  }

  lemma ItemsOf(m: Mem, head: Bucket?, ns: seq<Bucket>, size: nat)
    requires Row(m, head, ns, size)
    ensures Chain(m, ns, size) && Counts(m, ns) && Items(m, ns, size) == Flat(m, ns) && size > 0 && head == Head(ns)
  {
    ChainCounts(m, ns, size);
  }

  lemma NoKeyEmpty(key: int)
    ensures !HasKey([], key)
  {
  }

  // ---------------------------------------------------------------- adding

  /** The chain has got one more item at its end. */
  ghost predicate Grown(m: Mem, ns: seq<Bucket>, size: nat, m1: Mem, head1: Bucket?, ns1: seq<Bucket>, item: Item) {
    Chain(m, ns, size) && Row(m1, head1, ns1, size) && Elsewhere(m, m1, ns) && Items(m1, ns1, size) == Items(m, ns, size) + [item] &&
    (ns1 == ns || (exists b :: b in m1 && b !in m && ns1 == ns + [b]))
  }

  lemma GrownInPlace(m: Mem, m1: Mem, head: Bucket?, ns: seq<Bucket>, size: nat, item: Item)
    requires Row(m, head, ns, size) && ns != [] && ns[|ns| - 1] in m && m[ns[|ns| - 1]].count < size == |m[ns[|ns| - 1]].slots|
    requires var z := ns[|ns| - 1]; m1 == m[z := Cell(m[z].next, m[z].slots[m[z].count := item], m[z].count + 1)]
    ensures Grown(m, ns, size, m1, head, ns, item)
  {
    Appended(m, m1, ns, size, item);
    ItemsAre(m, ns, size);
    ItemsAre(m1, ns, size);
    assert ns[|ns| - 1] in ns;
    hide Chain, Flat, Counts;
  }

  lemma GrownBehind(m: Mem, m1: Mem, head: Bucket?, ns: seq<Bucket>, size: nat, b: Bucket, slots: seq<Item>, item: Item)
    requires Row(m, head, ns, size) && b !in m && |slots| == size && slots[0] == item
    requires ns != [] ==> ns[|ns| - 1] in m && m[ns[|ns| - 1]].count == size
    requires m1 == if ns == [] then m[b := Cell(null, slots, 1)] else m[b := Cell(null, slots, 1)][ns[|ns| - 1] := m[ns[|ns| - 1]].(next := b)]
    ensures Grown(m, ns, size, m1, if ns == [] then b else head, ns + [b], item)
  {
    NotIn(m, ns, size, b);
    BehindCells(m, m1, ns, size, b, slots);
    Extended(m, m1, ns, size, b, slots);
    ItemsAre(m, ns, size);
    ItemsAre(m1, ns + [b], size);
    BehindElsewhere(m, m1, ns, b, slots);
    assert Head(ns + [b]) == if ns == [] then b else head;
    hide Chain, Flat, Counts, Elsewhere, Items;
  }

  lemma BehindElsewhere(m: Mem, m1: Mem, ns: seq<Bucket>, b: Bucket, slots: seq<Item>)
    requires b !in m && (ns != [] ==> ns[|ns| - 1] in m)
    requires m1 == if ns == [] then m[b := Cell(null, slots, 1)] else m[b := Cell(null, slots, 1)][ns[|ns| - 1] := m[ns[|ns| - 1]].(next := b)]
    ensures Elsewhere(m, m1, ns)
  {
    if ns != [] {
      assert ns[|ns| - 1] in ns;
    }
  }

  lemma BehindCells(m: Mem, m1: Mem, ns: seq<Bucket>, size: nat, b: Bucket, slots: seq<Item>)
    requires Chain(m, ns, size) && b !in m && b !in ns && (ns != [] ==> ns[|ns| - 1] in m)
    requires m1 == if ns == [] then m[b := Cell(null, slots, 1)] else m[b := Cell(null, slots, 1)][ns[|ns| - 1] := m[ns[|ns| - 1]].(next := b)]
    ensures m1.Keys == m.Keys + {b} && m1[b] == Cell(null, slots, 1)
    ensures forall k :: 0 <= k < |ns| && ns[k] in m ==> m1[ns[k]] == if k == |ns| - 1 then m[ns[k]].(next := b) else m[ns[k]]
  {
  }

  lemma NotIn(m: Mem, ns: seq<Bucket>, size: nat, b: Bucket)
    requires Chain(m, ns, size) && b !in m
    ensures b !in ns
  {
    forall k | 0 <= k < |ns| ensures ns[k] != b {
      assert Node(m, ns, size, k);
    }
  }

  /** Puts an item into the first bucket with room, or into a new one; with check, a key that is there is found first. */
  method InsertInternal(head: Bucket?, item: Item, size: nat, check: bool, ghost m: Mem, ghost ns: seq<Bucket>)
    returns (found: bool, head1: Bucket?, ghost m1: Mem, ghost ns1: seq<Bucket>)
    requires Mirrors(m) && Row(m, head, ns, size)
    modifies m.Keys
    ensures Mirrors(m1) && fresh(m1.Keys - m.Keys)
    ensures found ==> m1 == m && ns1 == ns && head1 == head && check && HasKey(Items(m, ns, size), item.key)
    ensures !found ==> Grown(m, ns, size, m1, head1, ns1, item) && (check ==> !HasKey(Items(m, ns, size), item.key))
  {
    hide *;
    ItemsOf(m, head, ns, size);
    var bucket, prev: Bucket? := head, null;
    ghost var k := 0;
    head1, m1, ns1 := head, m, ns;
    CursorStart(m, head, ns, size);
    NoKeyEmpty(item.key);
    while bucket != null
      invariant k <= |ns| && Cursor(ns, k, bucket, prev) && Counts(m, ns[..k]) && (check ==> !HasKey(Flat(m, ns[..k]), item.key)) && Mirrors(m)
      invariant prev != null ==> prev in m && m[prev].count == size
      decreases |ns| - k
    {
      CursorFacts(m, head, ns, size, k, bucket, prev);
      NoKeyJoin(Flat(m, ns[..k]), Used(m, bucket), item.key);
      Peek(m, bucket);
      if check {
        var i := FindInBucket(bucket, item.key, m);
        if i < bucket.count {
          PrefixKey(Flat(m, ns[..k + 1]), Flat(m, ns), item.key);
          return true, head, m, ns;
        }
      }
      if bucket.count < size {
        found := false;
        m1 := Fill(bucket, item, m);
        LastNode(ns, k);
        assert m1 == m[bucket := Cell(m[bucket].next, m[bucket].slots[m[bucket].count := item], m[bucket].count + 1)];
        GrownInPlace(m, m1, head, ns, size, item);
        return;
      }
      prev, bucket, k := bucket, bucket.next, k + 1;
    }
    CursorFacts(m, head, ns, size, k, bucket, prev);
    found := false;
    var b := new Bucket(size);
    ghost var m0 := m[b := Cell(null, b.slots, 0)];
    NewMirrors(m, b);
    if prev == null {
      head1 := b;
      m1 := m0;
    } else {
      m1 := SetNext(prev, b, m0);
    }
    ghost var slots := b.slots[0 := item];
    m1 := Fill(b, item, m1);
    ns1 := ns + [b];
    NewLast(m, m0, m1, ns, k, prev, b, slots);
    GrownBehind(m, m1, head, ns, size, b, slots, item);
  }

  lemma LastNode(ns: seq<Bucket>, k: nat)
    requires |ns| > 0 && k == |ns| - 1
    ensures ns[..k + 1] == ns
  {
  }

  lemma NewMirrors(m: Mem, b: Bucket)
    requires Mirrors(m) && b !in m
    ensures Mirrors(m[b := Cell(b.next, b.slots, b.count)])
  {
  }

  lemma NewLast(m: Mem, m0: Mem, m1: Mem, ns: seq<Bucket>, k: nat, prev: Bucket?, b: Bucket, slots: seq<Item>)
    requires k == |ns| && b !in m && Cursor(ns, k, null, prev) && (prev != null ==> prev in m) && m0.Keys == m.Keys + {b}
    requires m0 == m[b := m0[b]] && m0[b].next == null && m0[b].count == 0 && |slots| == |m0[b].slots| > 0 && slots == m0[b].slots[0 := slots[0]]
    requires var m2 := if prev == null then m0 else m0[prev := m0[prev].(next := b)];
      m1 == m2[b := Cell(null, slots, 1)]
    ensures m1 == if ns == [] then m[b := Cell(null, slots, 1)] else m[b := Cell(null, slots, 1)][ns[|ns| - 1] := m[ns[|ns| - 1]].(next := b)]
  {
  }

  /** The next free slot of a bucket. */
  method Fill(bucket: Bucket, item: Item, ghost m: Mem) returns (ghost m1: Mem)
    requires Mirrors(m) && bucket in m && m[bucket].count < |m[bucket].slots|
    modifies bucket
    ensures Mirrors(m1) && m1 == m[bucket := Cell(m[bucket].next, m[bucket].slots[m[bucket].count := item], m[bucket].count + 1)]
  {
    Peek(m, bucket);
    var i := bucket.count;
    m1 := SetCount(bucket, i + 1, m);
    m1 := SetSlot(bucket, i, item, m1);
  }
}
