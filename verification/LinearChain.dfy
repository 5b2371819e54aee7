/** Chains of buckets of the linear hash table. */
module LinearChain {

  datatype Item = Item(key: int, data: int)

  /** A bucket has room for a fixed number of items, and the first count slots are in use. */
  class Bucket {
    var next: Bucket?
    var slots: seq<Item>
    var count: nat

    constructor (size: nat)
      ensures next == null && |slots| == size && count == 0
    {
      next, slots, count := null, seq(size, i => Item(0, 0)), 0;
    }
  }

  datatype Cell = Cell(next: Bucket?, slots: seq<Item>, count: nat)

  /** What the fields of the buckets are. */
  type Mem = map<Bucket, Cell>

  ghost predicate Mirrors(m: Mem)
    reads m.Keys
  {
    forall b :: b in m ==> Cell(b.next, b.slots, b.count) == m[b]
  }

  method SetNext(b: Bucket, next: Bucket?, ghost m: Mem) returns (ghost m1: Mem)
    requires Mirrors(m) && b in m
    modifies b
    ensures Mirrors(m1) && m1 == m[b := m[b].(next := next)]
  {
    b.next := next;
    m1 := m[b := m[b].(next := next)];
  }

  method SetSlot(b: Bucket, i: nat, item: Item, ghost m: Mem) returns (ghost m1: Mem)
    requires Mirrors(m) && b in m && i < |m[b].slots|
    modifies b
    ensures Mirrors(m1) && m1 == m[b := m[b].(slots := m[b].slots[i := item])]
  {
    b.slots := b.slots[i := item];
    m1 := m[b := m[b].(slots := m[b].slots[i := item])];
  }

  method SetCount(b: Bucket, count: nat, ghost m: Mem) returns (ghost m1: Mem)
    requires Mirrors(m) && b in m
    modifies b
    ensures Mirrors(m1) && m1 == m[b := m[b].(count := count)]
  {
    b.count := count;
    m1 := m[b := m[b].(count := count)];
  }

  lemma Peek(m: Mem, b: Bucket)
    requires Mirrors(m) && b in m
    ensures b.next == m[b].next && b.slots == m[b].slots && b.count == m[b].count
  {
  }

  // ---------------------------------------------------------------- chains

  ghost function Head(ns: seq<Bucket>): Bucket? {
    if ns == [] then null else ns[0]
  }

  /** What comes behind bucket k of a chain. */
  ghost function Behind(ns: seq<Bucket>, k: int): Bucket? {
    if 0 <= k + 1 < |ns| then ns[k + 1] else null
  }

  ghost predicate Node(m: Mem, ns: seq<Bucket>, size: nat, k: int)
    requires 0 <= k < |ns|
  {
    ns[k] in m && m[ns[k]].next == Behind(ns, k) && |m[ns[k]].slots| == size
  }

  /** The buckets ns are linked to a chain, and no bucket occurs twice. */
  ghost predicate Linked(m: Mem, ns: seq<Bucket>, size: nat) {
    (forall k {:trigger Node(m, ns, size, k)} :: 0 <= k < |ns| ==> Node(m, ns, size, k)) &&
    forall j, k :: 0 <= j < k < |ns| ==> ns[j] != ns[k]
  }

  ghost predicate FullAt(m: Mem, ns: seq<Bucket>, size: nat, k: int)
    requires 0 <= k < |ns|
  {
    ns[k] in m && 0 < m[ns[k]].count <= size && (k < |ns| - 1 ==> m[ns[k]].count == size)
  }

  /** All buckets but the last one are full, and the last one is not empty. */
  ghost predicate Filled(m: Mem, ns: seq<Bucket>, size: nat) {
    forall k {:trigger FullAt(m, ns, size, k)} :: 0 <= k < |ns| ==> FullAt(m, ns, size, k)
  }

  ghost predicate Chain(m: Mem, ns: seq<Bucket>, size: nat) {
    Linked(m, ns, size) && Filled(m, ns, size)
  }

  ghost function Used(m: Mem, b: Bucket): seq<Item>
    requires b in m && m[b].count <= |m[b].slots|
  {
    m[b].slots[..m[b].count]
  }

  ghost predicate Counts(m: Mem, ns: seq<Bucket>) {
    forall k :: 0 <= k < |ns| ==> ns[k] in m && m[ns[k]].count <= |m[ns[k]].slots|
  }

  /** The items of a chain, in order. */
  ghost function Flat(m: Mem, ns: seq<Bucket>): seq<Item>
    requires Counts(m, ns)
  {
    if ns == [] then [] else Flat(m, ns[..|ns| - 1]) + Used(m, ns[|ns| - 1])
  }

  lemma ChainCounts(m: Mem, ns: seq<Bucket>, size: nat)
    requires Chain(m, ns, size)
    ensures Counts(m, ns)
  {
    forall k | 0 <= k < |ns| ensures ns[k] in m && m[ns[k]].count <= |m[ns[k]].slots| {
      assert Node(m, ns, size, k) && FullAt(m, ns, size, k);
    }
  }

  lemma ChainNode(m: Mem, ns: seq<Bucket>, size: nat, k: nat)
    requires Chain(m, ns, size) && k < |ns|
    ensures ns[k] in m && m[ns[k]].next == Behind(ns, k) && |m[ns[k]].slots| == size && 0 < m[ns[k]].count <= size
    ensures m[ns[k]].count < size ==> k == |ns| - 1
  {
    assert Node(m, ns, size, k) && FullAt(m, ns, size, k);
  }

  ghost predicate Same(m: Mem, m1: Mem, ns: seq<Bucket>) {
    forall b :: b in ns && b in m ==> b in m1 && m1[b] == m[b]
  }

  lemma {:induction false} FlatSame(m: Mem, m1: Mem, ns: seq<Bucket>)
    requires Counts(m, ns) && Same(m, m1, ns)
    ensures Counts(m1, ns) && Flat(m1, ns) == Flat(m, ns)
  {
    forall k | 0 <= k < |ns| ensures ns[k] in m1 && m1[ns[k]] == m[ns[k]] {
      assert ns[k] in ns;
    }
    if ns != [] {
      var z := ns[..|ns| - 1];
      assert forall b :: b in z ==> b in ns;
      FlatSame(m, m1, z);
    }
  }

  lemma ChainSame(m: Mem, m1: Mem, ns: seq<Bucket>, size: nat)
    requires Chain(m, ns, size) && Same(m, m1, ns)
    ensures Chain(m1, ns, size)
  {
    forall k | 0 <= k < |ns| ensures Node(m1, ns, size, k) && FullAt(m1, ns, size, k) {
      assert ns[k] in ns;
      assert Node(m, ns, size, k) && FullAt(m, ns, size, k);
    }
  }

  lemma {:induction false} FlatUpto(m: Mem, ns: seq<Bucket>, k: nat)
    requires Counts(m, ns) && k < |ns|
    ensures Counts(m, ns[..k]) && Counts(m, ns[..k + 1]) && Flat(m, ns[..k + 1]) == Flat(m, ns[..k]) + Used(m, ns[k])
    ensures Flat(m, ns[..k + 1]) <= Flat(m, ns)
    decreases |ns|
  {
    assert ns[..k + 1][..k] == ns[..k];
    if k + 1 < |ns| {
      var z := ns[..|ns| - 1];
      FlatUpto(m, z, k);
      assert z[..k + 1] == ns[..k + 1] && z[..k] == ns[..k];
    } else {
      assert ns[..k + 1] == ns;
    }
  }

  lemma {:induction false} FlatAll(m: Mem, ns: seq<Bucket>, x: Item)
    requires Counts(m, ns)
    ensures x in Flat(m, ns) <==> exists k :: 0 <= k < |ns| && x in Used(m, ns[k])
  {
    if ns != [] {
      var z := ns[..|ns| - 1];
      FlatAll(m, z, x);
      if k :| 0 <= k < |ns| && x in Used(m, ns[k]) {
        assert k < |ns| - 1 ==> z[k] == ns[k];
      }
      if x in Flat(m, z) {
        var k :| 0 <= k < |z| && x in Used(m, z[k]);
        assert x in Used(m, ns[k]);
      }
    }
  }

  // ---------------------------------------------------------------- adding an item

  /** An item goes to the last bucket, which has room. */
  lemma Appended(m: Mem, m1: Mem, ns: seq<Bucket>, size: nat, item: Item)
    requires Chain(m, ns, size) && ns != []
    requires ns[|ns| - 1] in m && m[ns[|ns| - 1]].count < size == |m[ns[|ns| - 1]].slots|
    requires var z := ns[|ns| - 1];
      m1 == m[z := Cell(m[z].next, m[z].slots[m[z].count := item], m[z].count + 1)]
    ensures Chain(m1, ns, size) && Counts(m, ns) && Counts(m1, ns) && Flat(m1, ns) == Flat(m, ns) + [item]
  {
    var z := ns[|ns| - 1];
    forall k | 0 <= k < |ns| ensures Node(m1, ns, size, k) && FullAt(m1, ns, size, k) {
      assert Node(m, ns, size, k) && FullAt(m, ns, size, k);
    }
    ChainCounts(m, ns, size);
    ChainCounts(m1, ns, size);
    var y := ns[..|ns| - 1];
    assert forall b :: b in y ==> b != z;
    FlatSame(m, m1, y);
    assert Used(m1, z) == Used(m, z) + [item];
  }

  /** A new bucket with one item goes behind the chain. */
  lemma Extended(m: Mem, m1: Mem, ns: seq<Bucket>, size: nat, b: Bucket, slots: seq<Item>)
    requires Chain(m, ns, size) && b !in m && b !in ns && 0 < size == |slots|
    requires ns != [] ==> ns[|ns| - 1] in m && m[ns[|ns| - 1]].count == size
    requires m1.Keys == m.Keys + {b} && m1[b] == Cell(null, slots, 1)
    requires forall k :: 0 <= k < |ns| && ns[k] in m ==> m1[ns[k]] == if k == |ns| - 1 then m[ns[k]].(next := b) else m[ns[k]]
    ensures Chain(m1, ns + [b], size) && Counts(m, ns) && Counts(m1, ns + [b]) && Flat(m1, ns + [b]) == Flat(m, ns) + [slots[0]]
  {
    var ks := ns + [b];
    forall k | 0 <= k < |ks| ensures Node(m1, ks, size, k) && FullAt(m1, ks, size, k) {
      if k < |ns| {
        assert Node(m, ns, size, k) && FullAt(m, ns, size, k);
      }
    }
    ChainCounts(m, ns, size);
    ChainCounts(m1, ks, size);
    FlatRelinked(m, m1, ns);
    assert ks[..|ks| - 1] == ns;
    assert Used(m1, b) == [slots[0]];
  }

  /** Only links have changed. */
  lemma {:induction false} FlatRelinked(m: Mem, m1: Mem, ns: seq<Bucket>)
    requires Counts(m, ns)
    requires forall k :: 0 <= k < |ns| && ns[k] in m ==> ns[k] in m1 && m1[ns[k]].slots == m[ns[k]].slots && m1[ns[k]].count == m[ns[k]].count
    ensures Counts(m1, ns) && Flat(m1, ns) == Flat(m, ns)
  {
    if ns != [] {
      var z := ns[..|ns| - 1];
      assert forall k :: 0 <= k < |z| ==> z[k] == ns[k];
      FlatRelinked(m, m1, z);
    }
  }
}
