/** Taking an item out of a chain: the last item of the chain takes its slot. */
module LinearChainRemove {
  import opened LinearChain
  import opened LinearChainOps

  lemma FlatLast(m: Mem, ns: seq<Bucket>)
    requires Counts(m, ns) && ns != []
    ensures Counts(m, ns[..|ns| - 1]) && ns[|ns| - 1] in m && m[ns[|ns| - 1]].count <= |m[ns[|ns| - 1]].slots|
    ensures multiset(Flat(m, ns)) == multiset(Flat(m, ns[..|ns| - 1])) + multiset(Used(m, ns[|ns| - 1]))
  {
  }

  lemma Exchange(a: multiset<Item>, b: multiset<Item>, c: multiset<Item>)
    ensures a + b + c == a + c + b
  {
  }

  lemma AddBoth(a: multiset<Item>, u: multiset<Item>, b: multiset<Item>, v: multiset<Item>, y: multiset<Item>)
    requires a + u == b + v
    ensures a + y + u == b + y + v
  {
    forall e ensures (a + y + u)[e] == (b + y + v)[e] {
      assert (a + u)[e] == (b + v)[e];
    }
  }

  /** When only bucket k has changed, the items have changed by what that bucket holds. */
  lemma {:induction false} OneBucket(m: Mem, m1: Mem, ns: seq<Bucket>, k: nat)
    requires Counts(m, ns) && Counts(m1, ns) && k < |ns| && forall i, j :: 0 <= i < j < |ns| ==> ns[i] != ns[j]
    requires forall b :: b in ns && b != ns[k] && b in m ==> b in m1 && m1[b] == m[b]
    ensures ns[k] in m && ns[k] in m1
    ensures multiset(Flat(m1, ns)) + multiset(Used(m, ns[k])) == multiset(Flat(m, ns)) + multiset(Used(m1, ns[k]))
  {
    if k == |ns| - 1 {
      TopBucket(m, m1, ns);
    } else {
      var z, y := ns[..|ns| - 1], ns[|ns| - 1];
      FlatLast(m, ns);
      FlatLast(m1, ns);
      assert y in ns && y != ns[k] && m1[y] == m[y];
      assert forall b :: b in z ==> b in ns;
      hide Flat;
      OneBucket(m, m1, z, k);
      hide Counts, Used;
      AddBoth(multiset(Flat(m1, z)), multiset(Used(m, ns[k])), multiset(Flat(m, z)), multiset(Used(m1, ns[k])), multiset(Used(m, y)));
    }
  }

  lemma TopBucket(m: Mem, m1: Mem, ns: seq<Bucket>)
    requires Counts(m, ns) && Counts(m1, ns) && ns != [] && forall i, j :: 0 <= i < j < |ns| ==> ns[i] != ns[j]
    requires forall b :: b in ns && b != ns[|ns| - 1] && b in m ==> b in m1 && m1[b] == m[b]
    ensures ns[|ns| - 1] in m && ns[|ns| - 1] in m1
    ensures multiset(Flat(m1, ns)) + multiset(Used(m, ns[|ns| - 1])) == multiset(Flat(m, ns)) + multiset(Used(m1, ns[|ns| - 1]))
  {
    var z, y := ns[..|ns| - 1], ns[|ns| - 1];
    FlatLast(m, ns);
    FlatLast(m1, ns);
    assert forall b :: b in z ==> b in ns && b != y;
    hide Flat;
    FlatSame(m, m1, z);
    hide Counts, Used;
    Exchange(multiset(Flat(m, z)), multiset(Used(m, y)), multiset(Used(m1, y)));
  }

  /** One item less; which one, is the same item of another list. */
  ghost predicate Less(s: seq<Item>, t: seq<Item>, x: Item) {
    multiset(t) + multiset{x} == multiset(s)
  }

  lemma ReplacedItem(s: seq<Item>, i: nat, y: Item)
    requires i < |s|
    ensures multiset(s[i := y]) + multiset{s[i]} == multiset(s) + multiset{y}
  {
    assert multiset(s[i := y]) == multiset(s) - multiset{s[i]} + multiset{y};
  }

  lemma DroppedItem(s: seq<Item>)
    requires s != []
    ensures multiset(s[..|s| - 1]) + multiset{s[|s| - 1]} == multiset(s)
  {
    assert s == s[..|s| - 1] + [s[|s| - 1]];
  }

  lemma Balance(a: multiset<Item>, a1: multiset<Item>, a2: multiset<Item>, u: multiset<Item>, u1: multiset<Item>, w: multiset<Item>,
                w1: multiset<Item>, x: multiset<Item>, y: multiset<Item>)
    requires a1 + u == a + u1 && u1 + x == u + y && a2 + w == a1 + w1 && w1 + y == w
    ensures a2 + x == a
  {
    forall e ensures (a2 + x)[e] == a[e] {
      assert (a1 + u)[e] == (a + u1)[e] && (u1 + x)[e] == (u + y)[e] && (a2 + w)[e] == (a1 + w1)[e] && (w1 + y)[e] == w[e];
    }
  }

  lemma SlotReplaced(m: Mem, ma: Mem, ns: seq<Bucket>, k: nat, i: nat, y: Item)
    requires Counts(m, ns) && k < |ns| && forall i, j :: 0 <= i < j < |ns| ==> ns[i] != ns[j]
    requires ns[k] in m && i < m[ns[k]].count <= |m[ns[k]].slots| && ma == m[ns[k] := m[ns[k]].(slots := m[ns[k]].slots[i := y])]
    ensures Counts(ma, ns) && multiset(Flat(ma, ns)) + multiset(Used(m, ns[k])) == multiset(Flat(m, ns)) + multiset(Used(ma, ns[k]))
    ensures multiset(Used(ma, ns[k])) + multiset{m[ns[k]].slots[i]} == multiset(Used(m, ns[k])) + multiset{y}
  {
    assert Used(ma, ns[k]) == Used(m, ns[k])[i := y];
    ReplacedItem(Used(m, ns[k]), i, y);
    OneBucket(m, ma, ns, k);
  }

  lemma CountLowered(ma: Mem, mb: Mem, ns: seq<Bucket>)
    requires Counts(ma, ns) && ns != [] && forall i, j :: 0 <= i < j < |ns| ==> ns[i] != ns[j]
    requires var z := ns[|ns| - 1]; z in ma && 0 < ma[z].count <= |ma[z].slots| && mb == ma[z := ma[z].(count := ma[z].count - 1)]
    ensures var z := ns[|ns| - 1];
      Counts(mb, ns) && multiset(Flat(mb, ns)) + multiset(Used(ma, z)) == multiset(Flat(ma, ns)) + multiset(Used(mb, z)) &&
      multiset(Used(mb, z)) + multiset{ma[z].slots[ma[z].count - 1]} == multiset(Used(ma, z))
  {
    var z := ns[|ns| - 1];
    assert Used(mb, z) == Used(ma, z)[..|Used(ma, z)| - 1];
    DroppedItem(Used(ma, z));
    OneBucket(ma, mb, ns, |ns| - 1);
  }

  /** The slot of the removed item is overwritten with the last item, and the count of the last bucket is one less. */
  lemma Overwritten(m: Mem, ma: Mem, mb: Mem, ns: seq<Bucket>, size: nat, k: nat, i: nat)
    requires Chain(m, ns, size) && k < |ns|
    requires var b, z := ns[k], ns[|ns| - 1];
      b in m && z in m && i < m[b].count <= |m[b].slots| && 0 < m[z].count <= |m[z].slots| &&
      ma == m[b := m[b].(slots := m[b].slots[i := m[z].slots[m[z].count - 1]])] && mb == ma[z := ma[z].(count := m[z].count - 1)]
    ensures Counts(m, ns) && Counts(mb, ns) && Less(Flat(m, ns), Flat(mb, ns), m[ns[k]].slots[i])
  {
    var b, z := ns[k], ns[|ns| - 1];
    var y := m[z].slots[m[z].count - 1];
    ChainCounts(m, ns, size);
    hide Flat, Counts, Chain;
    Distinct(m, ns, size);
    SlotReplaced(m, ma, ns, k, i, y);
    assert ma[z].slots[ma[z].count - 1] == y && ma[z].count == m[z].count && |ma[z].slots| == |m[z].slots|;
    CountLowered(ma, mb, ns);
    hide Used;
    Balance(multiset(Flat(m, ns)), multiset(Flat(ma, ns)), multiset(Flat(mb, ns)), multiset(Used(m, b)), multiset(Used(ma, b)),
            multiset(Used(ma, z)), multiset(Used(mb, z)), multiset{m[b].slots[i]}, multiset{y});
  }

  lemma Distinct(m: Mem, ns: seq<Bucket>, size: nat)
    requires Chain(m, ns, size)
    ensures forall i, j :: 0 <= i < j < |ns| ==> ns[i] != ns[j]
  {
  }

  lemma StillChain(m: Mem, ma: Mem, mb: Mem, ns: seq<Bucket>, size: nat, k: nat, i: nat)
    requires Chain(m, ns, size) && k < |ns|
    requires var b, z := ns[k], ns[|ns| - 1];
      b in m && z in m && i < |m[b].slots| && m[z].count > 1 && m[z].count <= |m[z].slots| &&
      ma == m[b := m[b].(slots := m[b].slots[i := m[z].slots[m[z].count - 1]])] && mb == ma[z := ma[z].(count := m[z].count - 1)]
    ensures Chain(mb, ns, size)
  {
    forall j | 0 <= j < |ns| ensures Node(mb, ns, size, j) && FullAt(mb, ns, size, j) {
      assert Node(m, ns, size, j) && FullAt(m, ns, size, j);
    }
  }

  /** The last bucket has become empty, and is unlinked. */
  lemma Unlinked(m: Mem, ma: Mem, mb: Mem, mc: Mem, ns: seq<Bucket>, size: nat, k: nat, i: nat)
    requires Chain(m, ns, size) && k < |ns|
    requires var b, z := ns[k], ns[|ns| - 1];
      b in m && z in m && i < |m[b].slots| && m[z].count == 1 <= |m[z].slots| &&
      ma == m[b := m[b].(slots := m[b].slots[i := m[z].slots[m[z].count - 1]])] && mb == ma[z := ma[z].(count := m[z].count - 1)]
    requires if |ns| == 1 then mc == mb else ns[|ns| - 2] in mb && mc == mb[ns[|ns| - 2] := mb[ns[|ns| - 2]].(next := null)]
    requires Counts(mb, ns)
    ensures Chain(mc, ns[..|ns| - 1], size) && Counts(mc, ns[..|ns| - 1]) && Flat(mc, ns[..|ns| - 1]) == Flat(mb, ns)
  {
    var ks := ns[..|ns| - 1];
    forall j | 0 <= j < |ks| ensures Node(mc, ks, size, j) && FullAt(mc, ks, size, j) {
      assert Node(m, ns, size, j) && FullAt(m, ns, size, j);
    }
    assert forall j :: 0 <= j < |ks| ==> ks[j] == ns[j];
    FlatRelinked(mb, mc, ks);
    assert Used(mb, ns[|ns| - 1]) == [];
  }

  /** Goes on to the last bucket. */
  method LastBucket(bucket0: Bucket, prev0: Bucket?, size: nat, ghost m: Mem, ghost head: Bucket?, ghost ns: seq<Bucket>, ghost k0: nat)
    returns (bucket: Bucket, prev: Bucket?)
    requires Mirrors(m) && Row(m, head, ns, size) && Cursor(ns, k0, bucket0, prev0)
    ensures |ns| > 0 && Cursor(ns, |ns| - 1, bucket, prev)
  {
    hide *;
    bucket, prev := bucket0, prev0;
    ghost var k := k0;
    CursorFacts(m, head, ns, size, k, bucket, prev);
    Peek(m, bucket);
    while bucket.next != null
      invariant k <= |ns| && Cursor(ns, k, bucket, prev) && bucket in m && bucket.next == m[bucket].next
      decreases |ns| - k
    {
      CursorFacts(m, head, ns, size, k, bucket, prev);
      prev, bucket := bucket, bucket.next;
      k := k + 1;
      CursorFacts(m, head, ns, size, k, bucket, prev);
      Peek(m, bucket);
    }
    CursorFacts(m, head, ns, size, k, bucket, prev);
    CursorEnd(m, head, ns, size, k, bucket, prev);
  }

  lemma CursorEnd(m: Mem, head: Bucket?, ns: seq<Bucket>, size: nat, k: nat, bucket: Bucket, prev: Bucket?)
    requires Row(m, head, ns, size) && k < |ns| && Cursor(ns, k, bucket, prev) && bucket in m && m[bucket].next == null
    ensures k == |ns| - 1
  {
    ChainNode(m, ns, size, k);
  }

  /** The chain has lost one item. */
  ghost predicate Shrunk(m: Mem, ns: seq<Bucket>, size: nat, m1: Mem, head1: Bucket?, ns1: seq<Bucket>, x: Item) {
    Chain(m, ns, size) && Row(m1, head1, ns1, size) && Elsewhere(m, m1, ns) && m1.Keys == m.Keys &&
    Less(Items(m, ns, size), Items(m1, ns1, size), x) && (forall b :: b in ns1 ==> b in ns)
  }

  lemma ShrunkInPlace(m: Mem, ma: Mem, mb: Mem, head: Bucket?, ns: seq<Bucket>, size: nat, k: nat, i: nat)
    requires Row(m, head, ns, size) && k < |ns|
    requires var b, z := ns[k], ns[|ns| - 1];
      b in m && z in m && i < m[b].count <= |m[b].slots| && m[z].count > 1 && m[z].count <= |m[z].slots| &&
      ma == m[b := m[b].(slots := m[b].slots[i := m[z].slots[m[z].count - 1]])] && mb == ma[z := ma[z].(count := m[z].count - 1)]
    ensures Shrunk(m, ns, size, mb, head, ns, m[ns[k]].slots[i])
  {
    Overwritten(m, ma, mb, ns, size, k, i);
    StillChain(m, ma, mb, ns, size, k, i);
    ItemsAre(m, ns, size);
    ItemsAre(mb, ns, size);
    assert ns[k] in ns && ns[|ns| - 1] in ns;
    hide Chain, Flat, Counts, Less, Items;
  }

  lemma ShrunkUnlinked(m: Mem, ma: Mem, mb: Mem, mc: Mem, head: Bucket?, head1: Bucket?, ns: seq<Bucket>, size: nat, k: nat, i: nat)
    requires Row(m, head, ns, size) && k < |ns|
    requires var b, z := ns[k], ns[|ns| - 1];
      b in m && z in m && i < m[b].count <= |m[b].slots| && m[z].count == 1 <= |m[z].slots| &&
      ma == m[b := m[b].(slots := m[b].slots[i := m[z].slots[m[z].count - 1]])] && mb == ma[z := ma[z].(count := m[z].count - 1)]
    requires if |ns| == 1 then mc == mb else ns[|ns| - 2] in mb && mc == mb[ns[|ns| - 2] := mb[ns[|ns| - 2]].(next := null)]
    requires head1 == if |ns| == 1 then null else head
    ensures Shrunk(m, ns, size, mc, head1, ns[..|ns| - 1], m[ns[k]].slots[i])
  {
    Overwritten(m, ma, mb, ns, size, k, i);
    Unlinked(m, ma, mb, mc, ns, size, k, i);
    ItemsAre(m, ns, size);
    ItemsAre(mc, ns[..|ns| - 1], size);
    UnlinkedElsewhere(m, ma, mb, mc, ns, k);
    hide Chain, Flat, Counts, Less, Items, Elsewhere;
  }

  lemma UnlinkedElsewhere(m: Mem, ma: Mem, mb: Mem, mc: Mem, ns: seq<Bucket>, k: nat)
    requires k < |ns| && ns[k] in m && ns[|ns| - 1] in m
    requires ma.Keys == m.Keys && mb.Keys == m.Keys && ma == m[ns[k] := ma[ns[k]]] && mb == ma[ns[|ns| - 1] := mb[ns[|ns| - 1]]]
    requires if |ns| == 1 then mc == mb else ns[|ns| - 2] in mb && mc == mb[ns[|ns| - 2] := mb[ns[|ns| - 2]].(next := null)]
    ensures Elsewhere(m, mc, ns) && mc.Keys == m.Keys
  {
    assert ns[k] in ns && ns[|ns| - 1] in ns && (|ns| > 1 ==> ns[|ns| - 2] in ns);
  }

  /** Takes an item out. */
  method RemoveItem(head: Bucket?, bucket: Bucket, prev: Bucket?, i: nat, size: nat, ghost m: Mem, ghost ns: seq<Bucket>, ghost k: nat)
    returns (data: int, head1: Bucket?, ghost m1: Mem, ghost ns1: seq<Bucket>)
    requires Mirrors(m) && Row(m, head, ns, size) && Cursor(ns, k, bucket, prev) && bucket in m && i < m[bucket].count <= |m[bucket].slots|
    modifies m.Keys
    ensures Mirrors(m1) && data == m[bucket].slots[i].data && Shrunk(m, ns, size, m1, head1, ns1, m[bucket].slots[i])
  {
    hide *;
    CursorFacts(m, head, ns, size, k, bucket, prev);
    Peek(m, bucket);
    data := bucket.slots[i].data;
    var z, before := LastBucket(bucket, prev, size, m, head, ns, k);
    CursorFacts(m, head, ns, size, |ns| - 1, z, before);
    Peek(m, z);
    var count := z.count - 1;
    ghost var ma := SetSlot(bucket, i, z.slots[count], m);
    ghost var mb := SetCount(z, count, ma);
    head1, m1, ns1 := head, mb, ns;
    assert ma == m[bucket := m[bucket].(slots := m[bucket].slots[i := m[z].slots[m[z].count - 1]])];
    assert mb == ma[z := ma[z].(count := m[z].count - 1)];
    if count == 0 {
      if before == null {
        head1 := null;
      } else {
        m1 := SetNext(before, null, mb);
      }
      ns1 := ns[..|ns| - 1];
      ShrunkUnlinked(m, ma, mb, m1, head, head1, ns, size, k, i);
    } else {
      ShrunkInPlace(m, ma, mb, head, ns, size, k, i);
    }
  }
}
