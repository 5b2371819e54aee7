/** The linear hash table: buckets are split one at a time as the table grows. */
module LinearHashing {
  import opened LinearChain
  import opened LinearChainOps
  import opened LinearChainRemove
  import opened LinearIndex
  import opened LinearSplit

  const THRESHOLD: nat := 7

  datatype Option = None | Some(data: int)

  /** What n and p are after one more bucket has been split. */
  function NextN(n: nat, p: nat): nat {
    if p + 1 == n then n * 2 else n
  }

  function NextP(n: nat, p: nat): nat {
    if p + 1 == n then 0 else p + 1
  }

  // ---------------------------------------------------------------- the rows and the map

  /** An item is in the row that its hash value names, exactly if it is in the map; and no row holds it twice. */
  ghost predicate Represents(rows: seq<seq<Item>>, contents: map<int, int>, hash: int -> nat, n: nat, p: nat) {
    p < n && |rows| == n + p &&
    (forall k, x {:trigger x in rows[k]} :: 0 <= k < |rows| ==>
      (x in rows[k] <==> Index(hash(x.key), n, p) == k && x.key in contents && contents[x.key] == x.data)) &&
    forall k, x {:trigger multiset(rows[k])[x]} :: 0 <= k < |rows| ==> multiset(rows[k])[x] <= 1
  }

  lemma RowOf(rows: seq<seq<Item>>, contents: map<int, int>, hash: int -> nat, n: nat, p: nat, key: int)
    requires Represents(rows, contents, hash, n, p)
    ensures Index(hash(key), n, p) < |rows|
    ensures key in contents <==> HasKey(rows[Index(hash(key), n, p)], key)
    ensures forall x :: x in rows[Index(hash(key), n, p)] && x.key == key ==> contents[key] == x.data
  {
    IndexInRange(hash(key), n, p);
    var row := rows[Index(hash(key), n, p)];
    if key in contents {
      assert Item(key, contents[key]) in row;
    }
    if HasKey(row, key) {
      var i :| 0 <= i < |row| && row[i].key == key;
      assert row[i] in row;
    }
  }

  lemma Inserted(rows: seq<seq<Item>>, contents: map<int, int>, hash: int -> nat, n: nat, p: nat, x: Item)
    requires Represents(rows, contents, hash, n, p) && x.key !in contents
    ensures var k := Index(hash(x.key), n, p);
      k < |rows| && Represents(rows[k := rows[k] + [x]], contents[x.key := x.data], hash, n, p)
  {
    IndexInRange(hash(x.key), n, p);
    var k := Index(hash(x.key), n, p);
    var rs, c := rows[k := rows[k] + [x]], contents[x.key := x.data];
    assert x !in rows[k];
    forall j, y: Item | 0 <= j < |rs| ensures y in rs[j] <==> Index(hash(y.key), n, p) == j && y.key in c && c[y.key] == y.data {
      if j == k {
        assert y in rs[k] <==> y in rows[k] || y == x;
      } else {
        assert rs[j] == rows[j];
      }
      assert y in rows[j] <==> Index(hash(y.key), n, p) == j && y.key in contents && contents[y.key] == y.data;
    }
    forall j, y: Item | 0 <= j < |rs| ensures multiset(rs[j])[y] <= 1 {
      assert multiset(rows[j])[y] <= 1;
      if j == k {
        assert multiset(rs[k]) == multiset(rows[k]) + multiset{x};
        if y == x {
          assert x !in multiset(rows[k]);
        }
      }
    }
  }

  lemma LessIs(s: seq<Item>, t: seq<Item>, x: Item, y: Item)
    requires Less(s, t, x) && forall z :: multiset(s)[z] <= 1
    ensures x in s && (y in t <==> y in s && y != x) && multiset(t)[y] <= 1
  {
    assert multiset(s)[y] == multiset(t)[y] + multiset{x}[y];
    assert multiset(s)[x] == multiset(t)[x] + 1;
    assert x in multiset(s);
    assert y in t <==> y in multiset(t);
    assert y in s <==> y in multiset(s);
  }

  lemma Erased(rows: seq<seq<Item>>, contents: map<int, int>, hash: int -> nat, n: nat, p: nat, x: Item, row: seq<Item>)
    requires Represents(rows, contents, hash, n, p) && Index(hash(x.key), n, p) < |rows| && Less(rows[Index(hash(x.key), n, p)], row, x)
    ensures x.key in contents && contents[x.key] == x.data
    ensures Represents(rows[Index(hash(x.key), n, p) := row], contents - {x.key}, hash, n, p)
  {
    var k := Index(hash(x.key), n, p);
    var rs, c := rows[k := row], contents - {x.key};
    assert forall z :: multiset(rows[k])[z] <= 1;
    LessIs(rows[k], row, x, x);
    assert x in rows[k];
    forall j, y: Item | 0 <= j < |rs| ensures y in rs[j] <==> Index(hash(y.key), n, p) == j && y.key in c && c[y.key] == y.data {
      if j == k {
        LessIs(rows[k], row, x, y);
      }
      assert y in rows[j] <==> Index(hash(y.key), n, p) == j && y.key in contents && contents[y.key] == y.data;
    }
    forall j, y: Item | 0 <= j < |rs| ensures multiset(rs[j])[y] <= 1 {
      assert multiset(rows[j])[y] <= 1;
      if j == k {
        LessIs(rows[k], row, x, y);
      }
    }
  }

  lemma {:induction false} PickedCounts(s: seq<Item>, hash: int -> nat, n: nat, p: nat, idx: nat, x: Item)
    requires n > 0
    ensures multiset(Picked(s, hash, n, p, idx))[x] <= multiset(s)[x]
  {
    if s != [] {
      PickedCounts(s[..|s| - 1], hash, n, p, idx, x);
      assert s == s[..|s| - 1] + [s[|s| - 1]];
    }
  }

  ghost function SplitRows(rows: seq<seq<Item>>, hash: int -> nat, n: nat, p: nat): (rs: seq<seq<Item>>)
    requires p < n && |rows| == n + p
    ensures |rs| == |rows| + 1
  {
    rows[p := Picked(rows[p], hash, NextN(n, p), NextP(n, p), p)] + [Picked(rows[p], hash, NextN(n, p), NextP(n, p), n + p)]
  }

  lemma SplitRowIs(rows: seq<seq<Item>>, hash: int -> nat, n: nat, p: nat, j: nat)
    requires p < n && |rows| == n + p && j <= n + p
    ensures SplitRows(rows, hash, n, p)[j] ==
      if j == p || j == n + p then Picked(rows[p], hash, NextN(n, p), NextP(n, p), j) else rows[j]
  {
  }

  lemma SplitMember(rows: seq<seq<Item>>, contents: map<int, int>, hash: int -> nat, n: nat, p: nat, j: nat, y: Item)
    requires Represents(rows, contents, hash, n, p) && j <= n + p
    ensures y in SplitRows(rows, hash, n, p)[j] <==>
      Index(hash(y.key), NextN(n, p), NextP(n, p)) == j && y.key in contents && contents[y.key] == y.data
  {
    IndexAfterSplit(hash(y.key), n, p);
    IndexInRange(hash(y.key), n, p);
    SplitRowIs(rows, hash, n, p, j);
    var i := if j == n + p then p else j;
    PickedIs(rows[p], hash, NextN(n, p), NextP(n, p), j, y);
    assert y in rows[i] <==> Index(hash(y.key), n, p) == i && y.key in contents && contents[y.key] == y.data;
    hide Represents, SplitRows, Index, Picked;
  }

  lemma SplitCount(rows: seq<seq<Item>>, contents: map<int, int>, hash: int -> nat, n: nat, p: nat, j: nat, y: Item)
    requires Represents(rows, contents, hash, n, p) && j <= n + p
    ensures multiset(SplitRows(rows, hash, n, p)[j])[y] <= 1
  {
    SplitRowIs(rows, hash, n, p, j);
    var i := if j == n + p then p else j;
    PickedCounts(rows[p], hash, NextN(n, p), NextP(n, p), j, y);
    assert multiset(rows[i])[y] <= 1;
  }

  /** The table is the same map after a split. */
  lemma Split(rows: seq<seq<Item>>, contents: map<int, int>, hash: int -> nat, n: nat, p: nat)
    requires Represents(rows, contents, hash, n, p)
    ensures Represents(SplitRows(rows, hash, n, p), contents, hash, NextN(n, p), NextP(n, p))
  {
    var rs := SplitRows(rows, hash, n, p);
    assert |rs| == n + p + 1;
    hide SplitRows, Index, Picked;
    forall j, y: Item | 0 <= j < |rs|
      ensures y in rs[j] <==> Index(hash(y.key), NextN(n, p), NextP(n, p)) == j && y.key in contents && contents[y.key] == y.data
    {
      SplitMember(rows, contents, hash, n, p, j, y);
    }
    forall j, y: Item | 0 <= j < |rs| ensures multiset(rs[j])[y] <= 1 {
      SplitCount(rows, contents, hash, n, p, j, y);
    }
  }

  /** All items of the bucket that is split belong to it or to the new one. */
  lemma SplitBelongs(rows: seq<seq<Item>>, contents: map<int, int>, hash: int -> nat, n: nat, p: nat, x: Item)
    requires Represents(rows, contents, hash, n, p) && x in rows[p]
    ensures Belongs(Rule(hash, NextN(n, p), NextP(n, p), p, n + p), x)
  {
    IndexAfterSplit(hash(x.key), n, p);
  }

  // ---------------------------------------------------------------- the chains in memory

  /** Row k is the chain k. */
  ghost predicate RowAt(m: Mem, heads: seq<Bucket?>, chains: seq<seq<Bucket>>, rows: seq<seq<Item>>, size: nat, k: int) {
    0 <= k < |heads| && |heads| == |chains| == |rows| ==>
      Row(m, heads[k], chains[k], size) && Items(m, chains[k], size) == rows[k] && forall b :: b in chains[k] ==> b in m
  }

  ghost predicate Layout(m: Mem, heads: seq<Bucket?>, chains: seq<seq<Bucket>>, rows: seq<seq<Item>>, size: nat) {
    size > 0 && |heads| == |chains| == |rows| &&
    (forall k {:trigger RowAt(m, heads, chains, rows, size, k)} :: 0 <= k < |heads| ==> RowAt(m, heads, chains, rows, size, k)) &&
    forall j, k {:trigger NoneShared(chains[j], chains[k])} :: 0 <= j < |chains| && 0 <= k < |chains| && j != k ==> NoneShared(chains[j], chains[k])
  }

  lemma LayoutRow(m: Mem, heads: seq<Bucket?>, chains: seq<seq<Bucket>>, rows: seq<seq<Item>>, size: nat, k: nat)
    requires Layout(m, heads, chains, rows, size) && k < |heads|
    ensures |heads| == |chains| == |rows| && Row(m, heads[k], chains[k], size) && Chain(m, chains[k], size) && Items(m, chains[k], size) == rows[k]
    ensures size > 0
  {
    assert RowAt(m, heads, chains, rows, size, k);
  }

  lemma InMemory(m: Mem, head: Bucket?, ns: seq<Bucket>, size: nat)
    requires Row(m, head, ns, size)
    ensures forall b :: b in ns ==> b in m
  {
    forall b | b in ns ensures b in m {
      var k :| 0 <= k < |ns| && ns[k] == b;
      ChainNode(m, ns, size, k);
    }
  }

  /** One chain has changed; buckets that it has got are new. */
  lemma LayoutChanged(m: Mem, m1: Mem, heads: seq<Bucket?>, chains: seq<seq<Bucket>>, rows: seq<seq<Item>>, size: nat, k: nat,
                      head: Bucket?, ns: seq<Bucket>, row: seq<Item>)
    requires Layout(m, heads, chains, rows, size) && k < |heads| && Elsewhere(m, m1, chains[k])
    requires Row(m1, head, ns, size) && Items(m1, ns, size) == row && forall b :: b in ns ==> b in chains[k] || b !in m
    ensures Layout(m1, heads[k := head], chains[k := ns], rows[k := row], size)
  {
    var hs, cs, rs := heads[k := head], chains[k := ns], rows[k := row];
    forall j | 0 <= j < |hs| ensures RowAt(m1, hs, cs, rs, size, j) {
      assert RowAt(m, heads, chains, rows, size, j);
      if j == k {
        InMemory(m1, head, ns, size);
      } else {
        assert NoneShared(chains[j], chains[k]);
        RowKept(m, m1, heads[j], chains[j], size);
      }
    }
    forall i, j | 0 <= i < |cs| && 0 <= j < |cs| && i != j ensures NoneShared(cs[i], cs[j]) {
      assert NoneShared(chains[i], chains[j]);
      assert RowAt(m, heads, chains, rows, size, i) && RowAt(m, heads, chains, rows, size, j);
    }
  }

  /** A new chain of new buckets comes at the end. */
  lemma LayoutExtended(m: Mem, heads: seq<Bucket?>, chains: seq<seq<Bucket>>, rows: seq<seq<Item>>, size: nat, head: Bucket?, ns: seq<Bucket>, row: seq<Item>)
    requires Layout(m, heads, chains, rows, size) && Row(m, head, ns, size) && Items(m, ns, size) == row
    requires forall j :: 0 <= j < |chains| ==> NoneShared(chains[j], ns)
    ensures Layout(m, heads + [head], chains + [ns], rows + [row], size)
  {
    var hs, cs, rs := heads + [head], chains + [ns], rows + [row];
    forall j | 0 <= j < |hs| ensures RowAt(m, hs, cs, rs, size, j) {
      if j < |heads| {
        assert RowAt(m, heads, chains, rows, size, j);
      } else {
        InMemory(m, head, ns, size);
      }
    }
    forall i, j | 0 <= i < |cs| && 0 <= j < |cs| && i != j ensures NoneShared(cs[i], cs[j]) {
      if i < |chains| && j < |chains| {
        assert NoneShared(chains[i], chains[j]);
      } else if i < |chains| {
        assert NoneShared(chains[i], ns);
      } else {
        assert NoneShared(chains[j], ns);
      }
    }
  }

  /** A chain has been split. */
  lemma LayoutSplit(m: Mem, m1: Mem, heads: seq<Bucket?>, chains: seq<seq<Bucket>>, rows: seq<seq<Item>>, size: nat, p: nat, k: Rule,
                    head: Bucket?, ns: seq<Bucket>, thead: Bucket?, ts: seq<Bucket>)
    requires Layout(m, heads, chains, rows, size) && p < |heads| && SplitDone(m, chains[p], size, m1, head, ns, thead, ts, k)
    requires Items(m, chains[p], size) == rows[p]
    ensures Layout(m1, heads[p := head] + [thead], chains[p := ns] + [ts], rows[p := Staying(k, rows[p])] + [Moving(k, rows[p])], size)
  {
    hide Chain, Row, Items;
    LayoutChanged(m, m1, heads, chains, rows, size, p, head, ns, Staying(k, rows[p]));
    var cs := chains[p := ns];
    forall j | 0 <= j < |chains| ensures NoneShared(cs[j], ts) {
      assert RowAt(m, heads, chains, rows, size, j);
    }
    LayoutExtended(m1, heads[p := head], chains[p := ns], rows[p := Staying(k, rows[p])], size, thead, ts, Moving(k, rows[p]));
  }

  // ---------------------------------------------------------------- the table

  class Table {
    const hash: int -> nat
    const bucketSize: nat
    var heads: seq<Bucket?>
    var n: nat
    var p: nat
    var numItems: nat
    /** The fields of the buckets, the buckets of each chain and their items, and the map that the table is. */
    ghost var mem: Mem
    ghost var chains: seq<seq<Bucket>>
    ghost var rows: seq<seq<Item>>
    ghost var contents: map<int, int>

    ghost predicate Valid()
      reads this, mem.Keys
    {
      Mirrors(mem) && Layout(mem, heads, chains, rows, bucketSize) && Represents(rows, contents, hash, n, p) && numItems == |contents|
    }

    constructor (numBuckets: nat, size: nat, hash: int -> nat)
      requires numBuckets > 0 && size > 0
      ensures Valid() && contents == map[] && this.hash == hash && mem == map[]
      ensures this.bucketSize == size && this.n == numBuckets && this.p == 0
    {
      this.hash, bucketSize, n, p, numItems := hash, size, numBuckets, 0, 0;
      heads := seq(numBuckets, i => null);
      mem, chains, rows, contents := map[], seq(numBuckets, i => []), seq(numBuckets, i => []), map[];
      new;
      forall k | 0 <= k < |heads| ensures RowAt(mem, heads, chains, rows, bucketSize, k) {
        EmptyRow(mem, bucketSize);
      }
    }

    lemma Unfold()
      requires Valid()
      ensures Mirrors(mem) && Layout(mem, heads, chains, rows, bucketSize) && Represents(rows, contents, hash, n, p) && numItems == |contents|
      ensures p < n && |rows| == |heads| == |chains| == n + p && bucketSize > 0
    {
    }

    lemma Fold()
      requires Mirrors(mem) && Layout(mem, heads, chains, rows, bucketSize) && Represents(rows, contents, hash, n, p) && numItems == |contents|
      ensures Valid()
    {
    }

    /** Splits the next bucket. */
    method Grow()
      requires Mirrors(mem) && Layout(mem, heads, chains, rows, bucketSize) && Represents(rows, contents, hash, n, p)
      modifies this, mem.Keys
      ensures Mirrors(mem) && Layout(mem, heads, chains, rows, bucketSize) && Represents(rows, contents, hash, n, p)
      ensures contents == old(contents) && numItems == old(numItems) && fresh(mem.Keys - old(mem.Keys))
      ensures n == NextN(old(n), old(p)) && p == NextP(old(n), old(p))
    {
      hide *;
      SizesAre(mem, heads, chains, rows, bucketSize, contents, hash, n, p);
      var oldP, numBuckets := p, n + p;
      var n1, p1 := NextN(n, p), NextP(n, p);
      ghost var k := Rule(hash, n1, p1, oldP, numBuckets);
      LayoutRow(mem, heads, chains, rows, bucketSize, oldP);
      SplitRule(mem, chains[oldP], bucketSize, rows, contents, hash, n, p, k);
      Split(rows, contents, hash, n, p);
      ghost var m1, ns1, ts;
      var head1, thead;
      head1, thead, m1, ns1, ts := SplitBucket(heads[oldP], bucketSize, hash, n1, p1, oldP, mem, chains[oldP], k);
      LayoutSplit(mem, m1, heads, chains, rows, bucketSize, oldP, k, head1, ns1, thead, ts);
      PickedRule(k, rows[oldP]);
      SplitRowsAre(rows, hash, n, p);
      heads := heads[oldP := head1] + [thead];
      rows := rows[oldP := Staying(k, rows[oldP])] + [Moving(k, rows[oldP])];
      chains, mem := chains[oldP := ns1] + [ts], m1;
      n, p := n1, p1;
    }

    /** One more bucket if the table is filled by more than seven tenths. */
    method MaybeGrow()
      requires Mirrors(mem) && Layout(mem, heads, chains, rows, bucketSize) && Represents(rows, contents, hash, n, p)
      modifies this, mem.Keys
      ensures Mirrors(mem) && Layout(mem, heads, chains, rows, bucketSize) && Represents(rows, contents, hash, n, p)
      ensures contents == old(contents) && numItems == old(numItems) && fresh(mem.Keys - old(mem.Keys))
      ensures old(numItems) * 10 > THRESHOLD * ((old(n) + old(p)) * bucketSize) <==> n + p == old(n) + old(p) + 1
      ensures if old(numItems) * 10 > THRESHOLD * ((old(n) + old(p)) * bucketSize)
        then n == NextN(old(n), old(p)) && p == NextP(old(n), old(p)) else n == old(n) && p == old(p) && mem == old(mem)
    {
      hide *;
      var baseCapacity := (n + p) * bucketSize;
      if numItems * 10 > THRESHOLD * baseCapacity {
        NextSum(rows, contents, hash, n, p);
        Grow();
      }
    }

    /** One chain, its row and the map have changed. */
    method Install(idx: nat, head1: Bucket?, count: nat, ghost m1: Mem, ghost ns1: seq<Bucket>, ghost row: seq<Item>, ghost c: map<int, int>)
      requires idx < |heads| == |chains| == |rows| && Mirrors(m1) && count == |c|
      requires Layout(m1, heads[idx := head1], chains[idx := ns1], rows[idx := row], bucketSize)
      requires Represents(rows[idx := row], c, hash, n, p)
      modifies this
      ensures Valid() && contents == c && mem == m1 && n == old(n) && p == old(p)
    {
      hide *;
      heads, numItems := heads[idx := head1], count;
      rows, chains, mem, contents := rows[idx := row], chains[idx := ns1], m1, c;
      Fold();
    }

    /** The chain that a new item goes to. */
    method Place(key: int, data: int) returns (exists_: bool)
      requires Mirrors(mem) && Layout(mem, heads, chains, rows, bucketSize) && Represents(rows, contents, hash, n, p)
      requires numItems == |contents| + 1
      modifies this, mem.Keys
      ensures Valid() && exists_ == (key in old(contents)) && fresh(mem.Keys - old(mem.Keys))
      ensures contents == (if exists_ then old(contents) else old(contents)[key := data]) && n == old(n) && p == old(p)
    {
      hide *;
      SizesAre(mem, heads, chains, rows, bucketSize, contents, hash, n, p);
      RowOf(rows, contents, hash, n, p, key);
      var idx := Index(hash(key), n, p);
      LayoutRow(mem, heads, chains, rows, bucketSize, idx);
      ghost var m := mem;
      var x := Item(key, data);
      ghost var m1, ns1;
      var head1;
      exists_, head1, m1, ns1 := InsertInternal(heads[idx], x, bucketSize, true, m, chains[idx]);
      if exists_ {
        numItems := numItems - 1;
        Fold();
      } else {
        GrownFacts(m, chains[idx], bucketSize, m1, head1, ns1, x);
        NewOnly(m, m1, chains[idx], ns1);
        LayoutChanged(m, m1, heads, chains, rows, bucketSize, idx, head1, ns1, rows[idx] + [x]);
        Inserted(rows, contents, hash, n, p, x);
        Install(idx, head1, numItems, m1, ns1, rows[idx] + [x], contents[key := data]);
      }
    }

    /** Adds a key, unless it is there already. */
    method Insert(key: int, data: int) returns (exists_: bool)
      requires Valid()
      modifies this, mem.Keys
      ensures Valid() && exists_ == (key in old(contents)) && fresh(mem.Keys - old(mem.Keys))
      ensures contents == if exists_ then old(contents) else old(contents)[key := data]
      ensures if old((numItems + 1) * 10 > THRESHOLD * ((n + p) * bucketSize))
        then n == NextN(old(n), old(p)) && p == NextP(old(n), old(p)) else n == old(n) && p == old(p)
    {
      hide *;
      Unfold();
      numItems := numItems + 1;
      MaybeGrow();
      exists_ := Place(key, data);
    }

    /** Looks up a key. */
    method Get(key: int) returns (r: Option)
      requires Valid()
      ensures r == if key in contents then Some(contents[key]) else None
    {
      hide *;
      Unfold();
      RowOf(rows, contents, hash, n, p, key);
      var idx := Index(hash(key), n, p);
      LayoutRow(mem, heads, chains, rows, bucketSize, idx);
      ghost var k;
      var bucket, prev, i;
      bucket, prev, i, k := Find(heads[idx], key, bucketSize, mem, chains[idx]);
      if bucket == null {
        return None;
      }
      SlotInRow(mem, heads[idx], chains[idx], bucketSize, k, bucket, prev, i);
      Peek(mem, bucket);
      r := Some(bucket.slots[i].data);
    }

    /** Takes a key out. */
    method Remove(key: int) returns (r: Option)
      requires Valid()
      modifies this, mem.Keys
      ensures Valid() && r == (if key in old(contents) then Some(old(contents)[key]) else None) && mem.Keys == old(mem.Keys)
      ensures contents == old(contents) - {key} && n == old(n) && p == old(p)
    {
      hide *;
      Unfold();
      RowOf(rows, contents, hash, n, p, key);
      var idx := Index(hash(key), n, p);
      LayoutRow(mem, heads, chains, rows, bucketSize, idx);
      ghost var k, m1, ns1;
      var bucket, prev, i;
      bucket, prev, i, k := Find(heads[idx], key, bucketSize, mem, chains[idx]);
      if bucket == null {
        assert contents - {key} == contents;
        return None;
      }
      SlotInRow(mem, heads[idx], chains[idx], bucketSize, k, bucket, prev, i);
      ghost var m, x := mem, mem[bucket].slots[i];
      var data, head1;
      data, head1, m1, ns1 := RemoveItem(heads[idx], bucket, prev, i, bucketSize, m, chains[idx], k);
      ShrunkFacts(m, chains[idx], bucketSize, m1, head1, ns1, x);
      ghost var row := Items(m1, ns1, bucketSize);
      LayoutChanged(m, m1, heads, chains, rows, bucketSize, idx, head1, ns1, row);
      Erased(rows, contents, hash, n, p, x, row);
      OneLess(contents, key);
      r := Some(data);
      Install(idx, head1, numItems - 1, m1, ns1, row, contents - {key});
    }
  }

  lemma SizesAre(m: Mem, heads: seq<Bucket?>, chains: seq<seq<Bucket>>, rows: seq<seq<Item>>, size: nat, contents: map<int, int>,
                 hash: int -> nat, n: nat, p: nat)
    requires Layout(m, heads, chains, rows, size) && Represents(rows, contents, hash, n, p)
    ensures p < n && |rows| == |heads| == |chains| == n + p && size > 0 && 0 < NextN(n, p)
  {
  }

  lemma SplitRowsAre(rows: seq<seq<Item>>, hash: int -> nat, n: nat, p: nat)
    requires p < n && |rows| == n + p
    ensures SplitRows(rows, hash, n, p) ==
      rows[p := Picked(rows[p], hash, NextN(n, p), NextP(n, p), p)] + [Picked(rows[p], hash, NextN(n, p), NextP(n, p), n + p)]
  {
  }

  lemma NextSum(rows: seq<seq<Item>>, contents: map<int, int>, hash: int -> nat, n: nat, p: nat)
    requires Represents(rows, contents, hash, n, p)
    ensures NextN(n, p) + NextP(n, p) == n + p + 1
  {
  }

  lemma SplitRule(m: Mem, ns: seq<Bucket>, size: nat, rows: seq<seq<Item>>, contents: map<int, int>, hash: int -> nat, n: nat, p: nat, k: Rule)
    requires Represents(rows, contents, hash, n, p) && Chain(m, ns, size) && Items(m, ns, size) == rows[p]
    requires k == Rule(hash, NextN(n, p), NextP(n, p), p, n + p)
    ensures RuleOk(k) && AllBelong(m, ns, size, k)
  {
    forall x | x in Items(m, ns, size) ensures Belongs(k, x) {
      SplitBelongs(rows, contents, hash, n, p, x);
    }
    hide Represents, Chain;
  }

  lemma PickedRule(k: Rule, s: seq<Item>)
    requires k.n > 0
    ensures Staying(k, s) == Picked(s, k.hash, k.n, k.p, k.idx) && Moving(k, s) == Picked(s, k.hash, k.n, k.p, k.newIdx)
  {
  }

  lemma NewOnly(m: Mem, m1: Mem, ns: seq<Bucket>, ns1: seq<Bucket>)
    requires ns1 == ns || exists b :: b in m1 && b !in m && ns1 == ns + [b]
    ensures forall b :: b in ns1 ==> b in ns || b !in m
  {
  }

  lemma ShrunkFacts(m: Mem, ns: seq<Bucket>, size: nat, m1: Mem, head1: Bucket?, ns1: seq<Bucket>, x: Item)
    requires Shrunk(m, ns, size, m1, head1, ns1, x)
    ensures Chain(m, ns, size) && Row(m1, head1, ns1, size) && Chain(m1, ns1, size) && Elsewhere(m, m1, ns) && m1.Keys == m.Keys
    ensures Less(Items(m, ns, size), Items(m1, ns1, size), x) && forall b :: b in ns1 ==> b in ns
  {
  }

  lemma SlotInRow(m: Mem, head: Bucket?, ns: seq<Bucket>, size: nat, k: nat, bucket: Bucket, prev: Bucket?, i: nat)
    requires Row(m, head, ns, size) && Cursor(ns, k, bucket, prev) && bucket in m && i < m[bucket].count <= |m[bucket].slots|
    ensures Chain(m, ns, size) && m[bucket].slots[i] in Items(m, ns, size)
  {
    ChainCounts(m, ns, size);
    ItemsAre(m, ns, size);
    FlatAll(m, ns, m[bucket].slots[i]);
    assert Used(m, bucket)[i] in Used(m, bucket);
    hide Chain;
  }

  lemma OneLess(contents: map<int, int>, key: int)
    requires key in contents
    ensures |contents - {key}| == |contents| - 1
  {
    assert (contents - {key}).Keys == contents.Keys - {key};
    assert |contents.Keys| == |contents| && |(contents - {key}).Keys| == |contents - {key}|;
  }
}
