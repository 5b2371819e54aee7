/** Splitting a chain: items that stay are compacted in place, the others go to a new chain. */
module LinearSplit {
  import opened LinearChain
  import opened LinearChainOps
  import opened LinearIndex

  /** Item i of bucket r is read next, and slot j of bucket w is written next. */
  datatype Pos = Pos(r: nat, i: nat, w: nat, j: nat)

  /** The writer is not ahead of the reader. */
  ghost predicate Ordered(x: Pos, size: nat) {
    x.j < size && x.i <= size && (x.w < x.r || (x.w == x.r && x.j <= x.i) || (x.w == x.r + 1 && x.j == 0 && x.i == size))
  }

  ghost function Written(x: Pos, size: nat, b: int): int {
    if b < x.w then size else if b == x.w then x.j else 0
  }

  ghost function Unread(x: Pos, count: nat, b: int): int {
    if b > x.r then count else if b == x.r then count - x.i else 0
  }

  /** Bucket b in between: what has not been read is there, and the count is that of written and unread items. */
  ghost predicate CellOk(m0: Mem, m: Mem, ns: seq<Bucket>, size: nat, x: Pos, b: int)
    requires 0 <= b < |ns|
  {
    ns[b] in m0 && ns[b] in m && m[ns[b]].next == m0[ns[b]].next && |m[ns[b]].slots| == |m0[ns[b]].slots| == size &&
    m[ns[b]].count == Written(x, size, b) + Unread(x, m0[ns[b]].count, b) &&
    (b > x.r ==> m[ns[b]].slots == m0[ns[b]].slots) &&
    (b == x.r ==> forall q :: x.i <= q < size ==> m[ns[b]].slots[q] == m0[ns[b]].slots[q])
  }

  ghost predicate CellsOk(m0: Mem, m: Mem, ns: seq<Bucket>, size: nat, x: Pos) {
    Ordered(x, size) && x.r <= |ns| && (x.r < |ns| ==> ns[x.r] in m0 && x.i <= m0[ns[x.r]].count) && (x.r == |ns| ==> x.i == 0) &&
    forall b {:trigger CellOk(m0, m, ns, size, x, b)} :: 0 <= b < |ns| ==> CellOk(m0, m, ns, size, x, b)
  }

  /** The items that have been read. */
  ghost function Read(m0: Mem, ns: seq<Bucket>, r: nat, i: nat): seq<Item>
    requires r <= |ns| && Counts(m0, ns[..r]) && (i > 0 ==> r < |ns| && ns[r] in m0 && i <= |m0[ns[r]].slots|)
  {
    Flat(m0, ns[..r]) + if i > 0 then m0[ns[r]].slots[..i] else []
  }

  lemma {:induction false} BucketsFull(m0: Mem, m: Mem, ns: seq<Bucket>, size: nat, x: Pos, w: nat)
    requires CellsOk(m0, m, ns, size, x) && w <= x.w && w <= |ns| && Chain(m0, ns, size)
    ensures Counts(m, ns[..w])
    ensures forall b :: 0 <= b < w ==> ns[b] in m && m[ns[b]].count == size == |m[ns[b]].slots|
  {
    forall b | 0 <= b < w ensures ns[b] in m && m[ns[b]].count == size == |m[ns[b]].slots| {
      assert CellOk(m0, m, ns, size, x, b);
      ChainNode(m0, ns, size, b);
    }
  }

  /** The items that have been written: whole buckets, and the first slots of the next one. */
  ghost predicate PackedIs(m: Mem, ns: seq<Bucket>, w: nat, j: nat, s: seq<Item>) {
    w <= |ns| && Counts(m, ns[..w]) && (j > 0 ==> w < |ns| && ns[w] in m && j <= |m[ns[w]].slots|) &&
    Flat(m, ns[..w]) + (if j > 0 then m[ns[w]].slots[..j] else []) == s
  }

  // ---------------------------------------------------------------- an item stays

  /** The writes for an item that stays. */
  ghost function Kept(m: Mem, ns: seq<Bucket>, x: Pos, item: Item): Mem
    requires x.r < |ns| && x.w < |ns| && ns[x.r] in m && ns[x.w] in m && x.i < |m[ns[x.r]].slots| && x.j < |m[ns[x.w]].slots|
    requires m[ns[x.r]].count > 0
  {
    var b, z := ns[x.r], ns[x.w];
    var m1 := m[b := m[b].(count := m[b].count - 1)];
    var m2 := if x.w == x.r && x.j == x.i then m1 else m1[z := m1[z].(slots := m1[z].slots[x.j := item])];
    var m3 := if x.w == x.r && x.j == x.i then m2 else m2[b := m2[b].(slots := m2[b].slots[x.i := Item(0, 0)])];
    m3[z := m3[z].(count := m3[z].count + 1)]
  }

  ghost function AfterKept(x: Pos, size: nat): Pos {
    if x.j + 1 == size then Pos(x.r, x.i + 1, x.w + 1, 0) else Pos(x.r, x.i + 1, x.w, x.j + 1)
  }

  /** The item that is read is the original one. */
  lemma Reading(m0: Mem, m: Mem, ns: seq<Bucket>, size: nat, x: Pos)
    requires CellsOk(m0, m, ns, size, x) && Chain(m0, ns, size) && x.r < |ns| && x.i < m0[ns[x.r]].count
    ensures x.w <= x.r && ns[x.r] in m && ns[x.w] in m && x.i < size && x.j < size
    ensures |m[ns[x.r]].slots| == |m[ns[x.w]].slots| == size && m[ns[x.r]].count > 0
    ensures m0[ns[x.r]].count <= size == |m0[ns[x.r]].slots| && m[ns[x.r]].slots[x.i] == m0[ns[x.r]].slots[x.i]
    ensures x.w < x.r ==> ns[x.w] != ns[x.r]
  {
    ChainNode(m0, ns, size, x.r);
    assert CellOk(m0, m, ns, size, x, x.r);
    assert CellOk(m0, m, ns, size, x, x.w);
  }

  lemma KeptCell(m0: Mem, m: Mem, ns: seq<Bucket>, size: nat, x: Pos, b: nat)
    requires CellsOk(m0, m, ns, size, x) && Chain(m0, ns, size) && x.r < |ns| && x.i < m0[ns[x.r]].count && b < |ns|
    requires x.w <= x.r && ns[x.r] in m && ns[x.w] in m && |m[ns[x.r]].slots| == |m[ns[x.w]].slots| == size && x.i < size == |m0[ns[x.r]].slots| && m[ns[x.r]].count > 0
    ensures CellOk(m0, Kept(m, ns, x, m0[ns[x.r]].slots[x.i]), ns, size, AfterKept(x, size), b)
  {
    ChainNode(m0, ns, size, x.r);
    ChainNode(m0, ns, size, b);
    assert CellOk(m0, m, ns, size, x, b);
    assert CellOk(m0, m, ns, size, x, x.r);
    assert b != x.r ==> ns[b] != ns[x.r];
    assert b != x.w ==> ns[b] != ns[x.w];
    hide Chain, CellsOk;
  }

  lemma KeptCells(m0: Mem, m: Mem, ns: seq<Bucket>, size: nat, x: Pos)
    requires CellsOk(m0, m, ns, size, x) && Chain(m0, ns, size) && x.r < |ns| && x.i < m0[ns[x.r]].count
    requires x.w <= x.r && ns[x.r] in m && ns[x.w] in m && |m[ns[x.r]].slots| == |m[ns[x.w]].slots| == size && x.i < size == |m0[ns[x.r]].slots| && m[ns[x.r]].count > 0
    ensures CellsOk(m0, Kept(m, ns, x, m0[ns[x.r]].slots[x.i]), ns, size, AfterKept(x, size))
  {
    ChainNode(m0, ns, size, x.r);
    var m1, y := Kept(m, ns, x, m0[ns[x.r]].slots[x.i]), AfterKept(x, size);
    forall b | 0 <= b < |ns| ensures CellOk(m0, m1, ns, size, y, b) {
      KeptCell(m0, m, ns, size, x, b);
    }
    hide Kept, CellOk, Chain;
  }

  /** Read items get one more. */
  lemma ReadMore(m0: Mem, ns: seq<Bucket>, size: nat, r: nat, i: nat)
    requires Chain(m0, ns, size) && r < |ns| && ns[r] in m0 && i < m0[ns[r]].count <= |m0[ns[r]].slots|
    ensures Counts(m0, ns[..r]) && Read(m0, ns, r, i + 1) == Read(m0, ns, r, i) + [m0[ns[r]].slots[i]]
  {
    ChainCounts(m0, ns, size);
    FlatUpto(m0, ns, r);
    assert m0[ns[r]].slots[..i + 1] == m0[ns[r]].slots[..i] + [m0[ns[r]].slots[i]];
  }

  /** Before a kept item is written, the buckets that are full already are not touched. */
  lemma KeptBefore(m: Mem, ns: seq<Bucket>, x: Pos, item: Item)
    requires x.r < |ns| && x.w <= x.r && ns[x.r] in m && ns[x.w] in m && x.i < |m[ns[x.r]].slots| && x.j < |m[ns[x.w]].slots|
    requires m[ns[x.r]].count > 0 && Counts(m, ns[..x.w]) && forall j, k :: 0 <= j < k < |ns| ==> ns[j] != ns[k]
    ensures Counts(Kept(m, ns, x, item), ns[..x.w]) && Flat(Kept(m, ns, x, item), ns[..x.w]) == Flat(m, ns[..x.w])
  {
    var m1 := Kept(m, ns, x, item);
    forall b | b in ns[..x.w] ensures b != ns[x.r] && b != ns[x.w] {
    }
    assert forall b :: b in ns[..x.w] && b in m ==> b in m1 && m1[b] == m[b];
    FlatSame(m, m1, ns[..x.w]);
  }

  lemma KeptSlots(m: Mem, ns: seq<Bucket>, x: Pos, item: Item)
    requires x.r < |ns| && x.w <= x.r && ns[x.r] in m && ns[x.w] in m && x.i < |m[ns[x.r]].slots| && x.j < |m[ns[x.w]].slots|
    requires m[ns[x.r]].count > 0 && (x.w == x.r ==> x.j <= x.i) && (x.w < x.r ==> ns[x.w] != ns[x.r]) && item == m[ns[x.r]].slots[x.i]
    ensures ns[x.w] in Kept(m, ns, x, item) && |Kept(m, ns, x, item)[ns[x.w]].slots| == |m[ns[x.w]].slots|
    ensures Kept(m, ns, x, item)[ns[x.w]].slots[..x.j + 1] == m[ns[x.w]].slots[..x.j] + [item]
  {
    var m1 := Kept(m, ns, x, item);
    var s, t := m[ns[x.w]].slots, m1[ns[x.w]].slots;
    assert forall q :: 0 <= q < x.j ==> t[q] == s[q];
    assert t[x.j] == item;
  }

  /** A kept item is added to the written ones. */
  lemma KeptPacked(m0: Mem, m: Mem, ns: seq<Bucket>, size: nat, x: Pos, s: seq<Item>)
    requires CellsOk(m0, m, ns, size, x) && Chain(m0, ns, size) && x.r < |ns| && x.i < m0[ns[x.r]].count && PackedIs(m, ns, x.w, x.j, s)
    requires x.w <= x.r && ns[x.r] in m && ns[x.w] in m && |m[ns[x.r]].slots| == |m[ns[x.w]].slots| == size && x.i < size == |m0[ns[x.r]].slots| && m[ns[x.r]].count > 0
    requires m[ns[x.r]].slots[x.i] == m0[ns[x.r]].slots[x.i] && (x.w < x.r ==> ns[x.w] != ns[x.r])
    ensures var y, item := AfterKept(x, size), m0[ns[x.r]].slots[x.i];
      PackedIs(Kept(m, ns, x, item), ns, y.w, y.j, s + [item])
  {
    var y, item := AfterKept(x, size), m0[ns[x.r]].slots[x.i];
    var m1 := Kept(m, ns, x, item);
    KeptBefore(m, ns, x, item);
    KeptSlots(m, ns, x, item);
    KeptCells(m0, m, ns, size, x);
    BucketsFull(m0, m1, ns, size, y, y.w);
    hide Kept, CellsOk, Chain, CellOk;
    PackMore(m, m1, ns, x.w, x.j, size, item, s);
  }

  lemma PackMore(m: Mem, m1: Mem, ns: seq<Bucket>, w: nat, j: nat, size: nat, item: Item, s: seq<Item>)
    requires PackedIs(m, ns, w, j, s) && w < |ns| && ns[w] in m && ns[w] in m1 && j < size == |m[ns[w]].slots| == |m1[ns[w]].slots|
    requires Counts(m1, ns[..w]) && Flat(m1, ns[..w]) == Flat(m, ns[..w]) && m1[ns[w]].slots[..j + 1] == m[ns[w]].slots[..j] + [item]
    requires j + 1 == size ==> m1[ns[w]].count == size
    ensures if j + 1 == size then PackedIs(m1, ns, w + 1, 0, s + [item]) else PackedIs(m1, ns, w, j + 1, s + [item])
  {
    if j + 1 == size {
      assert ns[..w + 1][..w] == ns[..w] && ns[..w + 1][w] == ns[w];
      assert Used(m1, ns[w]) == m1[ns[w]].slots[..j + 1];
    }
    assert j == 0 ==> m[ns[w]].slots[..j] == [];
  }

  // ---------------------------------------------------------------- an item moves

  /** The cell of a bucket after item i has left it. */
  ghost function WithoutItem(c: Cell, i: nat): Cell {
    if c.count > 0 && i < |c.slots| then Cell(c.next, c.slots[i := Item(0, 0)], c.count - 1) else c
  }

  /** What the chain looks like after an item has left it. */
  ghost predicate Left(m: Mem, m1: Mem, ns: seq<Bucket>, x: Pos) {
    x.r < |ns| && forall b :: 0 <= b < |ns| && ns[b] in m ==>
      ns[b] in m1 && m1[ns[b]] == if b == x.r then WithoutItem(m[ns[b]], x.i) else m[ns[b]]
  }

  ghost function AfterLeft(x: Pos): Pos {
    x.(i := x.i + 1)
  }

  lemma LeftCell(m0: Mem, m: Mem, m1: Mem, ns: seq<Bucket>, size: nat, x: Pos, b: nat)
    requires CellsOk(m0, m, ns, size, x) && Chain(m0, ns, size) && x.r < |ns| && x.i < m0[ns[x.r]].count && b < |ns| && Left(m, m1, ns, x)
    ensures CellOk(m0, m1, ns, size, AfterLeft(x), b)
  {
    ChainNode(m0, ns, size, x.r);
    ChainNode(m0, ns, size, b);
    assert CellOk(m0, m, ns, size, x, b);
    hide Chain, CellsOk;
  }

  lemma LeftCells(m0: Mem, m: Mem, m1: Mem, ns: seq<Bucket>, size: nat, x: Pos)
    requires CellsOk(m0, m, ns, size, x) && Chain(m0, ns, size) && x.r < |ns| && x.i < m0[ns[x.r]].count && Left(m, m1, ns, x)
    ensures CellsOk(m0, m1, ns, size, AfterLeft(x))
  {
    ChainNode(m0, ns, size, x.r);
    forall b | 0 <= b < |ns| ensures CellOk(m0, m1, ns, size, AfterLeft(x), b) {
      LeftCell(m0, m, m1, ns, size, x, b);
    }
    hide Left, CellOk, Chain;
  }

  lemma LeftPacked(m0: Mem, m: Mem, m1: Mem, ns: seq<Bucket>, size: nat, x: Pos, s: seq<Item>)
    requires CellsOk(m0, m, ns, size, x) && Chain(m0, ns, size) && x.r < |ns| && x.i < m0[ns[x.r]].count && Left(m, m1, ns, x)
    requires PackedIs(m, ns, x.w, x.j, s)
    ensures PackedIs(m1, ns, x.w, x.j, s)
  {
    Reading(m0, m, ns, size, x);
    forall k | 0 <= k < x.w ensures ns[..x.w][k] in m1 && m1[ns[..x.w][k]] == m[ns[..x.w][k]] {
      assert CellOk(m0, m, ns, size, x, k);
    }
    SameBuckets(m, m1, ns[..x.w]);
    FlatSame(m, m1, ns[..x.w]);
    if x.j > 0 {
      assert m1[ns[x.w]].slots[..x.j] == m[ns[x.w]].slots[..x.j];
    }
  }

  lemma SameBuckets(m: Mem, m1: Mem, ns: seq<Bucket>)
    requires forall k :: 0 <= k < |ns| && ns[k] in m ==> ns[k] in m1 && m1[ns[k]] == m[ns[k]]
    ensures Same(m, m1, ns)
  {
  }

  // ---------------------------------------------------------------- the state of a split

  /** What the hash values are taken modulo, and the two buckets that the items belong to. */
  datatype Rule = Rule(hash: int -> nat, n: nat, p: nat, idx: nat, newIdx: nat)

  ghost predicate RuleOk(k: Rule) {
    k.n > 0 && k.idx != k.newIdx
  }

  ghost function Staying(k: Rule, s: seq<Item>): seq<Item>
    requires k.n > 0
  {
    Picked(s, k.hash, k.n, k.p, k.idx)
  }

  ghost function Moving(k: Rule, s: seq<Item>): seq<Item>
    requires k.n > 0
  {
    Picked(s, k.hash, k.n, k.p, k.newIdx)
  }

  ghost predicate Belongs(k: Rule, x: Item) {
    k.n > 0 && (Index(k.hash(x.key), k.n, k.p) == k.idx || Index(k.hash(x.key), k.n, k.p) == k.newIdx)
  }

  ghost predicate NoneShared(ns: seq<Bucket>, ts: seq<Bucket>) {
    forall b :: b in ns ==> b !in ts
  }

  ghost predicate Splitting(m0: Mem, m: Mem, ns: seq<Bucket>, thead: Bucket?, ts: seq<Bucket>, size: nat, x: Pos, k: Rule, s: seq<Item>) {
    RuleOk(k) && Chain(m0, ns, size) && CellsOk(m0, m, ns, size, x) && Row(m, thead, ts, size) && NoneShared(ns, ts) &&
    PackedIs(m, ns, x.w, x.j, Staying(k, s)) && Items(m, ts, size) == Moving(k, s)
  }

  lemma StartSplit(m: Mem, head: Bucket?, ns: seq<Bucket>, size: nat, k: Rule)
    requires Row(m, head, ns, size) && RuleOk(k)
    ensures Splitting(m, m, ns, null, [], size, Pos(0, 0, 0, 0), k, []) && Cursor(ns, 0, head, null)
    ensures Counts(m, ns[..0]) && Read(m, ns, 0, 0) == []
  {
    ChainCounts(m, ns, size);
    var x := Pos(0, 0, 0, 0);
    if ns != [] {
      ChainNode(m, ns, size, 0);
    }
    forall b | 0 <= b < |ns| ensures CellOk(m, m, ns, size, x, b) {
      ChainNode(m, ns, size, b);
    }
    EmptyRow(m, size);
    hide Chain;
  }

  lemma EmptyRow(m: Mem, size: nat)
    requires size > 0
    ensures Row(m, null, [], size) && Items(m, [], size) == []
  {
    ChainCounts(m, [], size);
  }

  /** An item that belongs to the old bucket has been kept. */
  lemma KeptState(m0: Mem, m: Mem, ns: seq<Bucket>, thead: Bucket?, ts: seq<Bucket>, size: nat, x: Pos, k: Rule, s: seq<Item>)
    requires Splitting(m0, m, ns, thead, ts, size, x, k, s) && x.r < |ns| && x.i < m0[ns[x.r]].count
    requires x.w <= x.r && ns[x.r] in m && ns[x.w] in m && |m[ns[x.r]].slots| == |m[ns[x.w]].slots| == size && x.i < size == |m0[ns[x.r]].slots|
    requires m[ns[x.r]].count > 0 && Index(k.hash(m0[ns[x.r]].slots[x.i].key), k.n, k.p) == k.idx
    ensures var item := m0[ns[x.r]].slots[x.i];
      Splitting(m0, Kept(m, ns, x, item), ns, thead, ts, size, AfterKept(x, size), k, s + [item])
  {
    var item := m0[ns[x.r]].slots[x.i];
    var m1 := Kept(m, ns, x, item);
    Reading(m0, m, ns, size, x);
    KeptCells(m0, m, ns, size, x);
    KeptPacked(m0, m, ns, size, x, Staying(k, s));
    PickedMore(s, item, k.hash, k.n, k.p, k.idx);
    PickedMore(s, item, k.hash, k.n, k.p, k.newIdx);
    assert Moving(k, s + [item]) == Moving(k, s) && Staying(k, s + [item]) == Staying(k, s) + [item];
    KeptOthers(m, m1, ns, ts, size, x, item);
    hide CellsOk, Chain, PackedIs, Kept, Picked, Row;
    RowKept(m, m1, thead, ts, size);
  }

  lemma KeptOthers(m: Mem, m1: Mem, ns: seq<Bucket>, ts: seq<Bucket>, size: nat, x: Pos, item: Item)
    requires x.r < |ns| && x.w < |ns| && ns[x.r] in m && ns[x.w] in m && x.i < |m[ns[x.r]].slots| && x.j < |m[ns[x.w]].slots|
    requires m[ns[x.r]].count > 0 && m1 == Kept(m, ns, x, item) && NoneShared(ns, ts)
    ensures Same(m, m1, ts) && m1.Keys == m.Keys && Elsewhere(m, m1, ns)
  {
    assert ns[x.r] in ns && ns[x.w] in ns;
  }

  lemma RowKept(m: Mem, m1: Mem, head: Bucket?, ns: seq<Bucket>, size: nat)
    requires Row(m, head, ns, size) && Same(m, m1, ns)
    ensures Row(m1, head, ns, size) && Items(m1, ns, size) == Items(m, ns, size)
  {
    ChainSame(m, m1, ns, size);
    ItemsAre(m, ns, size);
    ItemsAre(m1, ns, size);
    FlatSame(m, m1, ns);
  }

  /** An item that belongs to the new bucket has been moved. */
  lemma MovedState(m0: Mem, m: Mem, m1: Mem, ns: seq<Bucket>, thead: Bucket?, ts: seq<Bucket>, thead1: Bucket?, ts1: seq<Bucket>,
                   size: nat, x: Pos, k: Rule, s: seq<Item>, item: Item)
    requires Splitting(m0, m, ns, thead, ts, size, x, k, s) && x.r < |ns| && x.i < m0[ns[x.r]].count && Left(m, m1, ns, x)
    requires Index(k.hash(item.key), k.n, k.p) == k.newIdx
    requires Row(m1, thead1, ts1, size) && Items(m1, ts1, size) == Items(m, ts, size) + [item] && NoneShared(ns, ts1)
    ensures Splitting(m0, m1, ns, thead1, ts1, size, AfterLeft(x), k, s + [item])
  {
    LeftCells(m0, m, m1, ns, size, x);
    LeftPacked(m0, m, m1, ns, size, x, Staying(k, s));
    PickedMore(s, item, k.hash, k.n, k.p, k.idx);
    PickedMore(s, item, k.hash, k.n, k.p, k.newIdx);
    assert Moving(k, s + [item]) == Moving(k, s) + [item] && Staying(k, s + [item]) == Staying(k, s);
    hide CellsOk, Chain, PackedIs, Left, Picked, Row;
  }

  /** On to the next bucket. */
  lemma NextCells(m0: Mem, m: Mem, ns: seq<Bucket>, size: nat, x: Pos)
    requires CellsOk(m0, m, ns, size, x) && Chain(m0, ns, size) && x.r < |ns| && x.i == m0[ns[x.r]].count
    ensures CellsOk(m0, m, ns, size, x.(r := x.r + 1, i := 0))
  {
    var y := x.(r := x.r + 1, i := 0);
    ChainNode(m0, ns, size, x.r);
    if y.r < |ns| {
      ChainNode(m0, ns, size, y.r);
    }
    forall b | 0 <= b < |ns| ensures CellOk(m0, m, ns, size, y, b) {
      assert CellOk(m0, m, ns, size, x, b);
    }
    hide Chain;
  }

  lemma NextRead(m0: Mem, ns: seq<Bucket>, size: nat, r: nat)
    requires Chain(m0, ns, size) && r < |ns|
    ensures ns[r] in m0 && m0[ns[r]].count <= |m0[ns[r]].slots| && Counts(m0, ns[..r]) && Counts(m0, ns[..r + 1])
    ensures Read(m0, ns, r + 1, 0) == Read(m0, ns, r, m0[ns[r]].count)
  {
    ChainCounts(m0, ns, size);
    ChainNode(m0, ns, size, r);
    FlatUpto(m0, ns, r);
    hide Chain;
  }

  // ---------------------------------------------------------------- the end

  ghost function Ending(x: Pos): nat {
    if x.j > 0 then x.w + 1 else x.w
  }

  /** Everything has been read; the buckets behind the last written item are unlinked. */
  lemma Truncated(m0: Mem, m: Mem, mc: Mem, ns: seq<Bucket>, size: nat, x: Pos, s: seq<Item>)
    requires CellsOk(m0, m, ns, size, x) && Chain(m0, ns, size) && x.r == |ns| && PackedIs(m, ns, x.w, x.j, s) && size > 0
    requires var e := Ending(x);
      if e == 0 then mc == m else e <= |ns| && ns[e - 1] in m && mc == m[ns[e - 1] := m[ns[e - 1]].(next := null)]
    ensures Ending(x) <= |ns| && Chain(mc, ns[..Ending(x)], size) && Items(mc, ns[..Ending(x)], size) == s
  {
    var e := Ending(x);
    var ks := ns[..e];
    TruncatedNodes(m0, m, mc, ns, size, x);
    TruncatedFlat(m0, m, ns, size, x, s);
    FlatRelinked(m, mc, ks);
    ItemsAre(mc, ks, size);
  }

  lemma TruncatedNodes(m0: Mem, m: Mem, mc: Mem, ns: seq<Bucket>, size: nat, x: Pos)
    requires CellsOk(m0, m, ns, size, x) && Chain(m0, ns, size) && x.r == |ns| && Ending(x) <= |ns| && size > 0
    requires var e := Ending(x); if e == 0 then mc == m else ns[e - 1] in m && mc == m[ns[e - 1] := m[ns[e - 1]].(next := null)]
    ensures Chain(mc, ns[..Ending(x)], size)
    ensures forall k :: 0 <= k < Ending(x) ==> ns[k] in m && ns[k] in mc && mc[ns[k]].slots == m[ns[k]].slots && mc[ns[k]].count == m[ns[k]].count
  {
    var e := Ending(x);
    var ks := ns[..e];
    forall k | 0 <= k < |ks| ensures Node(mc, ks, size, k) && FullAt(mc, ks, size, k) {
      assert CellOk(m0, m, ns, size, x, k);
      ChainNode(m0, ns, size, k);
    }
    forall k | 0 <= k < e ensures ns[k] in m && ns[k] in mc && mc[ns[k]].slots == m[ns[k]].slots && mc[ns[k]].count == m[ns[k]].count {
      assert CellOk(m0, m, ns, size, x, k);
    }
  }

  lemma TruncatedFlat(m0: Mem, m: Mem, ns: seq<Bucket>, size: nat, x: Pos, s: seq<Item>)
    requires CellsOk(m0, m, ns, size, x) && Chain(m0, ns, size) && x.r == |ns| && PackedIs(m, ns, x.w, x.j, s)
    ensures Ending(x) <= |ns| && Counts(m, ns[..Ending(x)]) && Flat(m, ns[..Ending(x)]) == s
  {
    if x.j > 0 {
      assert CellOk(m0, m, ns, size, x, x.w);
      var ks := ns[..x.w + 1];
      assert ks[..x.w] == ns[..x.w] && ks[x.w] == ns[x.w];
      forall k | 0 <= k < |ks| ensures ks[k] in m && m[ks[k]].count <= |m[ks[k]].slots| {
        assert k < x.w ==> ks[k] == ns[..x.w][k];
      }
      assert Used(m, ns[x.w]) == m[ns[x.w]].slots[..x.j];
    }
  }

  // ---------------------------------------------------------------- the code

  lemma SplitFacts(m0: Mem, m: Mem, ns: seq<Bucket>, thead: Bucket?, ts: seq<Bucket>, size: nat, x: Pos, k: Rule, s: seq<Item>)
    requires Splitting(m0, m, ns, thead, ts, size, x, k, s)
    ensures Chain(m0, ns, size) && CellsOk(m0, m, ns, size, x) && Row(m, thead, ts, size) && NoneShared(ns, ts) && k.n > 0 && size > 0
    ensures x.w <= |ns| && x.r <= |ns| && Items(m, ts, size) == Moving(k, s) && PackedIs(m, ns, x.w, x.j, Staying(k, s))
    ensures x.r < |ns| ==> ns[x.r] in m0 && x.i <= m0[ns[x.r]].count <= |m0[ns[x.r]].slots| && x.i <= size == |m0[ns[x.r]].slots|
    ensures x.r < |ns| ==> ns[x.r] in m && m[ns[x.r]].next == Behind(ns, x.r)
  {
    if x.r < |ns| {
      ChainNode(m0, ns, size, x.r);
      assert CellOk(m0, m, ns, size, x, x.r);
    }
  }

  /** The next slot to write. */
  lemma CursorNext(m0: Mem, m: Mem, ns: seq<Bucket>, size: nat, x: Pos, bucket: Bucket?, prev: Bucket?)
    requires CellsOk(m0, m, ns, size, x) && Chain(m0, ns, size) && Cursor(ns, x.w, bucket, prev) && x.w < |ns|
    ensures bucket != null && bucket in m && Cursor(ns, x.w + 1, m[bucket].next, bucket) && bucket == ns[x.w]
  {
    assert CellOk(m0, m, ns, size, x, x.w);
    ChainNode(m0, ns, size, x.w);
  }

  /** An item that stays is written to the next slot. */
  method KeepItem(bucket: Bucket, i: nat, item: Item, into: Bucket, intoPrev: Bucket?, j: nat, size: nat, ghost m0: Mem, ghost m: Mem,
                  ghost ns: seq<Bucket>, ghost thead: Bucket?, ghost ts: seq<Bucket>, ghost x: Pos, ghost k: Rule, ghost s: seq<Item>)
    returns (into1: Bucket?, intoPrev1: Bucket?, j1: nat, ghost m1: Mem)
    requires Mirrors(m) && Splitting(m0, m, ns, thead, ts, size, x, k, s) && x.r < |ns| && x.i < m0[ns[x.r]].count
    requires bucket == ns[x.r] && i == x.i && Cursor(ns, x.w, into, intoPrev) && j == x.j && x.i < |m0[ns[x.r]].slots| && item == m0[ns[x.r]].slots[x.i]
    requires Index(k.hash(item.key), k.n, k.p) == k.idx && x.w < |ns|
    modifies m.Keys
    ensures Mirrors(m1) && Splitting(m0, m1, ns, thead, ts, size, AfterKept(x, size), k, s + [item])
    ensures m1.Keys == m.Keys && Elsewhere(m, m1, ns)
    ensures Cursor(ns, AfterKept(x, size).w, into1, intoPrev1) && j1 == AfterKept(x, size).j
  {
    hide *;
    SplitFacts(m0, m, ns, thead, ts, size, x, k, s);
    Reading(m0, m, ns, size, x);
    CursorNext(m0, m, ns, size, x, into, intoPrev);
    Peek(m, bucket);
    ghost var ma := SetCount(bucket, bucket.count - 1, m);
    ghost var mb := ma;
    SameSlot(ns, x, bucket, into, i, j, m0, m, size);
    if bucket != into || i != j {
      mb := SetSlot(into, j, item, ma);
      mb := SetSlot(bucket, i, Item(0, 0), mb);
    }
    Peek(mb, into);
    m1 := SetCount(into, into.count + 1, mb);
    KeptIs(m, ma, mb, m1, ns, x, item);
    KeptState(m0, m, ns, thead, ts, size, x, k, s);
    KeptOthers(m, m1, ns, ts, size, x, item);
    SplitFacts(m0, m1, ns, thead, ts, size, AfterKept(x, size), k, s + [item]);
    into1, intoPrev1, j1 := into, intoPrev, j + 1;
    NextSlot(x, size);
    if j1 == size {
      KeptNext(m, ns, x, item);
      Peek(m1, into);
      intoPrev1, into1, j1 := into, into.next, 0;
    }
  }

  lemma SameSlot(ns: seq<Bucket>, x: Pos, bucket: Bucket, into: Bucket, i: nat, j: nat, m0: Mem, m: Mem, size: nat)
    requires CellsOk(m0, m, ns, size, x) && Chain(m0, ns, size) && x.r < |ns| && x.w <= x.r && bucket == ns[x.r] && into == ns[x.w] && i == x.i && j == x.j
    ensures (bucket == into && i == j) <==> (x.w == x.r && x.j == x.i)
  {
  }

  lemma NextSlot(x: Pos, size: nat)
    ensures AfterKept(x, size) == if x.j + 1 == size then Pos(x.r, x.i + 1, x.w + 1, 0) else Pos(x.r, x.i + 1, x.w, x.j + 1)
  {
  }

  lemma KeptNext(m: Mem, ns: seq<Bucket>, x: Pos, item: Item)
    requires x.r < |ns| && x.w < |ns| && ns[x.r] in m && ns[x.w] in m && x.i < |m[ns[x.r]].slots| && x.j < |m[ns[x.w]].slots|
    requires m[ns[x.r]].count > 0
    ensures ns[x.w] in Kept(m, ns, x, item) && Kept(m, ns, x, item)[ns[x.w]].next == m[ns[x.w]].next
  {
  }

  lemma KeptIs(m: Mem, ma: Mem, mb: Mem, m1: Mem, ns: seq<Bucket>, x: Pos, item: Item)
    requires x.r < |ns| && x.w < |ns| && ns[x.r] in m && ns[x.w] in m && x.i < |m[ns[x.r]].slots| && x.j < |m[ns[x.w]].slots|
    requires m[ns[x.r]].count > 0 && (x.w < x.r ==> ns[x.w] != ns[x.r]) && x.w <= x.r
    requires var b, z := ns[x.r], ns[x.w];
      ma == m[b := m[b].(count := m[b].count - 1)] && z in mb && m1 == mb[z := mb[z].(count := mb[z].count + 1)] &&
      if x.w == x.r && x.j == x.i then mb == ma else
        z in ma && x.j < |ma[z].slots| && var mz := ma[z := ma[z].(slots := ma[z].slots[x.j := item])];
        b in mz && x.i < |mz[b].slots| && mb == mz[b := mz[b].(slots := mz[b].slots[x.i := Item(0, 0)])]
    ensures m1 == Kept(m, ns, x, item)
  {
  }

  /** An item that belongs to the new bucket is added to that chain. */
  method MoveItem(bucket: Bucket, i: nat, item: Item, thead: Bucket?, size: nat, ghost m0: Mem, ghost m: Mem, ghost ns: seq<Bucket>,
                  ghost ts: seq<Bucket>, ghost x: Pos, ghost k: Rule, ghost s: seq<Item>)
    returns (thead1: Bucket?, ghost m1: Mem, ghost ts1: seq<Bucket>)
    requires Mirrors(m) && Splitting(m0, m, ns, thead, ts, size, x, k, s) && x.r < |ns| && x.i < m0[ns[x.r]].count
    requires bucket == ns[x.r] && i == x.i && x.i < |m0[ns[x.r]].slots| && item == m0[ns[x.r]].slots[x.i]
    requires Index(k.hash(item.key), k.n, k.p) == k.newIdx
    modifies m.Keys
    ensures Mirrors(m1) && Splitting(m0, m1, ns, thead1, ts1, size, AfterLeft(x), k, s + [item]) && fresh(m1.Keys - m.Keys)
    ensures m.Keys <= m1.Keys && (forall b :: b in m && b !in ns && b !in ts ==> m1[b] == m[b])
    ensures ts1 == ts || exists b :: b in m1 && b !in m && ts1 == ts + [b]
  {
    hide *;
    SplitFacts(m0, m, ns, thead, ts, size, x, k, s);
    Reading(m0, m, ns, size, x);
    Peek(m, bucket);
    ghost var ma := SetCount(bucket, bucket.count - 1, m);
    CountOnly(m, ma, ns, ts, x.r, size, thead);
    var found;
    ghost var mb;
    found, thead1, mb, ts1 := InsertInternal(thead, item, size, false, ma, ts);
    GrownFacts(ma, ts, size, mb, thead1, ts1, item);
    OthersKept(ma, mb, ns, ts, x.r);
    m1 := SetSlot(bucket, i, Item(0, 0), mb);
    LeftIs(m0, m, ma, mb, m1, ns, size, x);
    GrownApart(m, mb, ns, ts, ts1, m0, size, x);
    SlotElsewhere(mb, m1, ns, ts1, x.r, thead1, size);
    MovedState(m0, m, m1, ns, thead, ts, thead1, ts1, size, x, k, s, item);
    ElsewhereAll(m, ma, mb, m1, ns, ts, x.r);
  }

  lemma CountOnly(m: Mem, ma: Mem, ns: seq<Bucket>, ts: seq<Bucket>, r: nat, size: nat, thead: Bucket?)
    requires r < |ns| && ns[r] in m && m[ns[r]].count > 0 && NoneShared(ns, ts) && Row(m, thead, ts, size)
    requires ma == m[ns[r] := m[ns[r]].(count := m[ns[r]].count - 1)]
    ensures Row(ma, thead, ts, size) && Items(ma, ts, size) == Items(m, ts, size)
  {
    assert ns[r] in ns;
    RowKept(m, ma, thead, ts, size);
  }

  lemma GrownFacts(m: Mem, ns: seq<Bucket>, size: nat, m1: Mem, head1: Bucket?, ns1: seq<Bucket>, item: Item)
    requires Grown(m, ns, size, m1, head1, ns1, item)
    ensures Chain(m, ns, size) && Row(m1, head1, ns1, size) && Elsewhere(m, m1, ns) && Items(m1, ns1, size) == Items(m, ns, size) + [item]
    ensures ns1 == ns || exists b :: b in m1 && b !in m && ns1 == ns + [b]
  {
  }

  lemma OthersKept(ma: Mem, mb: Mem, ns: seq<Bucket>, ts: seq<Bucket>, r: nat)
    requires Elsewhere(ma, mb, ts) && NoneShared(ns, ts) && r < |ns| && ns[r] in ma
    ensures ns[r] in mb && mb[ns[r]] == ma[ns[r]]
  {
    assert ns[r] in ns;
  }

  lemma LeftIs(m0: Mem, m: Mem, ma: Mem, mb: Mem, m1: Mem, ns: seq<Bucket>, size: nat, x: Pos)
    requires x.r < |ns| && ns[x.r] in m && m[ns[x.r]].count > 0 && x.i < |m[ns[x.r]].slots| && CellsOk(m0, m, ns, size, x) && Chain(m0, ns, size)
    requires ma == m[ns[x.r] := m[ns[x.r]].(count := m[ns[x.r]].count - 1)] && ns[x.r] in mb
    requires forall b :: b in ns && b in ma ==> b in mb && mb[b] == ma[b]
    requires x.i < |mb[ns[x.r]].slots| && m1 == mb[ns[x.r] := mb[ns[x.r]].(slots := mb[ns[x.r]].slots[x.i := Item(0, 0)])]
    ensures Left(m, m1, ns, x)
  {
    forall b | 0 <= b < |ns| && ns[b] in m ensures ns[b] in m1 && (b != x.r ==> m1[ns[b]] == m[ns[b]]) {
      assert ns[b] in ns;
      assert b != x.r ==> ns[b] != ns[x.r];
    }
    assert ns[x.r] in ns;
  }

  lemma GrownApart(m: Mem, mb: Mem, ns: seq<Bucket>, ts: seq<Bucket>, ts1: seq<Bucket>, m0: Mem, size: nat, x: Pos)
    requires NoneShared(ns, ts) && (ts1 == ts || exists b :: b in mb && b !in m && ts1 == ts + [b]) && CellsOk(m0, m, ns, size, x)
    ensures NoneShared(ns, ts1)
  {
    forall b | b in ns ensures b in m {
      var k :| 0 <= k < |ns| && ns[k] == b;
      assert CellOk(m0, m, ns, size, x, k);
    }
  }

  lemma SlotElsewhere(mb: Mem, m1: Mem, ns: seq<Bucket>, ts1: seq<Bucket>, r: nat, thead1: Bucket?, size: nat)
    requires r < |ns| && ns[r] in mb && m1.Keys == mb.Keys && m1 == mb[ns[r] := m1[ns[r]]] && NoneShared(ns, ts1) && Row(mb, thead1, ts1, size)
    ensures Row(m1, thead1, ts1, size) && Items(m1, ts1, size) == Items(mb, ts1, size)
  {
    assert ns[r] in ns;
    RowKept(mb, m1, thead1, ts1, size);
  }

  lemma ElsewhereAll(m: Mem, ma: Mem, mb: Mem, m1: Mem, ns: seq<Bucket>, ts: seq<Bucket>, r: nat)
    requires r < |ns| && ns[r] in m && ma.Keys == m.Keys && ma == m[ns[r] := ma[ns[r]]] && Elsewhere(ma, mb, ts)
    requires ns[r] in mb && m1.Keys == mb.Keys && m1 == mb[ns[r] := m1[ns[r]]]
    ensures m.Keys <= m1.Keys && forall b :: b in m && b !in ns && b !in ts ==> m1[b] == m[b]
  {
    assert ns[r] in ns;
  }

  /** Everything that a split leaves behind. */
  ghost predicate SplitDone(m0: Mem, ns: seq<Bucket>, size: nat, m1: Mem, head1: Bucket?, ns1: seq<Bucket>, thead: Bucket?, ts: seq<Bucket>, k: Rule) {
    RuleOk(k) && Chain(m0, ns, size) && Row(m1, head1, ns1, size) && Row(m1, thead, ts, size) && NoneShared(ns1, ts) &&
    Items(m1, ns1, size) == Staying(k, Items(m0, ns, size)) && Items(m1, ts, size) == Moving(k, Items(m0, ns, size)) &&
    Elsewhere(m0, m1, ns) && (forall b :: b in ns1 ==> b in ns) && (forall b :: b in ts ==> b !in m0)
  }

  /** What has been written so far is in this chain and in new buckets. */
  ghost predicate Confined(m0: Mem, m: Mem, ns: seq<Bucket>, ts: seq<Bucket>) {
    Elsewhere(m0, m, ns) && forall b :: b in ts ==> b !in m0
  }

  lemma ConfinedKept(m0: Mem, m: Mem, m1: Mem, ns: seq<Bucket>, ts: seq<Bucket>)
    requires Confined(m0, m, ns, ts) && Elsewhere(m, m1, ns)
    ensures Confined(m0, m1, ns, ts)
  {
  }

  lemma ConfinedMoved(m0: Mem, m: Mem, m1: Mem, ns: seq<Bucket>, ts: seq<Bucket>, ts1: seq<Bucket>)
    requires Confined(m0, m, ns, ts) && m.Keys <= m1.Keys && (forall b :: b in m && b !in ns && b !in ts ==> m1[b] == m[b])
    requires ts1 == ts || exists b :: b in m1 && b !in m && ts1 == ts + [b]
    ensures Confined(m0, m1, ns, ts1)
  {
  }

  /** The items of one bucket, one after the other. */
  method SplitItems(bucket: Bucket, into0: Bucket?, intoPrev0: Bucket?, j0: nat, thead0: Bucket?, size: nat, hash: int -> nat, n: nat, p: nat, idx: nat,
                    ghost m0: Mem, ghost ma: Mem, ghost ns: seq<Bucket>, ghost ts0: seq<Bucket>, ghost x0: Pos, ghost k: Rule)
    returns (into: Bucket?, intoPrev: Bucket?, j: nat, thead: Bucket?, ghost m: Mem, ghost ts: seq<Bucket>, ghost x: Pos)
    requires Mirrors(ma) && x0.r < |ns| && x0.i == 0 && bucket == ns[x0.r] && Counts(m0, ns[..x0.r])
    requires Splitting(m0, ma, ns, thead0, ts0, size, x0, k, Read(m0, ns, x0.r, 0)) && Confined(m0, ma, ns, ts0)
    requires Cursor(ns, x0.w, into0, intoPrev0) && j0 == x0.j && k.hash == hash && k.n == n && k.p == p && k.idx == idx && AllBelong(m0, ns, size, k)
    modifies ma.Keys
    ensures Mirrors(m) && x.r == x0.r + 1 && x.i == 0 && Counts(m0, ns[..x.r]) && Confined(m0, m, ns, ts) && fresh(m.Keys - ma.Keys)
    ensures Splitting(m0, m, ns, thead, ts, size, x, k, Read(m0, ns, x.r, 0))
    ensures Cursor(ns, x.w, into, intoPrev) && j == x.j && ma.Keys <= m.Keys
  {
    hide *;
    into, intoPrev, j, thead, m, ts, x := into0, intoPrev0, j0, thead0, ma, ts0, x0;
    ghost var s := Read(m0, ns, x.r, 0);
    SplitFacts(m0, m, ns, thead, ts, size, x, k, s);
    Peek(m, bucket);
    EntryCount(m0, m, ns, size, x);
    var numItems := bucket.count;
    var i := 0;
    while i < numItems
      invariant 0 <= i <= numItems && Mirrors(m) && x.r == x0.r && x.i == i && Confined(m0, m, ns, ts)
      invariant x.i <= |m0[ns[x.r]].slots| && Splitting(m0, m, ns, thead, ts, size, x, k, s) && s == Read(m0, ns, x.r, i)
      invariant Cursor(ns, x.w, into, intoPrev) && j == x.j && ma.Keys <= m.Keys && fresh(m.Keys - ma.Keys)
    {
      SplitFacts(m0, m, ns, thead, ts, size, x, k, s);
      Reading(m0, m, ns, size, x);
      ReadMore(m0, ns, size, x.r, i);
      ItemBelongs(m0, ns, size, x.r, i, k);
      Peek(m, bucket);
      var item := bucket.slots[i];
      CursorNext(m0, m, ns, size, x, into, intoPrev);
      ghost var mb := m;
      if Index(hash(item.key), n, p) == idx {
        NextPos(x, size);
        into, intoPrev, j, m := KeepItem(bucket, i, item, into, intoPrev, j, size, m0, m, ns, thead, ts, x, k, s);
        ConfinedKept(m0, mb, m, ns, ts);
        x := AfterKept(x, size);
      } else {
        ghost var ts1;
        thead, m, ts1 := MoveItem(bucket, i, item, thead, size, m0, m, ns, ts, x, k, s);
        ConfinedMoved(m0, mb, m, ns, ts, ts1);
        ts := ts1;
        LeftPos(x);
        x := AfterLeft(x);
      }
      s := s + [item];
      i := i + 1;
    }
    SplitFacts(m0, m, ns, thead, ts, size, x, k, s);
    NextCells(m0, m, ns, size, x);
    NextRead(m0, ns, size, x.r);
    NextState(m0, m, ns, thead, ts, size, x, k, s);
    x := x.(r := x.r + 1, i := 0);
  }

  lemma NextPos(x: Pos, size: nat)
    ensures AfterKept(x, size).r == x.r && AfterKept(x, size).i == x.i + 1
  {
  }

  lemma LeftPos(x: Pos)
    ensures AfterLeft(x).r == x.r && AfterLeft(x).i == x.i + 1 && AfterLeft(x).w == x.w && AfterLeft(x).j == x.j
  {
  }

  lemma EntryCount(m0: Mem, m: Mem, ns: seq<Bucket>, size: nat, x: Pos)
    requires CellsOk(m0, m, ns, size, x) && Chain(m0, ns, size) && x.r < |ns| && x.i == 0
    ensures ns[x.r] in m && m[ns[x.r]].count == m0[ns[x.r]].count
  {
    assert CellOk(m0, m, ns, size, x, x.r);
  }

  lemma NextState(m0: Mem, m: Mem, ns: seq<Bucket>, thead: Bucket?, ts: seq<Bucket>, size: nat, x: Pos, k: Rule, s: seq<Item>)
    requires Splitting(m0, m, ns, thead, ts, size, x, k, s) && CellsOk(m0, m, ns, size, x.(r := x.r + 1, i := 0))
    ensures Splitting(m0, m, ns, thead, ts, size, x.(r := x.r + 1, i := 0), k, s)
  {
    hide CellsOk, Chain, PackedIs, Row, Picked;
  }

  /** All items belong to one of the two buckets. */
  ghost predicate AllBelong(m0: Mem, ns: seq<Bucket>, size: nat, k: Rule) {
    Chain(m0, ns, size) && forall x :: x in Items(m0, ns, size) ==> Belongs(k, x)
  }

  lemma ItemBelongs(m0: Mem, ns: seq<Bucket>, size: nat, r: nat, i: nat, k: Rule)
    requires AllBelong(m0, ns, size, k) && r < |ns| && ns[r] in m0 && i < m0[ns[r]].count <= |m0[ns[r]].slots|
    ensures Belongs(k, m0[ns[r]].slots[i]) && k.n > 0
    ensures var h := k.hash(m0[ns[r]].slots[i].key); Index(h, k.n, k.p) == k.idx || Index(h, k.n, k.p) == k.newIdx
  {
    ChainCounts(m0, ns, size);
    FlatAll(m0, ns, m0[ns[r]].slots[i]);
    assert Used(m0, ns[r])[i] in Used(m0, ns[r]);
    ItemsAre(m0, ns, size);
  }

  /** Splits a chain into those items that stay and those that go to a new chain. */
  method SplitBucket(head: Bucket?, size: nat, hash: int -> nat, n: nat, p: nat, idx: nat, ghost m0: Mem, ghost ns: seq<Bucket>, ghost k: Rule)
    returns (head1: Bucket?, thead: Bucket?, ghost m1: Mem, ghost ns1: seq<Bucket>, ghost ts: seq<Bucket>)
    requires Mirrors(m0) && Row(m0, head, ns, size) && RuleOk(k) && k.hash == hash && k.n == n && k.p == p && k.idx == idx && AllBelong(m0, ns, size, k)
    modifies m0.Keys
    ensures Mirrors(m1) && SplitDone(m0, ns, size, m1, head1, ns1, thead, ts, k) && fresh(m1.Keys - m0.Keys)
  {
    hide *;
    StartSplit(m0, head, ns, size, k);
    ConfinedStart(m0, ns);
    var bucket := head;
    var into, intoPrev: Bucket?, j: nat := head, null, 0;
    ghost var m, x := m0, Pos(0, 0, 0, 0);
    thead, ts := null, [];
    RowHead(m0, head, ns, size);
    while bucket != null
      invariant x.r <= |ns| && x.i == 0 && Counts(m0, ns[..x.r]) && Mirrors(m) && Confined(m0, m, ns, ts) && m0.Keys <= m.Keys
      invariant Splitting(m0, m, ns, thead, ts, size, x, k, Read(m0, ns, x.r, 0)) && fresh(m.Keys - m0.Keys)
      invariant bucket == (if x.r < |ns| then ns[x.r] else null) && Cursor(ns, x.w, into, intoPrev) && j == x.j
      decreases |ns| - x.r
    {
      ghost var r := x.r;
      into, intoPrev, j, thead, m, ts, x := SplitItems(bucket, into, intoPrev, j, thead, size, hash, n, p, idx, m0, m, ns, ts, x, k);
      SplitNode(m0, m, ns, thead, ts, size, x, k, Read(m0, ns, x.r, 0), r);
      Peek(m, bucket);
      bucket := bucket.next;
    }
    ghost var s := Read(m0, ns, x.r, 0);
    SplitFacts(m0, m, ns, thead, ts, size, x, k, s);
    EndingIs(m0, m, ns, size, x, into, intoPrev, s);
    var last := if j != 0 then into else intoPrev;
    head1, m1 := head, m;
    if last == null {
      head1 := null;
    } else {
      m1 := SetNext(last, null, m);
    }
    ns1 := ns[..Ending(x)];
    Truncated(m0, m, m1, ns, size, x, Staying(k, s));
    AllRead(m0, ns, size);
    EndState(m0, m, m1, head, head1, thead, ns, ts, size, x, k, s);
  }

  lemma RowHead(m: Mem, head: Bucket?, ns: seq<Bucket>, size: nat)
    requires Row(m, head, ns, size)
    ensures head == (if 0 < |ns| then ns[0] else null) && head == Head(ns) && Chain(m, ns, size)
  {
  }

  lemma ConfinedStart(m: Mem, ns: seq<Bucket>)
    ensures Confined(m, m, ns, [])
  {
  }

  lemma SplitNode(m0: Mem, m: Mem, ns: seq<Bucket>, thead: Bucket?, ts: seq<Bucket>, size: nat, x: Pos, k: Rule, s: seq<Item>, r: nat)
    requires Splitting(m0, m, ns, thead, ts, size, x, k, s) && r < |ns|
    ensures x.r <= |ns| && ns[r] in m && m[ns[r]].next == if r + 1 < |ns| then ns[r + 1] else null
  {
    assert CellOk(m0, m, ns, size, x, r);
    ChainNode(m0, ns, size, r);
  }

  lemma EndingIs(m0: Mem, m: Mem, ns: seq<Bucket>, size: nat, x: Pos, into: Bucket?, intoPrev: Bucket?, s: seq<Item>)
    requires CellsOk(m0, m, ns, size, x) && Chain(m0, ns, size) && x.r == |ns| && Cursor(ns, x.w, into, intoPrev)
    requires x.j > 0 ==> x.w < |ns|
    ensures var last, e := if x.j != 0 then into else intoPrev, Ending(x);
      e <= |ns| && (last == null <==> e == 0) && (e > 0 ==> last == ns[e - 1] && last in m)
  {
    if x.j > 0 {
      assert CellOk(m0, m, ns, size, x, x.w);
    } else if x.w > 0 {
      assert CellOk(m0, m, ns, size, x, x.w - 1);
    }
  }

  lemma AllRead(m0: Mem, ns: seq<Bucket>, size: nat)
    requires Chain(m0, ns, size)
    ensures Counts(m0, ns[..|ns|]) && Read(m0, ns, |ns|, 0) == Items(m0, ns, size)
  {
    ChainCounts(m0, ns, size);
    assert ns[..|ns|] == ns;
    ItemsAre(m0, ns, size);
  }

  lemma EndState(m0: Mem, m: Mem, m1: Mem, head: Bucket?, head1: Bucket?, thead: Bucket?, ns: seq<Bucket>, ts: seq<Bucket>, size: nat, x: Pos,
                 k: Rule, s: seq<Item>)
    requires RuleOk(k) && Chain(m0, ns, size) && s == Items(m0, ns, size) && head == Head(ns)
    requires Row(m, thead, ts, size) && NoneShared(ns, ts) && Items(m, ts, size) == Moving(k, s) && Confined(m0, m, ns, ts)
    requires Ending(x) <= |ns| && Chain(m1, ns[..Ending(x)], size) && Items(m1, ns[..Ending(x)], size) == Staying(k, s)
    requires var e := Ending(x);
      if e == 0 then m1 == m && head1 == null else ns[e - 1] in m && m1 == m[ns[e - 1] := m[ns[e - 1]].(next := null)] && head1 == head
    ensures SplitDone(m0, ns, size, m1, head1, ns[..Ending(x)], thead, ts, k)
  {
    var e := Ending(x);
    if e > 0 {
      assert ns[e - 1] in ns;
    }
    assert forall b :: b in ns[..e] ==> b in ns;
    hide Chain, Picked, Ending;
    RowKept(m, m1, thead, ts, size);
  }
}
