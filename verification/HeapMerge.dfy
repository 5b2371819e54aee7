/** Merging a block with its free neighbours, on values. */
module HeapMerge {
  import opened HeapBlocks
  import opened HeapLists
  import opened HeapMemory

  ghost predicate NoneZeroed(h: Headers) {
    forall a :: a in h && h[a].used ==> !h[a].zeroed
  }

  ghost predicate BlocksOk(h: Headers, m: Maps) {
    Tiled(h, m) && Coalesced(h)
  }

  /** Joining a free block and a used one. */
  lemma JoinFacts(h: Headers, m: Maps, b: Bytes, a: int)
    requires BlocksOk(h, m) && a in h && !h[a].last && End(h, a) in h && h[a].used != h[End(h, a)].used && Zero(h, b)
    ensures var g, n := Join(h, a, true, false), End(h, a);
      BlocksOk(g, JoinHome(m, n)) && Zero(g, b) && a in g && n !in g &&
      g[a] == Header(h[a].prevSize, h[a].size + EXTRA + h[n].size, true, h[n].last, false) && End(g, a) == End(h, n)
    ensures var g, n := Join(h, a, true, false), End(h, a);
      (forall x, i :: FreeIn(g, i, x) <==> FreeIn(h, i, x) && x !in {a, n}) && Live(g) - {a} == Live(h) - {a, n}
    ensures NoneZeroed(h) ==> NoneZeroed(Join(h, a, true, false))
  {
    var g, n := Join(h, a, true, false), End(h, a);
    Joined(h, m, a, true, false);
    JoinCoalesced(h, a, false);
    JoinKeys(h, a, true, false);
    hide Join, Tiled, Coalesced, Tags, Disjoint, Bucket;
    forall x, y | Claimed(g, x, y) ensures b(y) == 0 {
      assert Claimed(h, x, y);
    }
  }

  /** What is behind and in front of a block. */
  lemma Neighbours(h: Headers, m: Maps, a: int)
    requires Tiled(h, m) && a in h
    ensures a in m.home && h[a].size > 0 && SizeOk(h[a].size) && a % EXTRA == 0
    ensures !h[a].last ==> End(h, a) in h && h[End(h, a)].prevSize == h[a].size && End(h, a) > a
    ensures h[a].prevSize != 0 ==> var p := a - h[a].prevSize - EXTRA; p in h && h[p].size == h[a].prevSize && !h[p].last && End(h, p) == a && p < a
  {
    assert Tagged(h, a) && Placed(h, m, a);
    if h[a].prevSize != 0 {
      assert Tagged(h, a - h[a].prevSize - EXTRA);
    }
  }

  lemma AloneNext(h: Headers, a: int)
    requires Coalesced(h) && a in h && !h[a].used
    ensures NextUsed(h, a)
  {
    assert Alone(h, a);
  }

  /** In front of a free block there is no free one. */
  lemma AlonePrev(h: Headers, m: Maps, a: int)
    requires Tiled(h, m) && Coalesced(h) && a in h && !h[a].used
    ensures PrevUsed(h, a)
  {
    Neighbours(h, m, a);
    if h[a].prevSize != 0 {
      assert Alone(h, a - h[a].prevSize - EXTRA);
    }
  }

  /** The block behind a block after merging with the next one. */
  lemma JoinNext(h: Headers, m: Maps, a: int)
    requires BlocksOk(h, m) && a in h && h[a].used && !h[a].last && End(h, a) in h && !h[End(h, a)].used
    ensures var g := Join(h, a, true, false);
      a in g && NextUsed(g, a) && (h[a].prevSize != 0 ==> PrevUsed(g, a) == PrevUsed(h, a))
  {
    Neighbours(h, m, a);
    AloneNext(h, End(h, a));
    JoinKeys(h, a, true, false);
    hide Join, Tiled, Coalesced;
  }

  /** The neighbours of a block after merging with the previous one. */
  lemma JoinPrev(h: Headers, m: Maps, a: int)
    requires BlocksOk(h, m) && a in h && !h[a].used && !h[a].last && End(h, a) in h && h[End(h, a)].used
    ensures var g := Join(h, a, true, false);
      a in g && PrevUsed(g, a) && (NextUsed(h, End(h, a)) ==> NextUsed(g, a))
  {
    Neighbours(h, m, a);
    Neighbours(h, m, End(h, a));
    AlonePrev(h, m, a);
    JoinKeys(h, a, true, false);
    if !h[End(h, a)].last {
      Neighbours(h, m, End(h, End(h, a)));
    }
    hide Join, Tiled, Coalesced;
  }

  // ---------------------------------------------------------------- the writes

  datatype Ptr = Null | At(address: int)

  /** The block behind, as the tags say. */
  function GetNext(h: Headers, a: int): Ptr
    requires a in h
  {
    if h[a].last then Null else At(End(h, a))
  }

  /** The block in front, as the tags say. */
  function GetPrevious(h: Headers, a: int): Ptr
    requires a in h
  {
    if h[a].prevSize == 0 then Null else At(a - h[a].prevSize - EXTRA)
  }

  /** The header of the merged block is written, and its size goes to the block behind; the headers gone are memory now. */
  function Written(h: Headers, gone: set<int>, block: int, to: Header, next: Ptr): Headers
    requires next.At? ==> next.address in h
  {
    var g := if next.At? then h[next.address := h[next.address].(prevSize := to.size)] else h;
    (g - gone)[block := to]
  }

  lemma WrittenOnce(h: Headers, m: Maps, a: int)
    requires Tiled(h, m) && a in h && !h[a].last && End(h, a) in h
    ensures var n := End(h, a);
      (GetNext(h, n).At? ==> GetNext(h, n).address in h) &&
      Written(h, {n}, a, Header(h[a].prevSize, h[a].size + EXTRA + h[n].size, true, h[n].last, false), GetNext(h, n)) == Join(h, a, true, false)
  {
    var n := End(h, a);
    Neighbours(h, m, a);
    Neighbours(h, m, n);
    JoinKeys(h, a, true, false);
    var w := Written(h, {n}, a, Header(h[a].prevSize, h[a].size + EXTRA + h[n].size, true, h[n].last, false), GetNext(h, n));
    var g := Join(h, a, true, false);
    hide Join, Tiled;
    assert w.Keys == g.Keys;
    assert forall x :: x in g ==> w[x] == g[x];
  }

  lemma WrittenTwice(h: Headers, m: Maps, p: int)
    requires Tiled(h, m) && p in h && !h[p].last && End(h, p) in h
    requires !h[End(h, p)].last && End(h, End(h, p)) in h
    ensures var a := End(h, p);
      var n := End(h, a);
      var size := h[a].size + EXTRA + h[p].size + EXTRA + h[n].size;
      (GetNext(h, n).At? ==> GetNext(h, n).address in h) &&
      var g := Join(h, a, true, false);
      p in g && End(g, p) in g && !g[p].last &&
      Written(h, {a, n}, p, Header(h[p].prevSize, size, true, h[n].last, false), GetNext(h, n)) == Join(g, p, true, false)
  {
    var a := End(h, p);
    var n := End(h, a);
    Neighbours(h, m, p);
    Neighbours(h, m, a);
    Neighbours(h, m, n);
    JoinKeys(h, a, true, false);
    Joined(h, m, a, true, false);
    var g := Join(h, a, true, false);
    JoinKeys(g, p, true, false);
    var size := h[a].size + EXTRA + h[p].size + EXTRA + h[n].size;
    var w := Written(h, {a, n}, p, Header(h[p].prevSize, size, true, h[n].last, false), GetNext(h, n));
    var k := Join(g, p, true, false);
    hide Join, Tiled;
    assert w.Keys == k.Keys;
    assert forall x :: x in k ==> w[x] == k[x];
  }

  // ---------------------------------------------------------------- the whole merge

  /** Block is what block0 has become: a used block between used ones; the free blocks gone are part of it. */
  ghost predicate MergeDone(h: Headers, m: Maps, b: Bytes, block0: int, h1: Headers, m1: Maps, block: int, gone: set<int>) {
    BlocksOk(h1, m1) && m1.size == m.size && Zero(h1, b) && NoneZeroed(h1) && block0 in h && block in h1 && h1[block].used &&
    NextUsed(h1, block) && PrevUsed(h1, block) && Live(h1) - {block} == Live(h) - {block0} &&
    (forall x, i :: FreeIn(h1, i, x) <==> FreeIn(h, i, x) && x !in gone) &&
    block <= block0 && End(h, block0) <= End(h1, block)
  }

  ghost predicate MergeReady(h: Headers, m: Maps, b: Bytes, a: int) {
    BlocksOk(h, m) && Zero(h, b) && NoneZeroed(h) && a in h && h[a].used
  }

  lemma MergedNone(h: Headers, m: Maps, b: Bytes, a: int)
    requires MergeReady(h, m, b, a) && NextUsed(h, a) && PrevUsed(h, a)
    ensures MergeDone(h, m, b, a, h, m, a, {})
  {
  }

  lemma MergedNext(h: Headers, m: Maps, b: Bytes, a: int)
    requires MergeReady(h, m, b, a) && !h[a].last && End(h, a) in h && !h[End(h, a)].used && PrevUsed(h, a)
    ensures MergeDone(h, m, b, a, Join(h, a, true, false), JoinHome(m, End(h, a)), a, {End(h, a)})
  {
    JoinFacts(h, m, b, a);
    JoinNext(h, m, a);
    Neighbours(h, m, a);
    Neighbours(h, m, End(h, a));
    assert Live(h) - {a, End(h, a)} == Live(h) - {a};
    hide Join, BlocksOk, Zero, Live;
  }

  lemma MergedPrev(h: Headers, m: Maps, b: Bytes, p: int, a: int)
    requires MergeReady(h, m, b, a) && p in h && !h[p].used && !h[p].last && End(h, p) == a && NextUsed(h, a)
    ensures MergeDone(h, m, b, a, Join(h, p, true, false), JoinHome(m, a), p, {p})
  {
    JoinFacts(h, m, b, p);
    JoinPrev(h, m, p);
    Neighbours(h, m, p);
    Neighbours(h, m, a);
    assert Live(h) - {p, a} == Live(h) - {a};
    hide Join, BlocksOk, Zero, Live;
  }

  /** The state between the two joins. */
  lemma HalfMerged(h: Headers, m: Maps, b: Bytes, p: int, a: int)
    requires MergeReady(h, m, b, a) && p in h && !h[p].used && !h[p].last && End(h, p) == a
    requires !h[a].last && End(h, a) in h && !h[End(h, a)].used
    ensures var g, k, n := Join(h, a, true, false), JoinHome(m, End(h, a)), End(h, a);
      p in g && g[p] == h[p] && End(g, p) == a && MergeReady(g, k, b, a) && NextUsed(g, a) && End(h, a) <= End(g, a) &&
      Live(g) - {a} == Live(h) - {a} && (forall x, i :: FreeIn(g, i, x) <==> FreeIn(h, i, x) && x != n) && k.size == m.size
  {
    var n := End(h, a);
    JoinFacts(h, m, b, a);
    JoinNext(h, m, a);
    Neighbours(h, m, p);
    Neighbours(h, m, a);
    Neighbours(h, m, n);
    JoinKeys(h, a, true, false);
    assert Live(h) - {a, n} == Live(h) - {a};
    hide Join, BlocksOk, Zero, Live, Tiled, Coalesced, Tags, Disjoint;
  }

  lemma MergeThen(h: Headers, m: Maps, b: Bytes, a: int, g: Headers, k: Maps, n: int, h1: Headers, m1: Maps, p: int)
    requires MergeDone(g, k, b, a, h1, m1, p, {p}) && a in h && End(h, a) <= End(g, a) && k.size == m.size
    requires Live(g) - {a} == Live(h) - {a} && (forall x, i :: FreeIn(g, i, x) <==> FreeIn(h, i, x) && x != n)
    ensures MergeDone(h, m, b, a, h1, m1, p, {p, n})
  {
    hide BlocksOk, Zero, Live, NoneZeroed, NextUsed, PrevUsed, FreeIn;
  }

  lemma MergedBoth(h: Headers, m: Maps, b: Bytes, p: int, a: int)
    requires MergeReady(h, m, b, a) && p in h && !h[p].used && !h[p].last && End(h, p) == a
    requires !h[a].last && End(h, a) in h && !h[End(h, a)].used
    ensures var g, k, n := Join(h, a, true, false), JoinHome(m, End(h, a)), End(h, a);
      p in g && End(g, p) in g && !g[p].last && MergeDone(h, m, b, a, Join(g, p, true, false), JoinHome(k, a), p, {p, n})
  {
    var g, k := Join(h, a, true, false), JoinHome(m, End(h, a));
    HalfMerged(h, m, b, p, a);
    assert a in g;
    hide *;
    MergedPrev(g, k, b, p, a);
    MergeThen(h, m, b, a, g, k, End(h, a), Join(g, p, true, false), JoinHome(k, a), p);
  }

  ghost predicate FreePrev(h: Headers, a: int)
    requires a in h
  {
    var p := GetPrevious(h, a);
    p.At? && p.address in h && !h[p.address].used
  }

  ghost predicate FreeNext(h: Headers, a: int)
    requires a in h
  {
    var n := GetNext(h, a);
    n.At? && n.address in h && !h[n.address].used
  }

  ghost function MergedHome(h: Headers, m: Maps, a: int): Maps
    requires a in h
  {
    var k := if FreeNext(h, a) then JoinHome(m, End(h, a)) else m;
    if FreePrev(h, a) then JoinHome(k, a) else k
  }

  /** The pointers to the neighbours, and what is known about those. */
  lemma Pointers(h: Headers, m: Maps, a: int)
    requires Tiled(h, m) && a in h
    ensures h[a].size > 0 && EXTRA > 0
    ensures var p := GetPrevious(h, a); p.At? ==> p.address in h && h[p.address].size > 0 && p.address != a
    ensures var n := GetNext(h, a); n.At? ==> n.address in h && h[n.address].size > 0 && n.address != a
    ensures var p, n := GetPrevious(h, a), GetNext(h, a); p.At? && n.At? ==> p.address != n.address
    ensures FreePrev(h, a) <==> GetPrevious(h, a).At? && !h[GetPrevious(h, a).address].used
    ensures FreeNext(h, a) <==> GetNext(h, a).At? && !h[GetNext(h, a).address].used
  {
    Neighbours(h, m, a);
    if h[a].prevSize != 0 {
      Neighbours(h, m, a - h[a].prevSize - EXTRA);
    }
    if !h[a].last {
      Neighbours(h, m, End(h, a));
    }
    hide Tiled;
  }

  lemma NotFree(h: Headers, a: int)
    requires a in h
    ensures !FreePrev(h, a) ==> PrevUsed(h, a)
    ensures !FreeNext(h, a) ==> NextUsed(h, a)
  {
  }

  /** What the merged block's header says. */
  ghost function MergedSize(h: Headers, a: int): int
    requires a in h
  {
    h[a].size + (if FreePrev(h, a) then h[GetPrevious(h, a).address].size + EXTRA else 0) +
    (if FreeNext(h, a) then h[GetNext(h, a).address].size + EXTRA else 0)
  }

  ghost predicate MergePlan(h: Headers, a: int, block: int, to: Header, next: Ptr, gone: set<int>, absorbed: set<int>)
    requires a in h
  {
    var p, n := GetPrevious(h, a), GetNext(h, a);
    block == (if FreePrev(h, a) then p.address else a) &&
    to == Header(if FreePrev(h, a) then h[p.address].prevSize else h[a].prevSize, MergedSize(h, a), true,
                 h[a].last || (FreeNext(h, a) && h[n.address].last), false) &&
    next == (if FreeNext(h, a) then GetNext(h, n.address) else n) &&
    gone == (if FreePrev(h, a) then {a} else {}) + (if FreeNext(h, a) then {n.address} else {}) &&
    absorbed == (if FreePrev(h, a) then {p.address} else {}) + (if FreeNext(h, a) then {n.address} else {})
  }

  lemma MergeWrites(h: Headers, m: Maps, b: Bytes, a: int, block: int, to: Header, next: Ptr, gone: set<int>, absorbed: set<int>)
    requires MergeReady(h, m, b, a) && (FreePrev(h, a) || FreeNext(h, a)) && MergePlan(h, a, block, to, next, gone, absorbed)
    ensures next.At? ==> next.address in h
    ensures MergeDone(h, m, b, a, Written(h, gone, block, to, next), MergedHome(h, m, a), block, absorbed)
  {
    Neighbours(h, m, a);
    NotFree(h, a);
    var p := a - h[a].prevSize - EXTRA;
    if FreePrev(h, a) && FreeNext(h, a) {
      assert {a} + {End(h, a)} == {a, End(h, a)};
      assert {p} + {End(h, a)} == {p, End(h, a)};
      hide Tiled, Coalesced, Zero, NoneZeroed, Join, Written, MergeDone, NextUsed, PrevUsed;
      WrittenTwice(h, m, p);
      MergedBoth(h, m, b, p, a);
    } else if FreePrev(h, a) {
      assert {a} + {} == {a} && {p} + {} == {p};
      hide Tiled, Coalesced, Zero, NoneZeroed, Join, Written, MergeDone, NextUsed, PrevUsed;
      WrittenOnce(h, m, p);
      MergedPrev(h, m, b, p, a);
    } else {
      assert {} + {End(h, a)} == {End(h, a)};
      hide Tiled, Coalesced, Zero, NoneZeroed, Join, Written, MergeDone, NextUsed, PrevUsed;
      WrittenOnce(h, m, a);
      MergedNext(h, m, b, a);
    }
  }

  lemma NothingMerged(h: Headers, m: Maps, b: Bytes, a: int)
    requires MergeReady(h, m, b, a) && !FreePrev(h, a) && !FreeNext(h, a)
    ensures MergeDone(h, m, b, a, h, m, a, {})
  {
    NotFree(h, a);
    hide *;
    MergedNone(h, m, b, a);
  }

  lemma ListsAfter(h: Headers, m: Maps, b: Bytes, a: int, h1: Headers, m1: Maps, block: int, ls: Lists, absorbed: set<int>)
    requires MergeDone(h, m, b, a, h1, m1, block, absorbed) && ListedBut(h, ls, absorbed)
    ensures Listed(h1, ls)
  {
    hide FreeIn, ListedBut;
    ListsKept(h, h1, ls, absorbed, {});
  }
}
