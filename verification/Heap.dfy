/** The allocator: malloc, calloc and free over boundary-tagged blocks. */
module Heaps {
  import opened HeapBlocks
  import opened HeapLists
  import opened HeapMemory
  import opened HeapMerge
  import opened Division

  /** What a call returns: a pointer to memory, or nothing, or it does not return. */
  datatype Outcome = NoMemory | Memory(address: int) | Aborted

  ghost predicate NoneZeroedBut(h: Headers, a: int) {
    forall x :: x in h && x != a && h[x].used ==> !h[x].zeroed
  }

  /** The memory of live blocks is as it was. */
  ghost predicate Untouched(live: map<int, int>, b: Bytes, b1: Bytes) {
    forall a, x {:trigger Owned(live, a, x)} :: Owned(live, a, x) ==> b1(x) == b(x)
  }

  ghost predicate Owned(live: map<int, int>, a: int, x: int) {
    a in live && a + EXTRA <= x < a + EXTRA + live[a]
  }

  ghost predicate AllZero(b: Bytes, lo: int, hi: int) {
    forall x :: lo <= x < hi ==> b(x) == 0
  }

  /** No free block of the searched size classes is large enough. */
  ghost predicate NoneFits(h: Headers, size: int) {
    size > 0 && forall a, i :: FreeIn(h, i, a) && i >= Bucket(size) ==> h[a].size < size
  }

  /** The first fitting block of the first searched list that has one. */
  ghost predicate FirstFit(h: Headers, ls: Lists, size: int, a: int) {
    size > 0 && |ls| == NBUCKETS && a in h && !h[a].used && h[a].size >= size && Bucket(size) <= Bucket(h[a].size) &&
    (forall c, i :: FreeIn(h, i, c) && Bucket(size) <= i < Bucket(h[a].size) ==> h[c].size < size) &&
    Leads(h, ls[Bucket(h[a].size)], size, a)
  }

  /** In this list only too small blocks come before. */
  ghost predicate Leads(h: Headers, list: seq<int>, size: int, a: int) {
    exists k :: 0 <= k < |list| && list[k] == a && forall j :: 0 <= j < k ==> list[j] in h && h[list[j]].size < size
  }

  /** The mappings after a request: there is a new one exactly if no block fits and the system provides one. */
  ghost function MapsAfter(maps: map<int, int>, h: Headers, size: nat, region: Ptr): map<int, int> {
    var n := FixBlockSize(size);
    if size != 0 && NoneFits(h, n) && region.At? then maps[region.address := MapSize(n)] else maps
  }

  /** The system can provide a new mapping for this request, and the computation of the mapping's size does not wrap
      around. */
  ghost predicate CanMap(m: Maps, p: int, size: nat) {
    p % PAGE == 0 && Free(m, p, MapSize(FixBlockSize(size))) && FixBlockSize(size) + EXTRA + PAGE - 1 < WORD
  }

  /** The size of a block that has been split for this request. */
  ghost predicate BlockFor(n: int, size: nat) {
    FixBlockSize(size) <= n < FixBlockSize(size) + EXTRA + EXTRA
  }

  /** The block has a mapping to itself. */
  ghost predicate Whole(h: Headers, a: int)
    requires a in h
  {
    h[a].prevSize == 0 && h[a].last
  }

  /** The block lies in this mapping, and no other live block does. */
  ghost predicate OnlyLive(maps: map<int, int>, live: map<int, int>, block: int, base: int) {
    base in maps && base <= block < base + maps[base] &&
    forall c :: c in live && c != block && base <= c ==> base + maps[base] <= c
  }

  /** The mappings without the one that holds no other live block than this one, if there is such a mapping. */
  ghost function GivenBack(maps: map<int, int>, live: map<int, int>, block: int): map<int, int> {
    map base | base in maps && !OnlyLive(maps, live, block, base) :: maps[base]
  }

  /** One more block is live: it is large enough, and its memory is at p. */
  ghost predicate NewBlock(live: map<int, int>, live1: map<int, int>, p: int, size: int) {
    var a := p - EXTRA;
    a !in live && a in live1 && live1[a] >= size && live1 == live[a := live1[a]]
  }

  /** The headers when a used block has given up what is not needed, if that is enough for a block. */
  function Trimmed(h: Headers, a: int, size: int): (g: Headers)
    requires a in h
    ensures a in g
  {
    if h[a].size >= size + EXTRA + EXTRA then Split(h, a, size) else h
  }

  /** The headers when a free block or a new mapping has become a used block of at least this size. */
  function Taken(h: Headers, a: int, size: nat): (g: Headers)
    ensures a in g
  {
    Trimmed(if a in h then h[a := h[a].(used := true)] else h[a := Fresh(MapSize(size))], a, size)
  }

  class Heap {
    var headers: Headers
    var lists: Lists
    var bytes: Bytes
    ghost var maps: Maps

    ghost predicate Valid()
      reads this
    {
      BlocksOk(headers, maps) && Listed(headers, lists) && Zero(headers, bytes) && NoneZeroed(headers)
    }

    constructor ()
      ensures Valid() && headers == map[] && maps == Maps(map[], map[])
    {
      headers, lists, bytes := map[], [[], [], [], [], [], [], [], []], _ => 0;
      maps := Maps(map[], map[]);
    }

    /** The list pointers at the start of a free block are written. */
    method WritePointers(block: int)
      modifies this`bytes
      ensures Elsewhere(old(bytes), bytes, block + EXTRA, block + EXTRA + EXTRA)
    {
      var b := bytes;
      var pointers: int -> int := *;
      bytes := x => if block + EXTRA <= x < block + EXTRA + EXTRA then pointers(x) else b(x);
    }

    /** A header is written where there was none. */
    method WriteHeader(block: int)
      modifies this`bytes
      ensures Elsewhere(old(bytes), bytes, block, block + EXTRA)
    {
      var b := bytes;
      var header: int -> int := *;
      bytes := x => if block <= x < block + EXTRA then header(x) else b(x);
    }

    method FreeListInsert(block: int)
      requires Tags(headers) && Disjoint(headers) && ListedBut(headers, lists, {block})
      requires block in headers && headers[block].size > 0 && !headers[block].used
      modifies this`lists, this`bytes
      ensures Listed(headers, lists) && Kept(headers, old(bytes), bytes)
      ensures lists == var idx := Bucket(headers[block].size); old(lists)[idx := [block] + old(lists)[idx]]
    {
      var idx := Bucket(headers[block].size);
      ghost var b := bytes;
      WritePointers(block);
      Scribbled(headers, block, b, bytes);
      assert ListOk(headers, lists[idx], idx, {block});
      if lists[idx] != [] {
        assert lists[idx][0] in lists[idx];
        assert FreeIn(headers, idx, lists[idx][0]);
        ghost var c := bytes;
        WritePointers(lists[idx][0]);
        Scribbled(headers, lists[idx][0], c, bytes);
        KeptTrans(headers, b, c, bytes);
      }
      ListInserted(headers, lists, block, idx);
      lists := lists[idx := [block] + lists[idx]];
    }

    /** Takes a block out of the lists, which go with the headers h. */
    method FreeListRemove(block: int, ghost h: Headers, ghost out: set<int>)
      requires Tags(h) && Disjoint(h) && ListedBut(h, lists, out) && block !in out
      requires block in h && h[block].size > 0 && !h[block].used && block in headers && headers[block].size == h[block].size
      modifies this`lists, this`bytes
      ensures ListedBut(h, lists, out + {block}) && Kept(h, old(bytes), bytes)
      ensures lists == var idx := Bucket(h[block].size); old(lists)[idx := Without(old(lists)[idx], block)]
    {
      var idx := Bucket(headers[block].size);
      assert ListOk(h, lists[idx], idx, out);
      assert FreeIn(h, idx, block);
      var k :| 0 <= k < |lists[idx]| && lists[idx][k] == block;
      ghost var b := bytes;
      WritePointers(block);
      Scribbled(h, block, b, bytes);
      if k > 0 {
        Neighbour(h, idx, k - 1, out);
        ghost var c := bytes;
        WritePointers(lists[idx][k - 1]);
        Scribbled(h, lists[idx][k - 1], c, bytes);
        KeptTrans(h, b, c, bytes);
      }
      if k + 1 < |lists[idx]| {
        Neighbour(h, idx, k + 1, out);
        ghost var c := bytes;
        WritePointers(lists[idx][k + 1]);
        Scribbled(h, lists[idx][k + 1], c, bytes);
        KeptTrans(h, b, c, bytes);
      }
      ListRemoved(h, lists, block, idx, out);
      lists := lists[idx := Without(lists[idx], block)];
    }

    lemma Neighbour(h: Headers, idx: int, k: nat, out: set<int>)
      requires ListedBut(h, lists, out) && 0 <= idx < NBUCKETS && k < |lists[idx]|
      ensures lists[idx][k] in h && !h[lists[idx][k]].used
    {
      assert ListOk(h, lists[idx], idx, out) && lists[idx][k] in lists[idx];
      assert FreeIn(h, idx, lists[idx][k]);
    }

    /** Merges a used block with its free neighbours. */
    method TryMerge(block0: int) returns (block: int)
      requires Valid() && block0 in headers && headers[block0].used
      modifies this
      ensures Valid() && maps.size == old(maps.size) && Kept(old(headers), old(bytes), bytes)
      ensures block in headers && headers[block].used && NextUsed(headers, block) && PrevUsed(headers, block)
      ensures Live(headers) - {block} == old(Live(headers)) - {block0}
      ensures block <= block0 && old(End(headers, block0)) <= End(headers, block)
    {
      ghost var h, m, b0 := headers, maps, bytes;
      hide *;
      Unfold();
      Pointers(h, m, block0);
      KeptRefl(h, b0);
      var prev, next := GetPrevious(headers, block0), GetNext(headers, block0);
      var size, prevSize, last := headers[block0].size, headers[block0].prevSize, headers[block0].last;
      block := block0;
      var gone, absorbed := {}, {};
      if prev.At? && !headers[prev.address].used {
        FreeListRemove(prev.address, h, {});
        block := prev.address;
        prevSize := headers[prev.address].prevSize;
        size := size + headers[prev.address].size + EXTRA;
        gone, absorbed := {block0}, {} + {prev.address};
      }
      ghost var b1 := bytes;
      if next.At? && !headers[next.address].used {
        FreeListRemove(next.address, h, absorbed);
        KeptTrans(h, b0, b1, bytes);
        size := size + headers[next.address].size + EXTRA;
        last := last || headers[next.address].last;
        gone, absorbed := gone + {next.address}, absorbed + {next.address};
        next := GetNext(headers, next.address);
      }
      KeptZero(h, b0, bytes);
      FoldReady(h, m, bytes, block0);
      if size != headers[block0].size {
        var to := Header(prevSize, size, true, last, false);
        FoldPlan(h, block0, block, to, next, gone, absorbed);
        MergeWrites(h, m, bytes, block0, block, to, next, gone, absorbed);
        maps := MergedHome(h, m, block0);
        headers := Written(headers, gone, block, to, next);
      } else {
        NothingMerged(h, m, bytes, block0);
      }
      ListsAfter(h, m, bytes, block0, headers, maps, block, lists, absorbed);
      AfterMerge(h, m, bytes, block0, headers, maps, block, absorbed);
      Fold();
    }

    lemma Fold()
      requires BlocksOk(headers, maps) && Listed(headers, lists) && Zero(headers, bytes) && NoneZeroed(headers)
      ensures Valid()
    {
    }

    /** Marks a block as used and takes it out of the free lists. */
    method AllocMemblock(block: int)
      requires Valid() && block in headers && !headers[block].used
      modifies this`headers, this`lists, this`bytes
      ensures headers == old(headers)[block := old(headers)[block].(used := true)] && BlocksOk(headers, maps)
      ensures Listed(headers, lists) && Zero(headers, bytes) && NextUsed(headers, block) && Kept(old(headers), old(bytes), bytes)
    {
      ghost var h := headers;
      hide *;
      Unfold();
      Pointers(h, maps, block);
      headers := headers[block := headers[block].(used := true)];
      FreeListRemove(block, h, {});
      KeptZero(h, old(bytes), bytes);
      Allocated(h, maps, bytes, block, lists);
    }

    /** Cuts off what is not needed, if that is enough for a block. */
    method MaybeSplitBlock(block: int, size: int)
      requires BlocksOk(headers, maps) && Listed(headers, lists) && Zero(headers, bytes) && SizeOk(size)
      requires block in headers && headers[block].used && NextUsed(headers, block) && size <= headers[block].size
      modifies this
      ensures BlocksOk(headers, maps) && Listed(headers, lists) && Zero(headers, bytes) && maps.size == old(maps.size)
      ensures block in headers && headers[block].used && headers[block].zeroed == old(headers[block].zeroed) && size <= headers[block].size
      ensures headers[block].size < size + EXTRA + EXTRA && headers == Trimmed(old(headers), block, size)
      ensures Live(headers) == old(Live(headers))[block := headers[block].size] && Kept(headers, old(bytes), bytes)
      ensures NoneZeroedBut(old(headers), block) ==> NoneZeroedBut(headers, block)
    {
      ghost var h, m, b0 := headers, maps, bytes;
      hide *;
      KeptRefl(h, b0);
      if headers[block].size >= size + EXTRA + EXTRA {
        FoldSplit(h, block, size);
        SplitFacts(h, m, b0, block, size, lists);
        var next := block + EXTRA + size;
        headers := Split(headers, block, size);
        maps := SplitHome(m, block, next);
        WriteHeader(next);
        HeaderWritten(headers, next, b0, bytes);
        ghost var b1 := bytes;
        FreeListInsert(next);
        KeptTrans(headers, b0, b1, bytes);
        KeptZero(headers, b0, bytes);
      } else {
        LiveSame(h, block);
      }
      TrimmedIs(h, block, size);
    }

    /** First fit, in the list for the size and those for larger classes. */
    method FindFreeBlock(size: int) returns (block: Ptr)
      requires Valid() && SizeOk(size)
      ensures block.At? ==> FirstFit(headers, lists, size, block.address)
      ensures block == Null <==> NoneFits(headers, size)
    {
      var i := Bucket(size);
      while i < NBUCKETS
        invariant Bucket(size) <= i <= NBUCKETS
        invariant forall a, j :: FreeIn(headers, j, a) && Bucket(size) <= j < i ==> headers[a].size < size
      {
        assert ListOk(headers, lists[i], i, {});
        var k := 0;
        while k < |lists[i]|
          invariant 0 <= k <= |lists[i]|
          invariant forall j :: 0 <= j < k ==> lists[i][j] in headers && headers[lists[i][j]].size < size
        {
          assert lists[i][k] in lists[i];
          assert FreeIn(headers, i, lists[i][k]);
          if headers[lists[i][k]].size >= size {
            return At(lists[i][k]);
          }
          k := k + 1;
        }
        i := i + 1;
      }
      return Null;
    }

    /** The system provides n bytes of zeros at p, which become one used block. */
    method NewMapping(p: int, n: int)
      requires Valid() && p % PAGE == 0 && SizeOk(n - EXTRA) && Free(maps, p, n)
      modifies this
      ensures headers == old(headers)[p := Fresh(n)] && p !in old(headers) && BlocksOk(headers, maps) && NextUsed(headers, p)
      ensures Listed(headers, lists) && Zero(headers, bytes) && Kept(old(headers), old(bytes), bytes)
      ensures maps.size == old(maps.size)[p := n]
    {
      ghost var h, m, b0 := headers, maps, bytes;
      var b := bytes;
      bytes := x => if p <= x < p + n then 0 else b(x);
      ghost var b1 := bytes;
      assert AllZero(b1, p, p + n) && Elsewhere(b0, b1, p, p + n);
      hide *;
      Unfold();
      WriteHeader(p);
      MappedFacts(h, m, b0, b1, bytes, p, n, lists);
      headers := headers[p := Fresh(n)];
      maps := Maps(maps.size[p := n], maps.home[p := p]);
    }

    /** A used block for a request; its memory may still be marked as zero. */
    method AllocateBlock(size: nat, region: Ptr) returns (block: Ptr)
      requires Valid() && size < WORD
      requires region.At? ==> CanMap(maps, region.address, size)
      modifies this
      ensures block.Null? ==> Valid() && headers == old(headers) && lists == old(lists) && bytes == old(bytes)
      ensures block.Null? <==> size == 0 || (region.Null? && NoneFits(old(headers), FixBlockSize(size)))
      ensures block.At? ==> BlocksOk(headers, maps) && Listed(headers, lists) && Zero(headers, bytes) && NoneZeroedBut(headers, block.address)
      ensures block.At? ==> block.address in headers && headers[block.address].used && BlockFor(headers[block.address].size, size)
      ensures block.At? ==> block.address !in old(Live(headers)) && headers == Taken(old(headers), block.address, FixBlockSize(size))
      ensures block.At? && NoneFits(old(headers), FixBlockSize(size)) ==> block == region && block.address !in old(headers)
      ensures block.At? && !NoneFits(old(headers), FixBlockSize(size)) ==>
        FirstFit(old(headers), old(lists), FixBlockSize(size), block.address)
      ensures maps.size == MapsAfter(old(maps.size), old(headers), size, region)
      ensures block.At? ==> Live(headers) == old(Live(headers))[block.address := headers[block.address].size]
      ensures block.At? ==> Untouched(old(Live(headers)), old(bytes), bytes)
    {
      ghost var h, b0 := headers, bytes;
      hide *;
      Unfold();
      MapsAfterIs(maps.size, h, size, region);
      if size == 0 {
        return Null;
      }
      EnoughSizes(size);
      var n := FixBlockSize(size);
      block := FindFreeBlock(n);
      if block.At? {
        AllocMemblock(block.address);
      } else {
        if region.Null? {
          return;
        }
        MappingRoom(maps, region.address, size);
        NewMapping(region.address, MapSize(n));
        block := region;
      }
      BlockTaken(h, headers, block.address, n);
      TakenIs(h, headers, block.address, n);
      ghost var b1 := bytes;
      MaybeSplitBlock(block.address, n);
      TakenKept(h, headers, b0, b1, bytes, block.address);
      BlockForIs(headers[block.address].size, size);
    }

    /** Memory for size bytes: a live block more, and all others as they were. Its size wraps around for the last
        15 sizes, and is enough for all others. */
    method Malloc(size: nat, region: Ptr) returns (r: Outcome)
      requires Valid() && size < WORD
      requires region.At? ==> CanMap(maps, region.address, size)
      modifies this
      ensures Valid() && r != Aborted
      ensures r == NoMemory <==> size == 0 || (region.Null? && NoneFits(old(headers), FixBlockSize(size)))
      ensures r == NoMemory ==> headers == old(headers) && lists == old(lists) && bytes == old(bytes)
      ensures r.Memory? ==> NewBlock(old(Live(headers)), Live(headers), r.address, FixBlockSize(size))
      ensures r.Memory? ==> (Live(headers)[r.address - EXTRA] >= size <==> size <= WORD - EXTRA)
      ensures r.Memory? ==> Untouched(old(Live(headers)), old(bytes), bytes)
      ensures r.Memory? ==>
        var a := r.address - EXTRA; var g := Taken(old(headers), a, FixBlockSize(size)); headers == g[a := g[a].(zeroed := false)]
      ensures r.Memory? && NoneFits(old(headers), FixBlockSize(size)) ==> region == At(r.address - EXTRA) && r.address - EXTRA !in old(headers)
      ensures r.Memory? && !NoneFits(old(headers), FixBlockSize(size)) ==>
        FirstFit(old(headers), old(lists), FixBlockSize(size), r.address - EXTRA)
      ensures maps.size == MapsAfter(old(maps.size), old(headers), size, region)
    {
      ghost var h := headers;
      hide *;
      var block := AllocateBlock(size, region);
      if block.Null? {
        return NoMemory;
      }
      ClearZeroed(headers, maps, bytes, block.address, lists);
      NewBlockIs(h, headers, block.address, size);
      EnoughFor(headers[block.address].size, size);
      headers := headers[block.address := headers[block.address].(zeroed := false)];
      r := Memory(block.address + EXTRA);
      Fold();
    }

    method Fill(lo: int, hi: int)
      modifies this`bytes
      ensures AllZero(bytes, lo, hi) && Elsewhere(old(bytes), bytes, lo, hi)
    {
      var b := bytes;
      bytes := x => if lo <= x < hi then 0 else b(x);
    }

    /** Like malloc for nmemb times size bytes, all of them zero; it gives up exactly if the product does not fit. */
    method Calloc(nmemb: nat, size: nat, region: Ptr) returns (r: Outcome)
      requires Valid() && nmemb < WORD && size < WORD
      requires region.At? && size * nmemb < WORD ==> CanMap(maps, region.address, size * nmemb)
      modifies this
      ensures Valid() && (r == Aborted <==> size * nmemb >= WORD)
      ensures !r.Memory? ==> headers == old(headers) && lists == old(lists) && bytes == old(bytes)
      ensures r == NoMemory <==> size * nmemb < WORD && (size * nmemb == 0 || (region.Null? && NoneFits(old(headers), FixBlockSize(size * nmemb))))
      ensures r.Memory? && NoneFits(old(headers), FixBlockSize(size * nmemb)) ==> region == At(r.address - EXTRA)
      ensures r.Memory? && !NoneFits(old(headers), FixBlockSize(size * nmemb)) ==>
        FirstFit(old(headers), old(lists), FixBlockSize(size * nmemb), r.address - EXTRA)
      ensures maps.size == if r == Aborted then old(maps.size) else MapsAfter(old(maps.size), old(headers), size * nmemb, region)
      ensures r.Memory? ==> NewBlock(old(Live(headers)), Live(headers), r.address, FixBlockSize(size * nmemb))
      ensures r.Memory? ==> (Live(headers)[r.address - EXTRA] >= size * nmemb <==> size * nmemb <= WORD - EXTRA)
      ensures r.Memory? ==> Untouched(old(Live(headers)), old(bytes), bytes)
      ensures r.Memory? ==> AllZero(bytes, r.address, r.address + Live(headers)[r.address - EXTRA])
    {
      ghost var h, b0 := headers, bytes;
      hide *;
      var total := size * nmemb % WORD;
      CallocCheck(nmemb, size);
      if size != 0 && total / size != nmemb {
        return Aborted;
      }
      Fits(size * nmemb);
      var block := AllocateBlock(total, region);
      if block.Null? {
        return NoMemory;
      }
      var a := block.address;
      ghost var g, b1 := headers, bytes;
      ClearZeroed(g, maps, bytes, a, lists);
      NewBlockIs(h, headers, a, total);
      EnoughFor(headers[a].size, total);
      if headers[a].zeroed {
        headers := headers[a := headers[a].(zeroed := false)];
        Fill(a + EXTRA, a + EXTRA + EXTRA);
        FilledHead(g, b1, bytes, a);
      } else {
        headers := headers[a := headers[a].(zeroed := false)];
        Fill(a + EXTRA, a + EXTRA + headers[a].size);
        Filled(g, b1, bytes, a);
      }
      AfterFill(h, g, headers, maps, b0, b1, bytes, a);
      r := Memory(a + EXTRA);
      Fold();
    }

    /** Gives a block back: to the system if it is a whole mapping and unmapping works, otherwise to the free lists. */
    method FreeMemblock(block: int, unmaps: bool)
      requires Valid() && block in headers && headers[block].used && NextUsed(headers, block) && PrevUsed(headers, block)
      modifies this
      ensures Valid() && Live(headers) == old(Live(headers)) - {block} && Untouched(Live(headers), old(bytes), bytes)
      ensures Whole(old(headers), block) ==> block in old(maps.size) && old(maps.size)[block] == EXTRA + old(headers)[block].size
      ensures if unmaps && Whole(old(headers), block)
        then maps.size == old(maps.size) - {block} && headers == old(headers) - {block}
        else maps.size == old(maps.size) && headers == old(headers)[block := old(headers)[block].(used := false)]
    {
      ghost var h, b0 := headers, bytes;
      hide *;
      Unfold();
      UnlistUsed(h, lists, block);
      Pointers(h, maps, block);
      WholeIs(h, maps, block);
      if GetPrevious(headers, block).Null? && GetNext(headers, block).Null? && unmaps {
        UnmappedFacts(h, maps, bytes, block, lists);
        headers := headers - {block};
        maps := Maps(maps.size - {block}, maps.home - {block});
        UntouchedRefl(Live(headers), bytes);
      } else {
        FreedFacts(h, maps, bytes, block, lists);
        headers := headers[block := headers[block].(used := false)];
        FreeListInsert(block);
        KeptZero(headers, b0, bytes);
        KeptOwned(headers, b0, bytes);
      }
      Fold();
    }

    /** A pointer that is not to a live block is noticed; otherwise that block is live no longer, and all others are
        as they were. */
    method Release(ptr: Ptr, unmaps: bool) returns (aborted: bool)
      requires Valid() && (ptr.At? ==> ptr.address - EXTRA in headers)
      modifies this
      ensures Valid() && (aborted <==> ptr.At? && ptr.address - EXTRA !in old(Live(headers)))
      ensures ptr.Null? || aborted ==> headers == old(headers) && lists == old(lists) && bytes == old(bytes)
      ensures ptr.At? && !aborted ==> Live(headers) == old(Live(headers)) - {ptr.address - EXTRA}
      ensures Untouched(Live(headers), old(bytes), bytes)
      ensures maps.size ==
        if ptr.At? && !aborted && unmaps then GivenBack(old(maps.size), old(Live(headers)), ptr.address - EXTRA) else old(maps.size)
    {
      ghost var h, b0, maps0 := headers, bytes, maps.size;
      UntouchedRefl(Live(h), b0);
      hide *;
      if ptr.Null? {
        return false;
      }
      var block := ptr.address - EXTRA;
      LiveIs(h, maps, block) by {
        Unfold();
      }
      if !headers[block].used || !SizeOk(headers[block].size) {
        return true;
      }
      aborted := false;
      var merged := TryMerge(block);
      ghost var l1, b1 := Live(headers), bytes;
      KeptOwned(h, b0, b1);
      OnlyOneLeft(headers, maps, merged, block, Live(h)) by {
        Unfold();
      }
      FreeMemblock(merged, unmaps);
      ReleasedKept(Live(h), l1, Live(headers), b0, b1, bytes, block, merged);
    }

    /** The user of a live block writes to it. */
    method UserWrite(block: int, x: int, value: int)
      requires Valid() && Owned(Live(headers), block, x)
      modifies this`bytes
      ensures Valid() && bytes(x) == value && Elsewhere(old(bytes), bytes, x, x + 1)
    {
      var b := bytes;
      bytes := y => if y == x then value else b(y);
      UserWrote(headers, maps, b, bytes, block, x);
    }

    lemma Unfold()
      requires Valid()
      ensures BlocksOk(headers, maps) && Listed(headers, lists) && ListedBut(headers, lists, {}) && Zero(headers, bytes) && NoneZeroed(headers)
      ensures Tiled(headers, maps) && Coalesced(headers) && Tags(headers) && Disjoint(headers)
    {
    }
  }

  lemma FoldReady(h: Headers, m: Maps, b: Bytes, a: int)
    requires BlocksOk(h, m) && Zero(h, b) && NoneZeroed(h) && a in h && h[a].used
    ensures MergeReady(h, m, b, a)
  {
  }

  lemma FoldPlan(h: Headers, a: int, block: int, to: Header, next: Ptr, gone: set<int>, absorbed: set<int>)
    requires a in h
    requires var p, n := GetPrevious(h, a), GetNext(h, a);
      block == (if FreePrev(h, a) then p.address else a) &&
      to == Header(if FreePrev(h, a) then h[p.address].prevSize else h[a].prevSize,
                   h[a].size + (if FreePrev(h, a) then h[p.address].size + EXTRA else 0) + (if FreeNext(h, a) then h[n.address].size + EXTRA else 0),
                   true, h[a].last || (FreeNext(h, a) && h[n.address].last), false) &&
      next == (if FreeNext(h, a) then GetNext(h, n.address) else n) &&
      gone == (if FreePrev(h, a) then {a} else {}) + (if FreeNext(h, a) then {n.address} else {}) &&
      absorbed == (if FreePrev(h, a) then {p.address} else {}) + (if FreeNext(h, a) then {n.address} else {})
    ensures MergePlan(h, a, block, to, next, gone, absorbed)
  {
  }

  lemma AfterMerge(h: Headers, m: Maps, b: Bytes, a: int, h1: Headers, m1: Maps, block: int, gone: set<int>)
    requires MergeDone(h, m, b, a, h1, m1, block, gone)
    ensures BlocksOk(h1, m1) && m1.size == m.size && Zero(h1, b) && NoneZeroed(h1) && a in h && block in h1 && h1[block].used
    ensures NextUsed(h1, block) && PrevUsed(h1, block) && Live(h1) - {block} == Live(h) - {a}
    ensures block <= a && End(h, a) <= End(h1, block)
  {
  }

  lemma Allocated(h: Headers, m: Maps, b: Bytes, block: int, ls: Lists)
    requires BlocksOk(h, m) && Zero(h, b) && block in h && !h[block].used && ListedBut(h, ls, {} + {block})
    ensures var g := h[block := h[block].(used := true)];
      BlocksOk(g, m) && Listed(g, ls) && Zero(g, b) && NextUsed(g, block)
  {
    var g := h[block := h[block].(used := true)];
    Reflagged(h, m, block, true, h[block].zeroed);
    UsedCoalesced(h, block, h[block].zeroed);
    AloneNext(h, block);
    Neighbours(h, m, block);
    assert {} + {block} == {block};
    hide Tiled, Coalesced, ListedBut;
    ListsKept(h, g, ls, {block}, {});
    forall a, x | Claimed(g, a, x) ensures b(x) == 0 {
      assert Claimed(h, a, x);
    }
  }

  lemma FoldSplit(h: Headers, a: int, size: int)
    requires a in h && SizeOk(size) && size + EXTRA + EXTRA <= h[a].size
    ensures CanSplit(h, a, size)
  {
  }

  lemma SplitFacts(h: Headers, m: Maps, b: Bytes, a: int, size: int, ls: Lists)
    requires BlocksOk(h, m) && Zero(h, b) && a in h && h[a].used && NextUsed(h, a) && CanSplit(h, a, size) && Listed(h, ls)
    ensures var g, n := Split(h, a, size), a + EXTRA + size;
      a in m.home && BlocksOk(g, SplitHome(m, a, n)) && Tags(g) && Disjoint(g) && Zero(g, b) && Live(g) == Live(h)[a := g[a].size] &&
      SplitHome(m, a, n).size == m.size && ListedBut(g, ls, {n})
    ensures var g, n := Split(h, a, size), a + EXTRA + size;
      n in g && !g[n].used && g[n].size > 0 && a in g && g[a].used && g[a].zeroed == h[a].zeroed && g[a].size == size && EXTRA > 0
    ensures NoneZeroedBut(h, a) ==> NoneZeroedBut(Split(h, a, size), a)
  {
    var g, n := Split(h, a, size), a + EXTRA + size;
    SplitHeaders(h, m, a, size);
    SplitUp(h, m, a, size);
    SplitCoalesced(h, a, size);
    SplitLive(h, a, size);
    SplitZero(h, b, a, size);
    hide Split, Tiled, Coalesced, Tags, Disjoint, ListedBut, Live, Bucket, FreeIn, Zero;
    ListsKept(h, g, ls, {}, {n});
  }

  lemma SplitHeaders(h: Headers, m: Maps, a: int, size: int)
    requires BlocksOk(h, m) && a in h && h[a].used && CanSplit(h, a, size)
    ensures var g, n := Split(h, a, size), a + EXTRA + size;
      n in g && !g[n].used && g[n].size > 0 && a in g && g[a].used && g[a].zeroed == h[a].zeroed && g[a].size == size && EXTRA > 0 &&
      a in m.home && SplitHome(m, a, n).size == m.size
    ensures var g, n := Split(h, a, size), a + EXTRA + size;
      forall x, i :: FreeIn(h, i, x) && x !in {} <==> FreeIn(g, i, x) && x !in {n}
    ensures NoneZeroedBut(h, a) ==> NoneZeroedBut(Split(h, a, size), a)
  {
    Neighbours(h, m, a);
    SplitKeys(h, a, size);
    hide Split, Tiled, Coalesced, Tags, Disjoint, Bucket;
  }

  lemma SplitZero(h: Headers, b: Bytes, a: int, size: int)
    requires Tags(h) && Disjoint(h) && Zero(h, b) && a in h && CanSplit(h, a, size)
    ensures Zero(Split(h, a, size), b)
  {
    var g, n := Split(h, a, size), a + EXTRA + size;
    SplitKeys(h, a, size);
    hide Split, Tags, Disjoint;
    forall c, x | Claimed(g, c, x) ensures b(x) == 0 {
      assert Claimed(h, if c == n then a else c, x);
    }
  }

  lemma TrimmedIs(h: Headers, a: int, size: int)
    requires a in h
    ensures Trimmed(h, a, size) == if h[a].size >= size + EXTRA + EXTRA then Split(h, a, size) else h
  {
  }

  lemma LiveSame(h: Headers, a: int)
    requires a in h && h[a].used
    ensures Live(h) == Live(h)[a := h[a].size]
  {
  }

  lemma MappedFacts(h: Headers, m: Maps, b: Bytes, b1: Bytes, b2: Bytes, p: int, n: int, ls: Lists)
    requires BlocksOk(h, m) && Listed(h, ls) && Zero(h, b) && p % PAGE == 0 && SizeOk(n - EXTRA) && Free(m, p, n)
    requires AllZero(b1, p, p + n) && Elsewhere(b, b1, p, p + n) && Elsewhere(b1, b2, p, p + EXTRA)
    ensures var g := h[p := Fresh(n)];
      p !in h && BlocksOk(g, Maps(m.size[p := n], m.home[p := p])) && NextUsed(g, p) && Listed(g, ls) && Zero(g, b2) && Kept(h, b, b2)
  {
    var g := h[p := Fresh(n)];
    assert p % EXTRA == 0;
    Mapped(h, m, p, n);
    forall a | a in g ensures Alone(g, a) {
      MappedAlone(h, m, p, n, a);
    }
    MappedLists(h, g, p, n, ls);
    forall a, x | Claimed(g, a, x) ensures b2(x) == 0 {
      if a != p {
        ApartFromNew(h, m, p, n, a);
        assert Claimed(h, a, x);
      }
    }
    forall a, x | Body(h, a, x) ensures b2(x) == b(x) {
      ApartFromNew(h, m, p, n, a);
    }
  }

  lemma MappedAlone(h: Headers, m: Maps, p: int, n: int, a: int)
    requires BlocksOk(h, m) && p !in h && (a in h || a == p)
    ensures Alone(h[p := Fresh(n)], a)
  {
    if a in h {
      assert Alone(h, a);
      Neighbours(h, m, a);
    }
  }

  lemma MappedLists(h: Headers, g: Headers, p: int, n: int, ls: Lists)
    requires Listed(h, ls) && p !in h && g == h[p := Fresh(n)]
    ensures Listed(g, ls)
  {
    hide ListedBut, Bucket;
    ListsKept(h, g, ls, {}, {});
  }

  lemma EnoughSizes(size: nat)
    requires size < WORD
    ensures SizeOk(FixBlockSize(size)) && 1 <= FixBlockSize(size) < WORD
  {
    FixIsEnough(size);
  }

  lemma PageAligned(n: int)
    requires n % PAGE == 0
    ensures n % EXTRA == 0 && (n - EXTRA) % EXTRA == 0
  {
  }

  lemma MappingSize(n: int)
    requires SizeOk(n) && n < WORD && n + EXTRA + PAGE - 1 < WORD
    ensures SizeOk(MapSize(n) - EXTRA) && Fresh(MapSize(n)).size >= n && Fresh(MapSize(n)).used
  {
    MapIsEnough(n);
    assert MapSize(n) >= DEFAULT_MAP_SIZE;
    var k := MapSize(n);
    hide MapSize;
    PageAligned(k);
  }

  lemma MappingRoom(m: Maps, p: int, size: nat)
    requires size < WORD && CanMap(m, p, size)
    ensures var n := FixBlockSize(size);
      n >= 1 && p % PAGE == 0 && Free(m, p, MapSize(n)) && SizeOk(MapSize(n) - EXTRA) && Fresh(MapSize(n)).size >= n && Fresh(MapSize(n)).used
  {
    EnoughSizes(size);
    MappingSize(FixBlockSize(size));
  }

  lemma BlockForIs(n: int, size: nat)
    requires FixBlockSize(size) <= n < FixBlockSize(size) + EXTRA + EXTRA
    ensures BlockFor(n, size)
  {
  }

  lemma EnoughFor(n: int, size: nat)
    requires size < WORD && BlockFor(n, size)
    ensures n >= size <==> size <= WORD - EXTRA
  {
    FixIsEnough(size);
  }

  /** A block has been taken: a free one, or a new one. */
  lemma BlockTaken(h: Headers, h1: Headers, a: int, n: int)
    requires NoneZeroed(h) && a in h1 && h1[a].used && h1[a].size >= n
    requires h1 == h[a := h1[a]] && (a in h ==> !h[a].used)
    ensures NoneZeroedBut(h1, a) && a !in Live(h) && Live(h1) == Live(h)[a := h1[a].size]
  {
  }

  lemma MapsAfterIs(maps: map<int, int>, h: Headers, size: nat, region: Ptr)
    ensures MapsAfter(maps, h, size, region) ==
      if size != 0 && NoneFits(h, FixBlockSize(size)) && region.At? then maps[region.address := MapSize(FixBlockSize(size))] else maps
  {
  }

  lemma TakenIs(h: Headers, h1: Headers, a: int, n: nat)
    requires a in h1 && h1 == if a in h then h[a := h[a].(used := true)] else h[a := Fresh(MapSize(n))]
    ensures Taken(h, a, n) == Trimmed(h1, a, n)
  {
  }

  lemma TakenKept(h: Headers, h2: Headers, b: Bytes, b1: Bytes, b2: Bytes, a: int)
    requires Kept(h, b, b1) && Kept(h2, b1, b2) && a !in Live(h) && a in h2 && Live(h2) == Live(h)[a := h2[a].size]
    ensures Untouched(Live(h), b, b2)
  {
    forall c, x | Owned(Live(h), c, x) ensures b2(x) == b(x) {
      assert Body(h, c, x);
      assert c in Live(h2) && Live(h2)[c] == Live(h)[c];
      assert Body(h2, c, x);
    }
  }

  /** Live blocks are aligned, lie inside a mapping, and do not share any byte. */
  lemma LiveApart(heap: Heap, a: int, b: int, x: int)
    requires heap.Valid() && Owned(Live(heap.headers), a, x)
    ensures a % EXTRA == 0 && exists base :: base in heap.maps.size && base <= x < base + heap.maps.size[base]
    ensures Owned(Live(heap.headers), b, x) ==> a == b
  {
    ExactlyTiled(heap.headers, heap.maps, x);
    Neighbours(heap.headers, heap.maps, a);
    assert a in heap.headers && a <= x < End(heap.headers, a);
  }

  // ---------------------------------------------------------------- a request that is turned down

  /** The headers after the first allocation, of 16304 bytes: 48 bytes of the new mapping are left. */
  function FirstTaken(p: int): Headers {
    map[p := Header(0, 16304, true, false, false), p + 16320 := Header(16304, 48, false, true, true)]
  }

  lemma FirstTakenIs(p: int)
    ensures FixBlockSize(16304) == 16304 && FixBlockSize(32) == 32 && MapSize(16304) == 16384
    ensures Taken(map[], p, 16304)[p := Taken(map[], p, 16304)[p].(zeroed := false)] == FirstTaken(p)
  {
    assert MapSize(16304) == 16384;
    assert Fresh(16384) == Header(0, 16368, true, true, true);
  }

  /** The free block of 48 bytes is in a list that is not searched for 32 bytes. */
  lemma FirstNoneFits(p: int)
    ensures NoneFits(FirstTaken(p), 32) && exists a :: a in FirstTaken(p) && !FirstTaken(p)[a].used && FirstTaken(p)[a].size > 32
  {
    ClassesAreNotOrdered();
    assert p + 16320 in FirstTaken(p);
  }

  lemma FirstRoom(p: int)
    requires p % PAGE == 0
    ensures NoneFits(map[], 16304) && CanMap(Maps(map[], map[]), p, 16304) && 32 < 16304 < WORD
  {
  }

  /** Right after its first allocation, a heap can turn down a request although a large enough block is free. */
  method TurnedDown(p: int) returns (heap: Heap, r: Outcome)
    requires p % PAGE == 0
    ensures heap.Valid() && heap.headers == FirstTaken(p) && r == NoMemory
    ensures exists a :: a in heap.headers && !heap.headers[a].used && heap.headers[a].size > FixBlockSize(32)
  {
    hide *;
    heap := new Heap();
    FirstTakenIs(p);
    FirstRoom(p);
    r := heap.Malloc(16304, At(p));
    FirstNoneFits(p);
    r := heap.Malloc(32, Null);
  }

  // ---------------------------------------------------------------- flags and contents of a new block

  lemma ClearZeroed(h: Headers, m: Maps, b: Bytes, a: int, ls: Lists)
    requires BlocksOk(h, m) && Listed(h, ls) && Zero(h, b) && NoneZeroedBut(h, a) && a in h && h[a].used
    ensures var g := h[a := h[a].(zeroed := false)];
      BlocksOk(g, m) && Listed(g, ls) && Zero(g, b) && NoneZeroed(g) && Live(g) == Live(h)
  {
    var g := h[a := h[a].(zeroed := false)];
    Reflagged(h, m, a, true, false);
    UsedCoalesced(h, a, false);
    assert g == h[a := h[a].(used := true, zeroed := false)];
    hide Tiled, Coalesced, ListedBut, Bucket;
    ListsKept(h, g, ls, {}, {});
    forall c, x | Claimed(g, c, x) ensures b(x) == 0 {
      assert Claimed(h, c, x);
    }
  }

  lemma NewBlockIs(h: Headers, h1: Headers, a: int, size: nat)
    requires a in h1 && h1[a].used && BlockFor(h1[a].size, size) && a !in Live(h) && Live(h1) == Live(h)[a := h1[a].size]
    ensures NewBlock(Live(h), Live(h1), a + EXTRA, FixBlockSize(size)) && Live(h1)[a] == h1[a].size
  {
  }

  lemma Fits(n: nat)
    ensures n < WORD ==> n % WORD == n
  {
    if n < WORD {
      DivUnique(n, WORD, 0, n);
    }
  }

  lemma FilledHead(h: Headers, b: Bytes, b1: Bytes, a: int)
    requires Zero(h, b) && a in h && h[a].zeroed
    requires AllZero(b1, a + EXTRA, a + EXTRA + EXTRA) && Elsewhere(b, b1, a + EXTRA, a + EXTRA + EXTRA)
    ensures AllZero(b1, a + EXTRA, End(h, a)) && AllWritten(b, b1, a + EXTRA, a + EXTRA + EXTRA)
  {
    forall x | a + EXTRA <= x < End(h, a) ensures b1(x) == 0 {
      if x >= a + EXTRA + EXTRA {
        assert Claimed(h, a, x);
      }
    }
  }

  /** Only zeros have been written, and only there. */
  ghost predicate AllWritten(b: Bytes, b1: Bytes, lo: int, hi: int) {
    forall x :: b1(x) != b(x) ==> lo <= x < hi && b1(x) == 0
  }

  lemma Filled(h: Headers, b: Bytes, b1: Bytes, a: int)
    requires a in h && AllZero(b1, a + EXTRA, a + EXTRA + h[a].size) && Elsewhere(b, b1, a + EXTRA, a + EXTRA + h[a].size)
    ensures AllZero(b1, a + EXTRA, End(h, a)) && AllWritten(b, b1, a + EXTRA, End(h, a))
  {
  }

  lemma AfterFill(h: Headers, g: Headers, g1: Headers, m: Maps, b0: Bytes, b: Bytes, b1: Bytes, a: int)
    requires BlocksOk(g, m) && a in g && g1 == g[a := g[a].(zeroed := false)] && BlocksOk(g1, m) && Zero(g1, b)
    requires AllZero(b1, a + EXTRA, End(g, a)) && g[a].used
    requires AllWritten(b, b1, a + EXTRA, End(g, a)) || AllWritten(b, b1, a + EXTRA, a + EXTRA + EXTRA)
    requires Untouched(Live(h), b0, b) && a !in Live(h) && Live(g) == Live(h)[a := g[a].size]
    ensures Zero(g1, b1) && Untouched(Live(h), b0, b1) && a in Live(g1) && AllZero(b1, a + EXTRA, a + EXTRA + Live(g1)[a])
  {
    forall c, x | Claimed(g1, c, x) ensures b1(x) == 0 {
      assert b(x) == 0;
    }
    Neighbours(g, m, a);
    forall c, x | Owned(Live(h), c, x) ensures b1(x) == b0(x) {
      assert b(x) == b0(x);
      assert c in Live(g) && Live(g)[c] == Live(h)[c];
      assert Clear(g, a, c) && Clear(g, c, a);
    }
  }

  // ---------------------------------------------------------------- giving back

  lemma UntouchedRefl(live: map<int, int>, b: Bytes)
    ensures Untouched(live, b, b)
  {
  }

  lemma KeptOwned(h: Headers, b: Bytes, b1: Bytes)
    requires Kept(h, b, b1)
    ensures Untouched(Live(h), b, b1)
  {
    forall a, x | Owned(Live(h), a, x) ensures b1(x) == b(x) {
      assert Body(h, a, x);
    }
  }

  lemma UnlistUsed(h: Headers, ls: Lists, a: int)
    requires Listed(h, ls) && a in h && h[a].used
    ensures ListedBut(h, ls, {a})
  {
    hide ListedBut, Bucket;
    ListsKept(h, h, ls, {}, {a});
  }

  lemma FreedFacts(h: Headers, m: Maps, b: Bytes, a: int, ls: Lists)
    requires BlocksOk(h, m) && ListedBut(h, ls, {a}) && Zero(h, b) && NoneZeroed(h) && a in h && h[a].used
    requires NextUsed(h, a) && PrevUsed(h, a)
    ensures var g := h[a := h[a].(used := false)];
      BlocksOk(g, m) && Tags(g) && Disjoint(g) && ListedBut(g, ls, {a}) && Zero(g, b) && NoneZeroed(g) && Live(g) == Live(h) - {a}
  {
    var g := h[a := h[a].(used := false)];
    Reflagged(h, m, a, false, h[a].zeroed);
    assert g == h[a := h[a].(used := false, zeroed := h[a].zeroed)];
    FreedCoalesced(h, a);
    hide Coalesced, ListedBut, Bucket, Tags, Disjoint, Homes;
    ListsKept(h, g, ls, {a}, {a});
    forall c, x | Claimed(g, c, x) ensures b(x) == 0 {
      assert Claimed(h, c, x);
    }
  }

  lemma UnmappedFacts(h: Headers, m: Maps, b: Bytes, a: int, ls: Lists)
    requires BlocksOk(h, m) && ListedBut(h, ls, {a}) && Zero(h, b) && NoneZeroed(h) && a in h && h[a].used
    requires GetPrevious(h, a).Null? && GetNext(h, a).Null?
    ensures var g, k := h - {a}, Maps(m.size - {a}, m.home - {a});
      BlocksOk(g, k) && Listed(g, ls) && Zero(g, b) && NoneZeroed(g) && Live(g) == Live(h) - {a}
    ensures a in m.size && m.size[a] == EXTRA + h[a].size
  {
    var g := h - {a};
    Unmapped(h, m, a);
    forall x | x in g ensures Alone(g, x) {
      assert Alone(h, x);
      assert Tagged(h, a);
    }
    hide Tiled, ListedBut, Bucket;
    ListsKept(h, g, ls, {a}, {});
    forall c, x | Claimed(g, c, x) ensures b(x) == 0 {
      assert Claimed(h, c, x);
    }
  }

  lemma WholeIs(h: Headers, m: Maps, a: int)
    requires Tiled(h, m) && a in h
    ensures Whole(h, a) <==> GetPrevious(h, a).Null? && GetNext(h, a).Null?
    ensures Whole(h, a) ==> a in m.size && m.size[a] == EXTRA + h[a].size
  {
    assert Placed(h, m, a);
  }

  /** The merged block is a whole mapping exactly if no other live block is in the mapping. */
  lemma OnlyOneLeft(h: Headers, m: Maps, merged: int, block: int, live: map<int, int>)
    requires BlocksOk(h, m) && merged in h && h[merged].used && NextUsed(h, merged) && PrevUsed(h, merged)
    requires merged <= block < End(h, merged) && Live(h) - {merged} == live - {block}
    ensures GivenBack(m.size, live, block) == if Whole(h, merged) then m.size - {merged} else m.size
  {
    forall base ensures OnlyLive(m.size, live, block, base) <==> Whole(h, merged) && base == merged {
      OnlyOneAt(h, m, merged, block, live, base);
    }
    WholeIs(h, m, merged);
    hide OnlyLive, BlocksOk, Whole, Live;
  }

  lemma OnlyOneAt(h: Headers, m: Maps, merged: int, block: int, live: map<int, int>, base: int)
    requires BlocksOk(h, m) && merged in h && h[merged].used && NextUsed(h, merged) && PrevUsed(h, merged)
    requires merged <= block < End(h, merged) && Live(h) - {merged} == live - {block}
    ensures OnlyLive(m.size, live, block, base) <==> Whole(h, merged) && base == merged
  {
    assert Placed(h, m, merged) && Tagged(h, merged);
    if !Whole(h, merged) {
      var c := LiveBeside(h, m, merged);
      assert c in Live(h) - {merged};
    }
    if Whole(h, merged) && base == merged {
      forall c | c in live && c != block && base <= c ensures base + m.size[base] <= c {
        assert c in Live(h) - {merged};
        assert Clear(h, merged, c);
      }
    }
  }

  /** A used block that is not a whole mapping and has no free neighbour has a live one. */
  lemma LiveBeside(h: Headers, m: Maps, a: int) returns (c: int)
    requires BlocksOk(h, m) && a in h && NextUsed(h, a) && PrevUsed(h, a) && !Whole(h, a)
    ensures c in Live(h) && (c < a || End(h, a) <= c) && a in m.home && m.home[a] in m.size
    ensures m.home[a] <= c < m.home[a] + m.size[m.home[a]]
  {
    assert Placed(h, m, a) && Tagged(h, a);
    c := if !h[a].last then End(h, a) else a - h[a].prevSize - EXTRA;
    assert Placed(h, m, c) && Tagged(h, c);
  }

  lemma LiveIs(h: Headers, m: Maps, a: int)
    requires Tiled(h, m) && a in h
    ensures (a in Live(h) <==> h[a].used) && SizeOk(h[a].size) && a < End(h, a)
  {
    assert Tagged(h, a);
  }

  lemma ReleasedKept(l0: map<int, int>, l1: map<int, int>, l2: map<int, int>, b0: Bytes, b1: Bytes, b2: Bytes, a: int, merged: int)
    requires Untouched(l0, b0, b1) && Untouched(l2, b1, b2) && l2 == l1 - {merged} && l1 - {merged} == l0 - {a}
    ensures l2 == l0 - {a} && Untouched(l2, b0, b2)
  {
    forall c, x | Owned(l2, c, x) ensures b2(x) == b0(x) {
      assert Owned(l0, c, x);
      assert b1(x) == b0(x);
    }
  }

  lemma UserWrote(h: Headers, m: Maps, b: Bytes, b1: Bytes, a: int, x: int)
    requires BlocksOk(h, m) && Zero(h, b) && NoneZeroed(h) && Owned(Live(h), a, x) && Elsewhere(b, b1, x, x + 1)
    ensures Zero(h, b1)
  {
    forall c, y | Claimed(h, c, y) ensures b1(y) == 0 {
      assert c != a;
      assert Clear(h, a, c) && Clear(h, c, a);
    }
  }
}
