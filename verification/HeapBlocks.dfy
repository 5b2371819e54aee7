/** The blocks of the allocator: boundary tags, and joining and splitting of neighbours. */
module HeapBlocks {

  /** The size of a block's header, and of the list pointers that a free block holds; also the alignment. */
  const EXTRA: int := 16

  /** What the header of a block says; the flags share a word with the previous block's size in the source. */
  datatype Header = Header(prevSize: int, size: int, used: bool, last: bool, zeroed: bool)

  /** The headers by address; a header that has become part of another block is ordinary memory again. */
  type Headers = map<int, Header>

  predicate SizeOk(n: int) {
    n % EXTRA == 0 && n >= EXTRA
  }

  /** Where the next header is. */
  function End(h: Headers, a: int): int
    requires a in h
  {
    a + EXTRA + h[a].size
  }

  /** The two neighbours agree with this header. */
  ghost predicate Tagged(h: Headers, a: int)
    requires a in h
  {
    SizeOk(h[a].size) && a % EXTRA == 0 &&
    (!h[a].last ==> End(h, a) in h && h[End(h, a)].prevSize == h[a].size) &&
    (h[a].prevSize != 0 ==> Follows(h, a))
  }

  /** There is a block before this one, and its size is the one in the tag. */
  ghost predicate Follows(h: Headers, a: int)
    requires a in h
  {
    var p := a - h[a].prevSize - EXTRA;
    p in h && h[p].size == h[a].prevSize && !h[p].last
  }

  ghost predicate Tags(h: Headers) {
    forall a {:trigger Tagged(h, a)} :: a in h ==> Tagged(h, a)
  }

  /** Blocks do not overlap. */
  ghost predicate Disjoint(h: Headers) {
    forall a, b {:trigger Clear(h, a, b)} :: a in h && b in h ==> Clear(h, a, b)
  }

  ghost predicate Clear(h: Headers, a: int, b: int)
    requires a in h
  {
    a < b ==> End(h, a) <= b
  }

  /** The mappings (base address and size), and the mapping of each block. */
  datatype Maps = Maps(size: map<int, int>, home: map<int, int>)

  ghost predicate Placed(h: Headers, m: Maps, a: int)
    requires a in h
  {
    a in m.home && m.home[a] in m.size &&
    var b := m.home[a];
    b <= a && End(h, a) <= b + m.size[b] && (h[a].last <==> End(h, a) == b + m.size[b]) && (h[a].prevSize == 0 <==> a == b) &&
    (!h[a].last ==> End(h, a) in m.home && m.home[End(h, a)] == b)
  }

  ghost predicate Homes(h: Headers, m: Maps) {
    m.home.Keys == h.Keys && (forall a {:trigger Placed(h, m, a)} :: a in h ==> Placed(h, m, a)) &&
    (forall b :: b in m.size ==> b in h && m.home[b] == b) &&
    (forall b, c :: b in m.size && c in m.size && b < c ==> b + m.size[b] <= c)
  }

  /** Every mapping is a row of blocks with agreeing tags; exactly the one at its end is marked as the last one. */
  ghost predicate Tiled(h: Headers, m: Maps) {
    Tags(h) && Disjoint(h) && Homes(h, m)
  }

  /** A free block is not followed by a free one. */
  ghost predicate Alone(h: Headers, a: int)
    requires a in h
  {
    !h[a].used && !h[a].last && End(h, a) in h ==> h[End(h, a)].used
  }

  /** No two neighbours are both free. */
  ghost predicate Coalesced(h: Headers) {
    forall a {:trigger Alone(h, a)} :: a in h ==> Alone(h, a)
  }

  /** The block behind this one, if there is one, is used. */
  ghost predicate NextUsed(h: Headers, a: int)
    requires a in h
  {
    !h[a].last && End(h, a) in h ==> h[End(h, a)].used
  }

  ghost predicate PrevUsed(h: Headers, a: int)
    requires a in h
  {
    h[a].prevSize != 0 && a - h[a].prevSize - EXTRA in h ==> h[a - h[a].prevSize - EXTRA].used
  }

  /** The sizes of the blocks that are in use. */
  ghost function Live(h: Headers): map<int, int> {
    map a | a in h && h[a].used :: h[a].size
  }

  // ---------------------------------------------------------------- what tiling means

  /** The block that a byte of a mapping belongs to, found from some block before it. */
  lemma {:induction false} BlockOf(h: Headers, m: Maps, a: int, x: int) returns (b: int)
    requires Tiled(h, m) && a in h && a in m.home && m.home[a] in m.size && a <= x < m.home[a] + m.size[m.home[a]]
    ensures b in h && b in m.home && b <= x < End(h, b) && m.home[b] == m.home[a]
    decreases m.home[a] + m.size[m.home[a]] - a
  {
    assert Tagged(h, a) && Placed(h, m, a);
    if x < End(h, a) {
      b := a;
    } else {
      b := BlockOf(h, m, End(h, a), x);
    }
  }

  /** Each byte of a mapping belongs to exactly one block, and bytes outside all mappings to none. */
  lemma ExactlyTiled(h: Headers, m: Maps, x: int)
    requires Tiled(h, m)
    ensures (exists base :: base in m.size && base <= x < base + m.size[base]) <==> (exists b :: b in h && b <= x < End(h, b))
    ensures forall b, c :: b in h && c in h && b <= x < End(h, b) && c <= x < End(h, c) ==> b == c
  {
    if base :| base in m.size && base <= x < base + m.size[base] {
      var b := BlockOf(h, m, base, x);
    }
    if b :| b in h && b <= x < End(h, b) {
      assert Placed(h, m, b);
      assert m.home[b] in m.size && m.home[b] <= x < m.home[b] + m.size[m.home[b]];
    }
    forall b, c | b in h && c in h && b <= x < End(h, b) && c <= x < End(h, c) ensures b == c {
      assert Clear(h, b, c) && Clear(h, c, b);
    }
  }

  /** Only one block ends at a place. */
  lemma OnlyBefore(h: Headers, a: int, b: int)
    requires Tags(h) && Disjoint(h) && a in h && b in h && End(h, a) == End(h, b)
    ensures a == b
  {
    assert Tagged(h, a) && Tagged(h, b) && Clear(h, a, b) && Clear(h, b, a);
  }

  /** Each mapping has exactly one last block, and exactly one first one. */
  lemma OneLast(h: Headers, m: Maps, base: int) returns (z: int)
    requires Tiled(h, m) && base in m.size
    ensures z in h && m.home[z] == base && h[z].last && forall a :: a in h && m.home[a] == base && h[a].last ==> a == z
    ensures forall a :: a in h && m.home[a] == base && h[a].prevSize == 0 ==> a == base
  {
    var top := base + m.size[base] - 1;
    assert Placed(h, m, base) && Tagged(h, base);
    z := BlockOf(h, m, base, top);
    assert Placed(h, m, z);
    forall a | a in h && m.home[a] == base ensures (h[a].last ==> a == z) && (h[a].prevSize == 0 ==> a == base) {
      assert Placed(h, m, a);
      if h[a].last {
        OnlyBefore(h, a, z);
      }
    }
  }

  // ---------------------------------------------------------------- joining two neighbours

  /** Block a and the block behind it become one. */
  function Join(h: Headers, a: int, used: bool, zeroed: bool): Headers
    requires a in h && End(h, a) in h
  {
    var n := End(h, a);
    var size := h[a].size + EXTRA + h[n].size;
    var g := (h - {n})[a := Header(h[a].prevSize, size, used, h[n].last, zeroed)];
    var f := a + EXTRA + size;
    if f in g && !h[n].last then g[f := g[f].(prevSize := size)] else g
  }

  ghost function JoinHome(m: Maps, n: int): Maps {
    m.(home := m.home - {n})
  }

  lemma JoinKeys(h: Headers, a: int, used: bool, zeroed: bool)
    requires Tags(h) && Disjoint(h) && a in h && !h[a].last && End(h, a) in h
    ensures var g, n := Join(h, a, used, zeroed), End(h, a);
      g.Keys == h.Keys - {n} && g[a] == Header(h[a].prevSize, h[a].size + EXTRA + h[n].size, used, h[n].last, zeroed) &&
      End(g, a) == End(h, n)
    ensures var g, n := Join(h, a, used, zeroed), End(h, a);
      forall x :: x in g && x != a ==>
        g[x] == if x == End(h, n) && !h[n].last then h[x].(prevSize := h[a].size + EXTRA + h[n].size) else h[x]
  {
    var n := End(h, a);
    assert Tagged(h, a) && Tagged(h, n);
  }

  lemma JoinTagged(h: Headers, a: int, used: bool, zeroed: bool, x: int)
    requires Tags(h) && Disjoint(h) && a in h && !h[a].last && End(h, a) in h && x in h && x != End(h, a)
    ensures var g := Join(h, a, used, zeroed); x in g && Tagged(g, x)
  {
    var n := End(h, a);
    var g := Join(h, a, used, zeroed);
    JoinKeys(h, a, used, zeroed);
    assert Tagged(h, a) && Tagged(h, n) && Tagged(h, x);
    if x != a && !h[x].last && End(h, x) == n {
      OnlyBefore(h, x, a);
    }
    if x != a && !h[x].last && End(h, x) == End(h, n) {
      OnlyBefore(h, x, n);
    }
    hide Join, Disjoint, Tags;
  }

  lemma JoinClear(h: Headers, a: int, used: bool, zeroed: bool, x: int, y: int)
    requires Tags(h) && Disjoint(h) && a in h && !h[a].last && End(h, a) in h && x in h && y in h && x != End(h, a) && y != End(h, a)
    ensures var g := Join(h, a, used, zeroed); x in g && Clear(g, x, y)
  {
    var n := End(h, a);
    JoinKeys(h, a, used, zeroed);
    assert Clear(h, x, y) && Clear(h, n, y) && Tagged(h, a) && Tagged(h, n);
    hide Join, Disjoint, Tags;
  }

  lemma JoinTags(h: Headers, a: int, used: bool, zeroed: bool)
    requires Tags(h) && Disjoint(h) && a in h && !h[a].last && End(h, a) in h
    ensures Tags(Join(h, a, used, zeroed))
  {
    var g := Join(h, a, used, zeroed);
    JoinKeys(h, a, used, zeroed);
    hide Join, Tagged, Clear;
    forall x | x in g ensures Tagged(g, x) {
      JoinTagged(h, a, used, zeroed, x);
    }
  }

  lemma JoinDisjoint(h: Headers, a: int, used: bool, zeroed: bool)
    requires Tags(h) && Disjoint(h) && a in h && !h[a].last && End(h, a) in h
    ensures Disjoint(Join(h, a, used, zeroed))
  {
    var g := Join(h, a, used, zeroed);
    JoinKeys(h, a, used, zeroed);
    hide Join, Tagged, Clear;
    forall x, y | x in g && y in g ensures Clear(g, x, y) {
      JoinClear(h, a, used, zeroed, x, y);
    }
  }

  lemma JoinPlaced(h: Headers, m: Maps, a: int, used: bool, zeroed: bool, x: int)
    requires Tiled(h, m) && a in h && !h[a].last && End(h, a) in h && x in h && x != End(h, a)
    ensures var g, k := Join(h, a, used, zeroed), JoinHome(m, End(h, a)); x in g && Placed(g, k, x)
  {
    var n := End(h, a);
    JoinKeys(h, a, used, zeroed);
    assert Tagged(h, a) && Tagged(h, n) && Tagged(h, x) && Placed(h, m, a) && Placed(h, m, n) && Placed(h, m, x);
    if x != a && !h[x].last && End(h, x) == n {
      OnlyBefore(h, x, a);
    }
    hide Join, Disjoint, Tags, Homes, Tiled, SizeOk;
  }

  lemma JoinHomes(h: Headers, m: Maps, a: int, used: bool, zeroed: bool)
    requires Tiled(h, m) && a in h && !h[a].last && End(h, a) in h
    ensures Homes(Join(h, a, used, zeroed), JoinHome(m, End(h, a)))
  {
    var n := End(h, a);
    var g, k := Join(h, a, used, zeroed), JoinHome(m, n);
    JoinKeys(h, a, used, zeroed);
    assert Tagged(h, a) && Placed(h, m, a) && Placed(h, m, n);
    hide Join, Placed, Tagged;
    forall x | x in g ensures Placed(g, k, x) {
      JoinPlaced(h, m, a, used, zeroed, x);
    }
  }

  /** Joining keeps the tiling. */
  lemma Joined(h: Headers, m: Maps, a: int, used: bool, zeroed: bool)
    requires Tiled(h, m) && a in h && !h[a].last && End(h, a) in h
    ensures Tiled(Join(h, a, used, zeroed), JoinHome(m, End(h, a)))
  {
    JoinTags(h, a, used, zeroed);
    JoinDisjoint(h, a, used, zeroed);
    JoinHomes(h, m, a, used, zeroed);
    hide Join, Tags, Disjoint, Homes;
  }

  lemma JoinCoalesced(h: Headers, a: int, zeroed: bool)
    requires Tags(h) && Disjoint(h) && Coalesced(h) && a in h && !h[a].last && End(h, a) in h
    ensures Coalesced(Join(h, a, true, zeroed))
  {
    var g := Join(h, a, true, zeroed);
    JoinKeys(h, a, true, zeroed);
    hide Join, Tags, Disjoint;
    forall x | x in g ensures Alone(g, x) {
      assert Alone(h, x);
    }
  }

  // ---------------------------------------------------------------- splitting

  /** Block a keeps size bytes; what is left becomes a free block. */
  function Split(h: Headers, a: int, size: int): Headers
    requires a in h
  {
    var n := a + EXTRA + size;
    var rest := h[a].size - size - EXTRA;
    var g := h[a := h[a].(size := size, last := false)][n := Header(size, rest, false, h[a].last, h[a].zeroed)];
    var f := n + EXTRA + rest;
    if f in g && !h[a].last then g[f := g[f].(prevSize := rest)] else g
  }

  ghost function SplitHome(m: Maps, a: int, n: int): Maps
    requires a in m.home
  {
    m.(home := m.home[n := m.home[a]])
  }

  ghost predicate CanSplit(h: Headers, a: int, size: int)
    requires a in h
  {
    SizeOk(size) && size + EXTRA + EXTRA <= h[a].size
  }

  lemma SplitKeys(h: Headers, a: int, size: int)
    requires Tags(h) && Disjoint(h) && a in h && CanSplit(h, a, size)
    ensures var g, n, rest := Split(h, a, size), a + EXTRA + size, h[a].size - size - EXTRA;
      n !in h && SizeOk(rest) && g.Keys == h.Keys + {n} && g[a] == h[a].(size := size, last := false) &&
      g[n] == Header(size, rest, false, h[a].last, h[a].zeroed) && End(g, n) == End(h, a) && End(g, a) == n
    ensures var g, n, rest := Split(h, a, size), a + EXTRA + size, h[a].size - size - EXTRA;
      forall x :: x in h && x != a ==> g[x] == if x == End(h, a) && !h[a].last then h[x].(prevSize := rest) else h[x]
  {
    var n := a + EXTRA + size;
    assert Tagged(h, a);
    assert n in h ==> Clear(h, a, n);
  }

  lemma SplitTagged(h: Headers, a: int, size: int, x: int)
    requires Tags(h) && Disjoint(h) && a in h && CanSplit(h, a, size) && (x in h || x == a + EXTRA + size)
    ensures var g := Split(h, a, size); x in g && Tagged(g, x)
  {
    SplitKeys(h, a, size);
    assert Tagged(h, a);
    if x in h {
      assert Tagged(h, x);
      if x != a && !h[x].last && End(h, x) == End(h, a) {
        OnlyBefore(h, x, a);
      }
    }
    hide Split, Disjoint, Tags;
  }

  lemma SplitClear(h: Headers, a: int, size: int, x: int, y: int)
    requires Tags(h) && Disjoint(h) && a in h && CanSplit(h, a, size)
    requires (x in h || x == a + EXTRA + size) && (y in h || y == a + EXTRA + size)
    ensures var g := Split(h, a, size); x in g && Clear(g, x, y)
  {
    SplitKeys(h, a, size);
    if y in h {
      assert Clear(h, a, y);
    }
    if x in h {
      assert Clear(h, x, a) && Clear(h, a, x);
    }
    if x in h && y in h {
      assert Clear(h, x, y);
    }
    assert Tagged(h, a);
    hide Split, Disjoint, Tags;
  }

  lemma SplitTags(h: Headers, a: int, size: int)
    requires Tags(h) && Disjoint(h) && a in h && CanSplit(h, a, size)
    ensures Tags(Split(h, a, size))
  {
    var g := Split(h, a, size);
    SplitKeys(h, a, size);
    hide Split, Tagged, Clear;
    forall x | x in g ensures Tagged(g, x) {
      SplitTagged(h, a, size, x);
    }
  }

  lemma SplitDisjoint(h: Headers, a: int, size: int)
    requires Tags(h) && Disjoint(h) && a in h && CanSplit(h, a, size)
    ensures Disjoint(Split(h, a, size))
  {
    var g := Split(h, a, size);
    SplitKeys(h, a, size);
    hide Split, Tagged, Clear;
    forall x, y | x in g && y in g ensures Clear(g, x, y) {
      SplitClear(h, a, size, x, y);
    }
  }

  lemma SplitHomes(h: Headers, m: Maps, a: int, size: int)
    requires Tiled(h, m) && a in h && CanSplit(h, a, size)
    ensures Homes(Split(h, a, size), SplitHome(m, a, a + EXTRA + size))
  {
    var n := a + EXTRA + size;
    var g, k := Split(h, a, size), SplitHome(m, a, n);
    SplitKeys(h, a, size);
    assert Placed(h, m, a);
    hide Split, Placed, Tagged, Tags, Disjoint, SizeOk;
    forall x | x in g ensures Placed(g, k, x) {
      SplitPlaced(h, m, a, size, x);
    }
  }

  lemma SplitPlaced(h: Headers, m: Maps, a: int, size: int, x: int)
    requires Tiled(h, m) && a in h && a in m.home && CanSplit(h, a, size) && (x in h || x == a + EXTRA + size)
    ensures var g := Split(h, a, size); x in g && Placed(g, SplitHome(m, a, a + EXTRA + size), x)
  {
    var n := a + EXTRA + size;
    SplitKeys(h, a, size);
    assert Placed(h, m, a) && Tagged(h, a);
    if x != n {
      assert Placed(h, m, x) && Tagged(h, x);
    }
    hide Split, Tags, Disjoint, Homes, Tiled;
  }

  /** Splitting keeps the tiling. */
  lemma SplitUp(h: Headers, m: Maps, a: int, size: int)
    requires Tiled(h, m) && a in h && CanSplit(h, a, size)
    ensures Tiled(Split(h, a, size), SplitHome(m, a, a + EXTRA + size))
  {
    SplitTags(h, a, size);
    SplitDisjoint(h, a, size);
    SplitHomes(h, m, a, size);
    hide Split, Tags, Disjoint, Homes;
  }

  lemma SplitCoalesced(h: Headers, a: int, size: int)
    requires Tags(h) && Disjoint(h) && Coalesced(h) && a in h && CanSplit(h, a, size) && h[a].used && NextUsed(h, a)
    ensures Coalesced(Split(h, a, size))
  {
    var g := Split(h, a, size);
    SplitKeys(h, a, size);
    assert Tagged(h, a);
    hide Split, Disjoint, SizeOk;
    forall x | x in g ensures Alone(g, x) {
      if x in h {
        assert Alone(h, x) && Tagged(h, x);
      }
    }
  }

  lemma SplitLive(h: Headers, a: int, size: int)
    requires Tags(h) && Disjoint(h) && a in h && CanSplit(h, a, size) && h[a].used
    ensures Live(Split(h, a, size)) == Live(h)[a := size]
  {
    SplitKeys(h, a, size);
    hide Split, Tags, Disjoint;
  }

  // ---------------------------------------------------------------- whole mappings

  ghost predicate Free(m: Maps, p: int, n: int) {
    forall b :: b in m.size ==> b + m.size[b] <= p || p + n <= b
  }

  /** Blocks are in mappings, and so apart from a new mapping. */
  lemma ApartFromNew(h: Headers, m: Maps, p: int, n: int, x: int)
    requires Tiled(h, m) && Free(m, p, n) && x in h
    ensures (End(h, x) <= p || p + n <= x) && x + EXTRA <= End(h, x)
  {
    assert Placed(h, m, x) && Tagged(h, x);
  }

  lemma NotMapped(h: Headers, m: Maps, p: int, n: int)
    requires Tiled(h, m) && SizeOk(n - EXTRA) && Free(m, p, n)
    ensures p !in h && p !in m.size
  {
    if p in h {
      ApartFromNew(h, m, p, n, p);
    }
  }

  /** The header of a new mapping that consists of one used block. */
  function Fresh(n: int): Header {
    Header(0, n - EXTRA, true, true, true)
  }

  lemma MappedBlock(h: Headers, m: Maps, p: int, n: int, x: int)
    requires Tiled(h, m) && p % EXTRA == 0 && SizeOk(n - EXTRA) && Free(m, p, n) && p !in h && p !in m.size && (x in h || x == p)
    ensures var g, k := h[p := Fresh(n)], Maps(m.size[p := n], m.home[p := p]); Tagged(g, x) && Placed(g, k, x)
  {
    if x in h {
      assert Tagged(h, x) && Placed(h, m, x);
    }
  }

  lemma MappedTags(h: Headers, m: Maps, p: int, n: int)
    requires Tiled(h, m) && p % EXTRA == 0 && SizeOk(n - EXTRA) && Free(m, p, n) && p !in h && p !in m.size
    ensures Tags(h[p := Fresh(n)])
  {
    var g := h[p := Fresh(n)];
    hide Tagged, Clear, Tiled, Fresh;
    forall x | x in g ensures Tagged(g, x) {
      MappedBlock(h, m, p, n, x);
    }
  }

  lemma MappedDisjoint(h: Headers, m: Maps, p: int, n: int)
    requires Tiled(h, m) && SizeOk(n - EXTRA) && Free(m, p, n) && p !in h
    ensures Disjoint(h[p := Fresh(n)])
  {
    var g := h[p := Fresh(n)];
    hide Tagged, Clear, Tiled, Fresh;
    forall x, y | x in g && y in g ensures Clear(g, x, y) {
      MappedClear(h, m, p, n, x, y);
    }
  }

  lemma MappedHomes(h: Headers, m: Maps, p: int, n: int)
    requires Tiled(h, m) && p % EXTRA == 0 && SizeOk(n - EXTRA) && Free(m, p, n) && p !in h && p !in m.size
    ensures Homes(h[p := Fresh(n)], Maps(m.size[p := n], m.home[p := p]))
  {
    var g, k := h[p := Fresh(n)], Maps(m.size[p := n], m.home[p := p]);
    forall b | b in m.size ensures m.size[b] > 0 {
      assert Placed(h, m, b) && Tagged(h, b);
    }
    hide Tagged, Placed, Clear, Tags, Disjoint, Fresh;
    forall x | x in g ensures Placed(g, k, x) {
      MappedBlock(h, m, p, n, x);
    }
  }

  /** A new mapping that consists of one used block. */
  lemma Mapped(h: Headers, m: Maps, p: int, n: int)
    requires Tiled(h, m) && p % EXTRA == 0 && SizeOk(n - EXTRA) && Free(m, p, n)
    ensures p !in h && Tiled(h[p := Fresh(n)], Maps(m.size[p := n], m.home[p := p]))
  {
    NotMapped(h, m, p, n);
    MappedTags(h, m, p, n);
    MappedDisjoint(h, m, p, n);
    MappedHomes(h, m, p, n);
    hide Tags, Disjoint, Homes, Fresh;
  }

  lemma MappedClear(h: Headers, m: Maps, p: int, n: int, x: int, y: int)
    requires Tiled(h, m) && SizeOk(n - EXTRA) && Free(m, p, n) && p !in h && (x in h || x == p) && (y in h || y == p)
    ensures Clear(h[p := Fresh(n)], x, y)
  {
    if x != p {
      ApartFromNew(h, m, p, n, x);
    }
    if y != p {
      ApartFromNew(h, m, p, n, y);
    }
    assert x != p && y != p ==> Clear(h, x, y);
  }

  lemma UnmappedBlock(h: Headers, m: Maps, a: int, x: int)
    requires Tiled(h, m) && a in h && h[a].last && h[a].prevSize == 0 && x in h && x != a
    ensures var g, k := h - {a}, Maps(m.size - {a}, m.home - {a}); x in g && Tagged(g, x) && Placed(g, k, x)
  {
    assert Placed(h, m, a) && Tagged(h, a) && Placed(h, m, x) && Tagged(h, x) && Clear(h, a, x) && Clear(h, x, a);
    hide Tags, Disjoint, Homes;
  }

  lemma UnmappedTags(h: Headers, m: Maps, a: int)
    requires Tiled(h, m) && a in h && h[a].last && h[a].prevSize == 0
    ensures Tags(h - {a})
  {
    var g := h - {a};
    hide Tagged, Clear, Tiled;
    forall x | x in g ensures Tagged(g, x) {
      UnmappedBlock(h, m, a, x);
    }
  }

  lemma UnmappedDisjoint(h: Headers, a: int)
    requires Disjoint(h) && a in h
    ensures Disjoint(h - {a})
  {
    var g := h - {a};
    forall x, y | x in g && y in g ensures Clear(g, x, y) {
      assert Clear(h, x, y);
    }
  }

  lemma UnmappedHomes(h: Headers, m: Maps, a: int)
    requires Tiled(h, m) && a in h && h[a].last && h[a].prevSize == 0
    ensures a in m.size && m.size[a] == EXTRA + h[a].size
    ensures Homes(h - {a}, Maps(m.size - {a}, m.home - {a}))
  {
    assert Placed(h, m, a);
    var g, k := h - {a}, Maps(m.size - {a}, m.home - {a});
    hide Tagged, Placed, Clear, Tags, Disjoint;
    forall x | x in g ensures Placed(g, k, x) {
      UnmappedBlock(h, m, a, x);
    }
  }

  /** A mapping that consists of one block goes away. */
  lemma Unmapped(h: Headers, m: Maps, a: int)
    requires Tiled(h, m) && a in h && h[a].last && h[a].prevSize == 0
    ensures a in m.size && m.size[a] == EXTRA + h[a].size
    ensures Tiled(h - {a}, Maps(m.size - {a}, m.home - {a}))
  {
    UnmappedTags(h, m, a);
    UnmappedDisjoint(h, a);
    UnmappedHomes(h, m, a);
    hide Tags, Disjoint, Homes;
  }

  lemma UsedCoalesced(h: Headers, a: int, zeroed: bool)
    requires Coalesced(h) && a in h
    ensures Coalesced(h[a := h[a].(used := true, zeroed := zeroed)])
  {
    var g := h[a := h[a].(used := true, zeroed := zeroed)];
    forall x | x in g ensures Alone(g, x) {
      assert Alone(h, x);
    }
  }

  lemma FreedCoalesced(h: Headers, a: int)
    requires Tags(h) && Coalesced(h) && a in h && NextUsed(h, a) && PrevUsed(h, a)
    ensures Coalesced(h[a := h[a].(used := false)])
  {
    var g := h[a := h[a].(used := false)];
    forall x | x in g ensures Alone(g, x) {
      assert Alone(h, x) && Tagged(h, x) && Tagged(h, a);
    }
  }

  lemma ReflaggedTags(h: Headers, m: Maps, a: int, used: bool, zeroed: bool)
    requires Tiled(h, m) && a in h
    ensures Tags(h[a := h[a].(used := used, zeroed := zeroed)])
  {
    var g := h[a := h[a].(used := used, zeroed := zeroed)];
    hide Tagged, Placed, Clear, Tiled;
    forall x | x in g ensures Tagged(g, x) {
      ReflaggedBlock(h, m, a, used, zeroed, x);
    }
  }

  lemma ReflaggedDisjoint(h: Headers, a: int, used: bool, zeroed: bool)
    requires Disjoint(h) && a in h
    ensures Disjoint(h[a := h[a].(used := used, zeroed := zeroed)])
  {
    var g := h[a := h[a].(used := used, zeroed := zeroed)];
    hide Tagged, Placed, Clear, Tiled;
    forall x, y | x in g && y in g ensures Clear(g, x, y) {
      ReflaggedClear(h, a, used, zeroed, x, y);
    }
  }

  lemma ReflaggedHomes(h: Headers, m: Maps, a: int, used: bool, zeroed: bool)
    requires Tiled(h, m) && a in h
    ensures Homes(h[a := h[a].(used := used, zeroed := zeroed)], m)
  {
    var g := h[a := h[a].(used := used, zeroed := zeroed)];
    hide Tagged, Placed, Clear, Tags, Disjoint;
    forall x | x in g ensures Placed(g, m, x) {
      ReflaggedBlock(h, m, a, used, zeroed, x);
    }
  }

  /** Only the flags that say what a block is used for change. */
  lemma Reflagged(h: Headers, m: Maps, a: int, used: bool, zeroed: bool)
    requires Tiled(h, m) && a in h
    ensures Tiled(h[a := h[a].(used := used, zeroed := zeroed)], m)
  {
    ReflaggedTags(h, m, a, used, zeroed);
    ReflaggedDisjoint(h, a, used, zeroed);
    ReflaggedHomes(h, m, a, used, zeroed);
    hide Tags, Disjoint, Homes;
  }

  lemma ReflaggedClear(h: Headers, a: int, used: bool, zeroed: bool, x: int, y: int)
    requires Disjoint(h) && a in h && x in h && y in h
    ensures Clear(h[a := h[a].(used := used, zeroed := zeroed)], x, y)
  {
    assert Clear(h, x, y);
  }

  lemma ReflaggedBlock(h: Headers, m: Maps, a: int, used: bool, zeroed: bool, x: int)
    requires Tiled(h, m) && a in h && x in h
    ensures var g := h[a := h[a].(used := used, zeroed := zeroed)]; Tagged(g, x) && Placed(g, m, x)
  {
    assert Tagged(h, x) && Placed(h, m, x);
    hide Tags, Disjoint, Homes;
  }
}
