/** What is written to the memory of blocks, and what stays. */
module HeapMemory {
  import opened HeapBlocks
  import opened Division

  /** The contents of memory. */
  type Bytes = int -> int

  /** A byte of block a that belongs to its user, or that the free lists leave alone. */
  ghost predicate Body(h: Headers, a: int, x: int) {
    a in h && a + EXTRA <= x < End(h, a) && (h[a].used || x >= a + EXTRA + EXTRA)
  }

  ghost predicate Kept(h: Headers, b: Bytes, b1: Bytes) {
    forall a, x {:trigger Body(h, a, x)} :: Body(h, a, x) ==> b1(x) == b(x)
  }

  /** A byte that is zero if the block says so; the list pointers are not. */
  ghost predicate Claimed(h: Headers, a: int, x: int) {
    a in h && h[a].zeroed && a + EXTRA + EXTRA <= x < End(h, a)
  }

  ghost predicate Zero(h: Headers, b: Bytes) {
    forall a, x {:trigger Claimed(h, a, x)} :: Claimed(h, a, x) ==> b(x) == 0
  }

  /** Everything but these bytes is as before. */
  ghost predicate Elsewhere(b: Bytes, b1: Bytes, lo: int, hi: int) {
    forall x :: !(lo <= x < hi) ==> b1(x) == b(x)
  }

  lemma KeptTrans(h: Headers, b: Bytes, b1: Bytes, b2: Bytes)
    requires Kept(h, b, b1) && Kept(h, b1, b2)
    ensures Kept(h, b, b2)
  {
    forall a, x | Body(h, a, x) ensures b2(x) == b(x) {
      assert b1(x) == b(x);
    }
  }

  lemma KeptRefl(h: Headers, b: Bytes)
    ensures Kept(h, b, b)
  {
  }

  lemma KeptZero(h: Headers, b: Bytes, b1: Bytes)
    requires Zero(h, b) && Kept(h, b, b1)
    ensures Zero(h, b1)
  {
    forall a, x | Claimed(h, a, x) ensures b1(x) == 0 {
      assert Body(h, a, x);
    }
  }

  /** List pointers are written to free blocks only. */
  lemma Scribbled(h: Headers, f: int, b: Bytes, b1: Bytes)
    requires Tags(h) && Disjoint(h) && f in h && !h[f].used && Elsewhere(b, b1, f + EXTRA, f + EXTRA + EXTRA)
    ensures Kept(h, b, b1)
  {
    assert Tagged(h, f);
    forall a, x | Body(h, a, x) ensures b1(x) == b(x) {
      assert Clear(h, a, f) && Clear(h, f, a);
    }
  }

  /** A header is written where no block has its memory. */
  lemma HeaderWritten(h: Headers, f: int, b: Bytes, b1: Bytes)
    requires Tags(h) && Disjoint(h) && f in h && Elsewhere(b, b1, f, f + EXTRA)
    ensures Kept(h, b, b1)
  {
    assert Tagged(h, f);
    forall a, x | Body(h, a, x) ensures b1(x) == b(x) {
      assert Clear(h, a, f) && Clear(h, f, a);
    }
  }

  // ---------------------------------------------------------------- requests

  /** size_t. */
  const WORD: int := 0x1_0000_0000_0000_0000
  const PAGE: int := 4096
  const DEFAULT_MAP_SIZE: int := 4 * PAGE

  function AlignDown(n: int, p: int): int
    requires p > 0
  {
    n / p * p
  }

  function Max(a: int, b: int): int {
    if a > b then a else b
  }

  /** The size of the block for a request. */
  function FixBlockSize(size: nat): int {
    Max(AlignDown((size + (EXTRA - 1)) % WORD, EXTRA), EXTRA)
  }

  /** The size of a new mapping for a block of this size. */
  function MapSize(size: nat): int {
    Max(DEFAULT_MAP_SIZE, AlignDown((size + EXTRA + (PAGE - 1)) % WORD, PAGE))
  }

  lemma AlignDownIs(n: int, p: int)
    requires p > 0
    ensures AlignDown(n, p) <= n < AlignDown(n, p) + p && AlignDown(n, p) % p == 0
  {
    assert n == n / p * p + n % p;
    MulMod(n / p, p);
  }

  /** The block for a request is large enough exactly if the computation of its size does not wrap around. */
  lemma FixIsEnough(size: nat)
    requires size < WORD
    ensures SizeOk(FixBlockSize(size)) && (FixBlockSize(size) >= size <==> size <= WORD - EXTRA)
    ensures size <= WORD - EXTRA ==> FixBlockSize(size) < Max(size, 1) + EXTRA
  {
    var n := size + (EXTRA - 1);
    AlignDownIs(n % WORD, EXTRA);
    if n >= WORD {
      DivUnique(n, WORD, 1, n - WORD);
    } else {
      DivUnique(n, WORD, 0, n);
    }
  }

  /** A new mapping is large enough for the block exactly if the computation of its size does not wrap around. */
  lemma MapIsEnough(size: nat)
    requires size < WORD && SizeOk(size)
    ensures MapSize(size) % PAGE == 0 && (MapSize(size) >= size + EXTRA <==> size + EXTRA + PAGE - 1 < WORD)
    ensures size + EXTRA + PAGE - 1 < WORD ==> DEFAULT_MAP_SIZE <= MapSize(size) < Max(DEFAULT_MAP_SIZE + 1, size + EXTRA + PAGE)
  {
    var n := size + EXTRA + (PAGE - 1);
    AlignDownIs(n % WORD, PAGE);
    if n >= WORD {
      DivUnique(n, WORD, 1, n - WORD);
    } else {
      DivUnique(n, WORD, 0, n);
    }
  }

  /** The check for overflow in calloc: it gives up exactly if the product does not fit. */
  lemma CallocCheck(nmemb: nat, size: nat)
    requires nmemb < WORD && size < WORD
    ensures size != 0 && (size * nmemb % WORD) / size != nmemb <==> size * nmemb >= WORD
  {
    var p := size * nmemb;
    if size != 0 {
      if p < WORD {
        assert p >= 0;
        DivUnique(p, WORD, 0, p);
        DivUnique(p, size, nmemb, 0);
      } else {
        assert p % WORD < p;
        var q := (p % WORD) / size;
        assert q * size <= p % WORD;
        assert q * size < nmemb * size;
      }
    }
  }
}
