/** Rounding up to a power of two by smearing the highest bit; natural numbers are read as words, bit by bit. */
module HashBits {
  /** x | y */
  function Or(x: nat, y: nat): nat {
    if x == 0 && y == 0 then 0 else 2 * Or(x / 2, y / 2) + if x % 2 == 1 || y % 2 == 1 then 1 else 0
  }

  /** x >> k */
  function Shr(x: nat, k: nat): nat {
    if k == 0 then x else Shr(x / 2, k - 1)
  }

  lemma OrParts(x: nat, y: nat)
    ensures Or(x, y) / 2 == Or(x / 2, y / 2) && (Or(x, y) % 2 == 1 <==> x % 2 == 1 || y % 2 == 1)
  {
  }

  lemma {:induction false} OrShr(x: nat, y: nat, k: nat)
    ensures Shr(Or(x, y), k) == Or(Shr(x, k), Shr(y, k))
  {
    if k > 0 {
      OrParts(x, y);
      OrShr(x / 2, y / 2, k - 1);
    }
  }

  lemma {:induction false} ShrTwice(x: nat, j: nat, k: nat)
    ensures Shr(Shr(x, j), k) == Shr(x, j + k)
  {
    if j > 0 {
      ShrTwice(x / 2, j - 1, k);
    }
  }

  /** One of the lowest k bits is set. */
  ghost predicate Some(x: nat, k: nat) {
    k > 0 && (x % 2 == 1 || Some(x / 2, k - 1))
  }

  lemma {:induction false} SomeParts(x: nat, j: nat, k: nat)
    ensures Some(x, j + k) <==> Some(x, j) || Some(Shr(x, j), k)
  {
    if j > 0 {
      SomeParts(x / 2, j - 1, k);
    }
  }

  ghost function Pow2(k: nat): nat {
    if k == 0 then 1 else 2 * Pow2(k - 1)
  }

  lemma {:induction false} SomeBit(x: nat, k: nat)
    requires x < Pow2(k)
    ensures Some(x, k) <==> x > 0
  {
    if k > 0 {
      SomeBit(x / 2, k - 1);
    }
  }

  /** c |= c >> k */
  function Spread(x: nat, k: nat): nat {
    Or(x, Shr(x, k))
  }

  /** After j steps. */
  ghost function Spreads(x: nat, j: nat): nat {
    if j == 0 then x else Spread(Spreads(x, j - 1), Pow2(j - 1))
  }

  lemma SpreadShr(x: nat, m: nat, k: nat)
    ensures Shr(Spread(x, m), k) == Spread(Shr(x, k), m)
  {
    OrShr(x, Shr(x, m), k);
    ShrTwice(x, m, k);
    ShrTwice(x, k, m);
  }

  lemma {:induction false} SpreadsShr(x: nat, j: nat, k: nat)
    ensures Shr(Spreads(x, j), k) == Spreads(Shr(x, k), j)
  {
    if j > 0 {
      SpreadShr(Spreads(x, j - 1), Pow2(j - 1), k);
      SpreadsShr(x, j - 1, k);
    }
  }

  /** After j steps each bit says whether it or one of the 2^j - 1 bits above it was set. */
  lemma {:induction false} SpreadsLow(x: nat, j: nat)
    ensures Spreads(x, j) % 2 == 1 <==> Some(x, Pow2(j))
    decreases j
  {
    if j == 0 {
      assert Pow2(0) == 1 && (Some(x, 1) <==> x % 2 == 1 || Some(x / 2, 0));
    } else {
      var m := Pow2(j - 1);
      SpreadsLow(x, j - 1);
      SpreadsLow(Shr(x, m), j - 1);
      SpreadsShr(x, j - 1, m);
      OrParts(Spreads(x, j - 1), Shr(Spreads(x, j - 1), m));
      SomeParts(x, m, m);
    }
  }

  /** All steps of the source, which repeats the last one for words of 32 bits. */
  ghost function Smeared(x: nat): nat {
    Spread(Spreads(x, 5), 16)
  }

  lemma SmearedHalf(x: nat)
    ensures Smeared(x) / 2 == Smeared(x / 2)
  {
    SpreadShr(Spreads(x, 5), 16, 1);
    SpreadsShr(x, 5, 1);
    ShrOne(x);
    ShrOne(Spreads(x, 5));
    ShrOne(Smeared(x));
    hide Spread, Spreads;
  }

  lemma ShrOne(x: nat)
    ensures Shr(x, 1) == x / 2
  {
    assert Shr(x, 1) == Shr(x / 2, 0);
  }

  lemma Widths()
    ensures Pow2(0) == 1 && Pow2(1) == 2 && Pow2(2) == 4 && Pow2(3) == 8 && Pow2(4) == 16 && Pow2(5) == 32
    ensures Pow2(32) == 0x1_0000_0000
  {
    assert Pow2(8) == 256;
    assert Pow2(16) == 0x1_0000;
    assert Pow2(24) == 0x100_0000;
  }

  lemma {:induction false} ShrZero(k: nat)
    ensures Shr(0, k) == 0
  {
    if k > 0 {
      ShrZero(k - 1);
    }
  }

  lemma {:induction false} SpreadsZero(j: nat)
    ensures Spreads(0, j) == 0
  {
    if j > 0 {
      SpreadsZero(j - 1);
      ShrZero(Pow2(j - 1));
    }
  }

  /** The lowest bit is set if the word is not zero. */
  lemma SmearedLow(x: nat)
    requires 0 < x < 0x1_0000_0000
    ensures Smeared(x) % 2 == 1
  {
    Widths();
    SpreadsLow(x, 5);
    SomeBit(x, 32);
    OrParts(Spreads(x, 5), Shr(Spreads(x, 5), 16));
    hide Spreads, Pow2, Some;
  }

  lemma SmearedZero()
    ensures Smeared(0) == 0
  {
    SpreadsZero(5);
    ShrZero(16);
  }

  /** The statements one after the other. */
  lemma Unrolled(x: nat)
    ensures Spread(Spread(Spread(Spread(Spread(Spread(x, 1), 2), 4), 8), 16), 16) == Smeared(x)
  {
    Widths();
    hide Spread;
    assert Spreads(x, 1) == Spread(Spreads(x, 0), 1) == Spread(x, 1);
    assert Spreads(x, 2) == Spread(Spreads(x, 1), 2);
    assert Spreads(x, 3) == Spread(Spreads(x, 2), 4);
    assert Spreads(x, 4) == Spread(Spreads(x, 3), 8);
    assert Spreads(x, 5) == Spread(Spreads(x, 4), 16);
  }
}
