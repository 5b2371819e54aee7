/** 128-bit numbers as two 64-bit halves. */
module Uint128s {
  import opened Division

  const HALF: int := 0x1_0000_0000
  const WORD: int := 0x1_0000_0000_0000_0000
  const DOUBLE: int := 0x1_0000_0000_0000_0000_0000_0000_0000_0000

  /** Both halves are 64 bits wide. */
  datatype Uint128 = Uint128(high: nat, low: nat)

  predicate Wide(x: Uint128) {
    x.high < WORD && x.low < WORD
  }

  ghost function Value(x: Uint128): nat {
    x.high * WORD + x.low
  }

  function Add(a: Uint128, b: Uint128): (r: Uint128)
    requires Wide(a) && Wide(b)
    ensures Wide(r)
  {
    var low := (a.low + b.low) % WORD;
    var overflow := if a.low + b.low >= WORD then 1 else 0;
    Uint128((a.high + b.high + overflow) % WORD, low)
  }

  function Sub(a: Uint128, b: Uint128): (r: Uint128)
    requires Wide(a) && Wide(b)
    ensures Wide(r)
  {
    var low := (a.low - b.low) % WORD;
    var overflow := if a.low < b.low then 1 else 0;
    Uint128((a.high - b.high - overflow) % WORD, low)
  }

  function Negate(x: Uint128): (r: Uint128)
    requires Wide(x)
    ensures Wide(r)
  {
    Sub(Uint128(0, 0), x)
  }

  /** The product of two 64-bit numbers from four 32-bit products; every intermediate result wraps around at 64 bits. */
  function Mul64(a: nat, b: nat): (r: Uint128)
    requires a < WORD && b < WORD
    ensures Wide(r)
  {
    var aL, aH, bL, bH := a % HALF, a / HALF, b % HALF, b / HALF;
    Limbs(aL * bL % WORD, aH * bL % WORD, aL * bH % WORD, aH * bH)
  }

  /** The sum of the four products. */
  function Limbs(l: nat, m1: nat, m2: nat, h: nat): (r: Uint128)
    ensures Wide(r)
  {
    var m := (l / HALF + m1) % WORD;
    var n := (m % HALF + m2) % WORD;
    Uint128((h + (m / HALF + n / HALF) % WORD) % WORD, (l % HALF + n * HALF % WORD) % WORD)
  }

  function Mul(a: Uint128, b: Uint128): (r: Uint128)
    requires Wide(a) && Wide(b)
    ensures Wide(r)
  {
    var r := Mul64(a.low, b.low);
    Uint128((r.high + (a.high * b.low + a.low * b.high) % WORD) % WORD, r.low)
  }

  function Cmp(a: Uint128, b: Uint128): int {
    var x, y := if a.high == b.high then a.low else a.high, if a.high == b.high then b.low else b.high;
    if x < y then -1 else if x > y then 1 else 0
  }

  // ---------------------------------------------------------------- what they compute

  lemma Wrapped(n: int, w: int, q: int, r: int)
    requires w > 0 && n == q * w + r && 0 <= r < w
    ensures n % w == r
  {
    DivUnique(n, w, q, r);
  }

  lemma DoubleIs()
    ensures WORD * WORD == DOUBLE && HALF * HALF == WORD
  {
  }

  /** A 128-bit result whose high half has wrapped around. */
  lemma HighWraps(h: int, l: nat, n: int)
    requires l < WORD && n == h * WORD + l
    ensures Value(Uint128(h % WORD, l)) == n % DOUBLE
  {
    Quotient(h, WORD);
    var q, r := h / WORD, h % WORD;
    DoubleIs();
    assert h * WORD == q * DOUBLE + r * WORD by {
      assert h == q * WORD + r;
      Spread(q, r);
    }
    DivUnique(n, DOUBLE, q, r * WORD + l);
  }

  lemma Spread(q: int, r: int)
    ensures (q * WORD + r) * WORD == q * DOUBLE + r * WORD
  {
  }

  lemma AddIs(a: Uint128, b: Uint128)
    requires Wide(a) && Wide(b)
    ensures Value(Add(a, b)) == (Value(a) + Value(b)) % DOUBLE
  {
    var overflow := if a.low + b.low >= WORD then 1 else 0;
    Wrapped(a.low + b.low, WORD, overflow, a.low + b.low - overflow * WORD);
    HighWraps(a.high + b.high + overflow, (a.low + b.low) % WORD, Value(a) + Value(b));
  }

  lemma SubIs(a: Uint128, b: Uint128)
    requires Wide(a) && Wide(b)
    ensures Value(Sub(a, b)) == (Value(a) - Value(b)) % DOUBLE
  {
    var overflow := if a.low < b.low then 1 else 0;
    Wrapped(a.low - b.low, WORD, -overflow, a.low - b.low + overflow * WORD);
    HighWraps(a.high - b.high - overflow, (a.low - b.low) % WORD, Value(a) - Value(b));
  }

  lemma NegateIs(x: Uint128)
    requires Wide(x)
    ensures Value(Negate(x)) == (0 - Value(x)) % DOUBLE
  {
    SubIs(Uint128(0, 0), x);
  }

  /** 32-bit halves and their product. */
  lemma Small(a: nat, b: nat)
    requires a < HALF && b < HALF
    ensures a * b <= (HALF - 1) * (HALF - 1) && a * b % WORD == a * b
  {
    Bound(a, b, HALF - 1);
    DivUnique(a * b, WORD, 0, a * b);
  }

  lemma Bound(a: nat, b: nat, c: nat)
    requires a <= c && b <= c
    ensures a * b <= c * c
  {
    assert a * b <= a * c;
    assert a * c <= c * c;
  }

  lemma Fits(n: nat, w: int)
    requires n < w
    ensures n % w == n
  {
    DivUnique(n, w, 0, n);
  }

  lemma Halves(n: nat)
    ensures n == n / HALF * HALF + n % HALF && 0 <= n % HALF < HALF && n / HALF >= 0
    ensures n < WORD ==> n / HALF < HALF
  {
    Quotient(n, HALF);
  }

  /** The pieces of the product, without any wrap-around. */
  lemma Pieces(aL: nat, aH: nat, bL: nat, bH: nat, l: nat, m1: nat, m2: nat, h: nat)
    requires l == aL * bL && m1 == aH * bL && m2 == aL * bH && h == aH * bH
    ensures (aH * HALF + aL) * (bH * HALF + bL) == h * WORD + (m1 + m2) * HALF + l
  {
    assert (aH * HALF + aL) * (bH * HALF + bL) == aH * HALF * (bH * HALF + bL) + aL * (bH * HALF + bL);
    assert aH * HALF * (bH * HALF + bL) == aH * bH * (HALF * HALF) + aH * bL * HALF;
    assert aL * (bH * HALF + bL) == aL * bH * HALF + aL * bL;
  }

  lemma Mul64Limbs(a: nat, b: nat)
    requires a < WORD && b < WORD
    ensures Mul64(a, b) == Limbs(a % HALF * (b % HALF), a / HALF * (b % HALF), a % HALF * (b / HALF), a / HALF * (b / HALF))
  {
    Halves(a);
    Halves(b);
    Small(a % HALF, b % HALF);
    Small(a / HALF, b % HALF);
    Small(a % HALF, b / HALF);
    hide Limbs;
  }

  lemma ProductBound(a: nat, b: nat)
    requires a < WORD && b < WORD
    ensures a * b < DOUBLE
  {
    Bound(a, b, WORD - 1);
  }

  /** The limb products add up to the exact 128-bit product. */
  lemma Mul64Is(a: nat, b: nat)
    requires a < WORD && b < WORD
    ensures Value(Mul64(a, b)) == a * b
  {
    Mul64Limbs(a, b);
    Halves(a);
    Halves(b);
    var aL, aH, bL, bH := a % HALF, a / HALF, b % HALF, b / HALF;
    Small(aL, bL);
    Small(aH, bL);
    Small(aL, bH);
    ProductBound(a, b);
    hide *;
    Pieces(aL, aH, bL, bH, aL * bL, aH * bL, aL * bH, aH * bH);
    LimbSum(aL * bL, aH * bL, aL * bH, aH * bH, a * b);
  }

  lemma LimbSum(l: nat, m1: nat, m2: nat, h: nat, p: nat)
    requires l <= (HALF - 1) * (HALF - 1) && m1 <= (HALF - 1) * (HALF - 1) && m2 <= (HALF - 1) * (HALF - 1)
    requires p == h * WORD + (m1 + m2) * HALF + l && p < DOUBLE
    ensures Value(Limbs(l, m1, m2, h)) == p
  {
    Halves(l);
    var m := l / HALF + m1;
    Fits(m, WORD);
    Halves(m);
    var n := m % HALF + m2;
    Fits(n, WORD);
    Halves(n);
    LimbParts(l, m, n, h, p, m1, m2);
  }

  lemma LimbParts(l: nat, m: nat, n: nat, h: nat, p: nat, m1: nat, m2: nat)
    requires l < WORD && m < WORD && n < WORD && m == l / HALF + m1 && n == m % HALF + m2
    requires p == h * WORD + (m1 + m2) * HALF + l && p < DOUBLE
    ensures Value(Uint128((h + (m / HALF + n / HALF) % WORD) % WORD, (l % HALF + n * HALF % WORD) % WORD)) == p
  {
    Halves(l);
    Halves(m);
    Halves(n);
    var top, low := m / HALF + n / HALF, l % HALF + n % HALF * HALF;
    Fits(top, WORD);
    Spread2(n / HALF, n % HALF);
    DivUnique(n * HALF, WORD, n / HALF, n % HALF * HALF);
    Fits(low, WORD);
    Collect(h, m / HALF, m % HALF, n / HALF, n % HALF, l / HALF, l % HALF, m1, m2);
    HighFits(h + top, low, p);
    Fits(h + top, WORD);
  }

  lemma Spread2(q: int, r: int)
    ensures (q * HALF + r) * HALF == q * WORD + r * HALF
  {
  }

  lemma Collect(h: int, mH: int, mL: int, nH: int, nL: int, lH: int, lL: int, m1: int, m2: int)
    requires lH + m1 == mH * HALF + mL && mL + m2 == nH * HALF + nL
    ensures h * WORD + (m1 + m2) * HALF + (lH * HALF + lL) == (h + (mH + nH)) * WORD + (lL + nL * HALF)
  {
    assert m1 + m2 + lH == mH * HALF + nH * HALF + nL;
    assert (m1 + m2) * HALF + lH * HALF == (m1 + m2 + lH) * HALF;
    assert (mH * HALF + nH * HALF + nL) * HALF == (mH + nH) * WORD + nL * HALF;
  }

  lemma HighFits(x: nat, low: nat, p: nat)
    requires p == x * WORD + low && p < DOUBLE
    ensures x < WORD
  {
    DoubleIs();
    assert x >= WORD ==> x * WORD >= WORD * WORD;
  }

  lemma ValueIs(x: Uint128)
    ensures Value(x) == x.high * WORD + x.low
  {
  }

  lemma MulOpen(a: Uint128, b: Uint128)
    requires Wide(a) && Wide(b)
    ensures a.low < WORD && b.low < WORD && a.high * b.low + a.low * b.high >= 0
    ensures var r := Mul64(a.low, b.low);
      Mul(a, b) == Uint128((r.high + (a.high * b.low + a.low * b.high) % WORD) % WORD, r.low) && r.low < WORD
  {
    hide Mul64;
  }

  /** Multiplication modulo 2^128. */
  lemma MulIs(a: Uint128, b: Uint128)
    requires Wide(a) && Wide(b)
    ensures Value(Mul(a, b)) == Value(a) * Value(b) % DOUBLE
  {
    hide *;
    MulOpen(a, b);
    var r := Mul64(a.low, b.low);
    Mul64Is(a.low, b.low);
    var cross: nat := a.high * b.low + a.low * b.high;
    var p := Value(a) * Value(b);
    var h := r.high + cross % WORD;
    ValueIs(a);
    ValueIs(b);
    ValueIs(r);
    Product(a.high, a.low, b.high, b.low);
    Carries(a.high * b.high, cross, r.high, r.low, p);
    HighWraps(h, r.low, h * WORD + r.low);
    SameRemainder(a.high * b.high + cross / WORD, h * WORD + r.low, p);
  }

  lemma Carries(hh: int, cross: int, high: int, low: int, p: int)
    requires p == hh * DOUBLE + cross * WORD + (high * WORD + low)
    ensures p == (hh + cross / WORD) * DOUBLE + ((high + cross % WORD) * WORD + low)
  {
    Quotient(cross, WORD);
    var q, r := cross / WORD, cross % WORD;
    Spread(q, r);
    assert cross * WORD == q * DOUBLE + r * WORD;
  }

  lemma Product(aH: nat, aL: nat, bH: nat, bL: nat)
    ensures (aH * WORD + aL) * (bH * WORD + bL) == aH * bH * DOUBLE + (aH * bL + aL * bH) * WORD + aL * bL
  {
    assert (aH * WORD + aL) * (bH * WORD + bL) == aH * WORD * (bH * WORD + bL) + aL * (bH * WORD + bL);
    assert aH * WORD * (bH * WORD + bL) == aH * bH * (WORD * WORD) + aH * bL * WORD;
    assert aL * (bH * WORD + bL) == aL * bH * WORD + aL * bL;
  }

  lemma SameRemainder(q: int, n: int, p: int)
    requires p == q * DOUBLE + n
    ensures p % DOUBLE == n % DOUBLE
  {
    Quotient(n, DOUBLE);
    var k, r := n / DOUBLE, n % DOUBLE;
    assert p == (q + k) * DOUBLE + r;
    DivUnique(p, DOUBLE, q + k, r);
  }

  lemma CmpIs(a: Uint128, b: Uint128)
    requires Wide(a) && Wide(b)
    ensures Cmp(a, b) == if Value(a) < Value(b) then -1 else if Value(a) > Value(b) then 1 else 0
  {
    if a.high < b.high {
      HighFirst(a, b);
    } else if b.high < a.high {
      HighFirst(b, a);
    }
  }

  lemma HighFirst(a: Uint128, b: Uint128)
    requires Wide(a) && Wide(b) && a.high < b.high
    ensures Value(a) < Value(b)
  {
    MulStep(a.high, b.high, WORD);
  }
}
