/** Numbers as sequences of digits, the first one first. */
module Digits {
  import opened Division

  ghost function Pow(b: nat, n: nat): (p: nat)
    ensures b >= 1 ==> p >= 1
  {
    if n == 0 then 1 else Pow(b, n - 1) * b
  }

  lemma Assoc(a: int, b: int, c: int)
    ensures a * b * c == a * (b * c)
  {
  }

  lemma Pow1(b: nat)
    ensures Pow(b, 1) == b && Pow(b, 0) == 1
  {
    assert Pow(b, 1) == Pow(b, 0) * b;
  }

  lemma {:induction false} PowAdd(b: nat, m: nat, n: nat)
    ensures Pow(b, m + n) == Pow(b, m) * Pow(b, n)
  {
    if n > 0 {
      PowAdd(b, m, n - 1);
      Assoc(Pow(b, m), Pow(b, n - 1), b);
      assert Pow(b, m + n) == Pow(b, m + n - 1) * b && Pow(b, n) == Pow(b, n - 1) * b;
    } else {
      Pow1(b);
    }
  }

  lemma {:induction false} PowMul(b: nat, k: nat, n: nat)
    ensures Pow(Pow(b, k), n) == Pow(b, k * n)
  {
    if n > 0 {
      PowMul(b, k, n - 1);
      PowAdd(b, k * (n - 1), k);
      assert k * (n - 1) + k == k * n;
    }
  }

  lemma {:induction false} PowMono(b: nat, m: nat, n: nat)
    requires b >= 1 && m <= n
    ensures Pow(b, m) <= Pow(b, n)
    decreases n
  {
    if m < n {
      PowMono(b, m, n - 1);
      assert Pow(b, n - 1) <= Pow(b, n - 1) * b;
    }
  }

  lemma DivShrinks(v: nat, b: nat)
    requires b >= 2
    ensures v / b <= v && (v > 0 ==> v / b < v) && v / b >= 0
  {
    Quotient(v, b);
    var q := v / b;
    if q > 0 {
      MulStep(1, b, q);
      assert q * b == b * q;
    } else if q < 0 {
      MulStep(q, 0, b);
    }
  }

  /** The number of digits of v; zero has one. */
  ghost function NumDigits(v: nat, b: nat): (n: nat)
    requires b >= 2
    ensures n >= 1
  {
    if v < b then 1 else DivShrinks(v, b); NumDigits(v / b, b) + 1
  }

  /** n digits of v, the first ones zero if v has fewer. */
  ghost function Fixed(v: nat, b: nat, n: nat): (ds: seq<nat>)
    requires b >= 2
    ensures |ds| == n && forall i :: 0 <= i < n ==> ds[i] < b
  {
    if n == 0 then [] else DivShrinks(v, b); Fixed(v / b, b, n - 1) + [v % b]
  }

  /** The number that digits stand for. */
  ghost function ValueOf(ds: seq<nat>, b: nat): nat {
    if ds == [] then 0 else ValueOf(ds[..|ds| - 1], b) * b + ds[|ds| - 1]
  }

  lemma ValueMore(ds: seq<nat>, d: nat, b: nat)
    ensures ValueOf(ds + [d], b) == ValueOf(ds, b) * b + d
  {
    assert (ds + [d])[..|ds|] == ds;
  }

  lemma DivLess(v: nat, b: nat, p: nat)
    requires b >= 1
    ensures v < p * b <==> v / b < p
  {
    Quotient(v, b);
    if v / b < p {
      MulStep(v / b, p, b);
    } else if p <= v / b {
      if p < v / b {
        MulStep(p, v / b, b);
      }
    }
  }

  lemma DigitStep(v: nat, b: nat, n: nat)
    requires b >= 2 && v >= b && n >= 1 && v / b >= 0 && v / b < Pow(b, n) && (n > 1 ==> Pow(b, n - 1) <= v / b)
    ensures v < Pow(b, n + 1) && Pow(b, n) <= v
  {
    assert Pow(b, n + 1) == Pow(b, n) * b && Pow(b, n) == Pow(b, n - 1) * b;
    Pow1(b);
    DivLess(v, b, Pow(b, n));
    DivLess(v, b, Pow(b, n - 1));
  }

  lemma {:induction false} DigitBounds(v: nat, b: nat)
    requires b >= 2
    ensures v < Pow(b, NumDigits(v, b)) && (NumDigits(v, b) > 1 ==> Pow(b, NumDigits(v, b) - 1) <= v)
    decreases v
  {
    if v < b {
      Pow1(b);
    } else {
      DivShrinks(v, b);
      var n := NumDigits(v / b, b);
      assert NumDigits(v, b) == n + 1;
      DigitBounds(v / b, b);
      hide *;
      DigitStep(v, b, n);
    }
  }

  /** The bounds determine the number of digits. */
  lemma DigitsUnique(v: nat, b: nat, n: nat)
    requires b >= 2 && n >= 1 && v < Pow(b, n) && (n > 1 ==> Pow(b, n - 1) <= v)
    ensures NumDigits(v, b) == n
  {
    var k := NumDigits(v, b);
    DigitBounds(v, b);
    if k < n {
      PowMono(b, k, n - 1);
    } else if n < k {
      PowMono(b, n, k - 1);
    }
  }

  /** Digits that are enough for a number stand for it. */
  lemma {:induction false} FixedValue(v: nat, b: nat, n: nat)
    requires b >= 2 && v < Pow(b, n)
    ensures ValueOf(Fixed(v, b, n), b) == v
  {
    if n > 0 {
      DivLess(v, b, Pow(b, n - 1));
      FixedValue(v / b, b, n - 1);
      ValueMore(Fixed(v / b, b, n - 1), v % b, b);
      Quotient(v, b);
    }
  }

  lemma DivDiv(v: nat, a: nat, b: nat)
    requires a >= 1 && b >= 1
    ensures v / a / b == v / (a * b) && v % (a * b) == v / a % b * a + v % a && a * b >= 1
  {
    Quotient(v, a);
    Quotient(v / a, b);
    var q, r, s := v / a / b, v / a % b, v % a;
    assert v == (q * b + r) * a + s;
    assert (q * b + r) * a == q * (a * b) + r * a;
    assert r * a + s < a * b by {
      MulStep(r, b, a);
      assert b * a == a * b;
    }
    assert a * b >= 1 by {
      MulStep(0, b, a);
    }
    DivUnique(v, a * b, q, r * a + s);
  }

  /** Several digits at once. */
  lemma {:induction false} FixedSplit(v: nat, b: nat, n: nat, k: nat)
    requires b >= 2 && k <= n
    ensures Pow(b, k) >= 1 && Fixed(v, b, n) == Fixed(v / Pow(b, k), b, n - k) + Fixed(v % Pow(b, k), b, k)
    decreases k
  {
    if k == 0 {
      DivUnique(v, 1, v, 0);
    } else {
      var p := Pow(b, k - 1);
      FixedSplit(v / b, b, n - 1, k - 1);
      assert Pow(b, k) == b * p;
      DivDiv(v, b, p);
      assert v / b / p == v / Pow(b, k);
      var m := v % Pow(b, k);
      Quotient(v, b);
      DivUnique(m, b, v / b % p, v % b);
      assert Fixed(m, b, k) == Fixed(v / b % p, b, k - 1) + [v % b];
    }
  }

  lemma PowPositive(b: nat, k: nat)
    requires b >= 2
    ensures Pow(b, k) >= 1 && (k > 0 ==> Pow(b, k) >= 2 && Pow(b, k) >= b)
  {
    if k > 0 {
      PowMono(b, 1, k);
      assert Pow(b, 1) == Pow(b, 0) * b;
    }
  }

  /** With k digits taken off, there are k fewer left. */
  lemma {:induction false} FewerDigits(v: nat, b: nat, k: nat)
    requires b >= 2 && v >= Pow(b, k)
    ensures Pow(b, k) >= 1 && NumDigits(v, b) > k && NumDigits(v / Pow(b, k), b) == NumDigits(v, b) - k
    decreases k
  {
    if k == 0 {
      DivUnique(v, 1, v, 0);
    } else {
      PowPositive(b, k);
      PowPositive(b, k - 1);
      DivLess(v, b, Pow(b, k - 1));
      FewerDigits(v / b, b, k - 1);
      DivDiv(v, b, Pow(b, k - 1));
      assert Pow(b, k) == b * Pow(b, k - 1);
    }
  }

  // ---------------------------------------------------------------- logarithms

  /** The position of the highest one bit, 0 for 0. */
  ghost function Log2(x: nat): nat {
    if x < 2 then 0 else Log2(x / 2) + 1
  }

  lemma {:induction false} Log2Digits(x: nat)
    ensures NumDigits(x, 2) == Log2(x) + 1
  {
    if x >= 2 {
      Log2Digits(x / 2);
    }
  }

  lemma Log2Bounds(x: nat)
    ensures x < Pow(2, Log2(x) + 1) && (x > 0 ==> Pow(2, Log2(x)) <= x)
  {
    Log2Digits(x);
    DigitBounds(x, 2);
    assert Pow(2, 0) == 1;
  }

  lemma PowBounds(x: nat, k: nat, l: nat, d: nat)
    requires k >= 1 && d * k <= l < d * k + k && x < Pow(2, l + 1) && (x > 0 ==> Pow(2, l) <= x) && (l > 0 ==> x > 0)
    ensures x < Pow(Pow(2, k), d + 1) && (d >= 1 ==> Pow(Pow(2, k), d) <= x)
  {
    PowMul(2, k, d + 1);
    PowMul(2, k, d);
    Commuted(k, d);
    hide Pow;
    PowMono(2, l + 1, k * (d + 1));
    PowMono(2, k * d, l);
    if d >= 1 {
      MulStep(0, d, k);
    }
  }

  lemma Commuted(k: int, d: int)
    ensures k * d == d * k && k * (d + 1) == d * k + k
  {
  }

  lemma Log2Positive(x: nat)
    ensures Log2(x) > 0 ==> x > 0
  {
  }

  /** Digits of a base that is a power of two. */
  lemma GroupedDigits(x: nat, k: nat)
    requires k >= 1
    ensures Pow(2, k) >= 2 && NumDigits(x, Pow(2, k)) == Log2(x) / k + 1
  {
    hide *;
    PowPositive(2, k);
    Log2Bounds(x);
    Log2Positive(x);
    var l := Log2(x);
    Quotient(l, k);
    DivPositive(l, k);
    var d := l / k;
    PowBounds(x, k, l, d);
    DigitsUnique(x, Pow(2, k), d + 1);
  }

  lemma DivPositive(l: nat, k: nat)
    requires k >= 1
    ensures l / k >= 0
  {
    Quotient(l, k);
    if l / k < 0 {
      MulStep(l / k, 0, k);
    }
  }
}
