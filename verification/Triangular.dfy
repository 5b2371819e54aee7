/** Triangular probing: start, start + 1, start + 1 + 2, ... modulo a power of two visits every index once. */
module Triangular {
  import opened HashCapacity

  function Mod(x: nat, n: nat): (r: nat)
    requires 0 < n
    ensures r < n
  {
    x % n
  }

  /** The probed index after k advances, each one step longer than the one before. */
  function Probe(start: nat, k: nat, n: nat): (i: nat)
    requires start < n
    ensures i < n
  {
    if k == 0 then start else Mod(Probe(start, k - 1, n) + k, n)
  }

  function Tri(k: nat): nat {
    if k == 0 then 0 else Tri(k - 1) + k
  }

  lemma {:induction false} TwiceTri(k: nat)
    ensures 2 * Tri(k) == k * (k + 1)
  {
    if k > 0 {
      TwiceTri(k - 1);
    }
  }

  lemma SmallProduct(d: int, n: nat, e: int)
    requires d * n == e && e < n && -e < n
    ensures d == 0
  {
    if d > 0 {
      MulAtLeast(d, n);
    } else if d < 0 {
      MulAtLeast(-d, n);
    }
  }

  lemma {:induction false} MulAtLeast(d: int, n: nat)
    requires d >= 1
    ensures d * n >= n
    decreases d
  {
    if d > 1 {
      MulAtLeast(d - 1, n);
      assert d * n == (d - 1) * n + n;
    }
  }

  lemma ModUnique(x: nat, q: nat, r: nat, n: nat)
    requires 0 < n && x == q * n + r && r < n
    ensures Mod(x, n) == r
  {
    var q1, r1 := x / n, x % n;
    assert x == q1 * n + r1;
    SmallProduct(q - q1, n, r1 - r);
  }

  lemma ModParts(x: nat, n: nat) returns (q: nat)
    requires 0 < n
    ensures x == q * n + Mod(x, n)
  {
    q := x / n;
  }

  lemma ModAdd(x: nat, y: nat, n: nat)
    requires 0 < n
    ensures Mod(Mod(x, n) + y, n) == Mod(x + y, n)
  {
    hide Mod;
    var q := ModParts(x, n);
    var p := ModParts(Mod(x, n) + y, n);
    AddMultiples(q, p, n);
    ModUnique(x + y, q + p, Mod(Mod(x, n) + y, n), n);
  }

  lemma AddMultiples(q: int, p: int, n: int)
    ensures q * n + p * n == (q + p) * n
  {
  }

  lemma {:induction false} ProbeTri(start: nat, k: nat, n: nat)
    requires start < n
    ensures Probe(start, k, n) == Mod(start + Tri(k), n)
  {
    hide Mod;
    if k == 0 {
      ModUnique(start, 0, start, n);
    } else {
      ProbeTri(start, k - 1, n);
      ModAdd(start + Tri(k - 1), k, n);
    }
  }

  /** A power of two that divides a product with an odd factor divides the other one. */
  lemma {:induction false} OddFactor(x: nat, y: nat, m: nat, n: nat)
    requires PowerOfTwo(n) && x % 2 == 1 && x * y == n * m
    ensures Mod(y, n) == 0
    decreases n
  {
    if n == 1 {
      ModUnique(y, y, 0, 1);
    } else {
      hide Mod;
      var h := n / 2;
      Halve(n, h, m);
      EvenFactor(x, y, h * m);
      Halve(y, y / 2, x);
      OddFactor(x, y / 2, m, h);
      Doubled(y / 2, h);
    }
  }

  lemma Halve(n: nat, h: nat, m: nat)
    requires n == 2 * h
    ensures n * m == 2 * (h * m) && m * n == 2 * (m * h)
  {
  }

  lemma OddProduct(a: int, b: int)
    ensures (2 * a + 1) * (2 * b + 1) == 2 * (2 * (a * b) + a + b) + 1
  {
  }

  lemma EvenFactor(x: nat, y: nat, z: nat)
    requires x % 2 == 1 && x * y == 2 * z
    ensures y % 2 == 0 && y == 2 * (y / 2)
  {
    OddProduct(x / 2, y / 2);
  }

  lemma Doubled(y: nat, n: nat)
    requires 0 < n && Mod(y, n) == 0
    ensures Mod(2 * y, 2 * n) == 0
  {
    hide Mod;
    var q := ModParts(y, n);
    Halve(2 * n, n, q);
    ModUnique(2 * y, q, 0, 2 * n);
  }

  lemma SmallMultiple(y: nat, n: nat)
    requires 0 < y < n
    ensures Mod(y, n) == y
  {
    ModUnique(y, 0, y, n);
  }

  /** Congruent sums differ by a multiple. */
  lemma SameRemainder(x: nat, y: nat, n: nat) returns (m: nat)
    requires 0 < n && x <= y && Mod(x, n) == Mod(y, n)
    ensures y - x == n * m
  {
    hide Mod;
    var p := ModParts(x, n);
    var q := ModParts(y, n);
    AddMultiples(q - p, p, n);
    NotNegative(q - p, n);
    m := q - p;
  }

  lemma NotNegative(d: int, n: nat)
    requires 0 < n && d * n >= 0
    ensures d >= 0
  {
    if d < 0 {
      MulAtLeast(-d, n);
    }
  }

  /** No index is probed twice. */
  lemma ProbeInjective(start: nat, a: nat, b: nat, n: nat)
    requires PowerOfTwo(n) && start < n && a < b < n
    ensures Probe(start, a, n) != Probe(start, b, n)
  {
    hide Mod, Probe;
    ProbeTri(start, a, n);
    ProbeTri(start, b, n);
    if Probe(start, a, n) == Probe(start, b, n) {
      TriMonotone(a, b);
      var m := SameRemainder(start + Tri(a), start + Tri(b), n);
      TwiceTri(a);
      TwiceTri(b);
      TriDifference(a, b, n, m);
      Parity(b - a, a + b + 1, 2 * n, m);
    }
  }

  lemma {:induction false} TriMonotone(a: nat, b: nat)
    requires a <= b
    ensures Tri(a) <= Tri(b)
  {
    if a < b {
      TriMonotone(a, b - 1);
    }
  }

  lemma TriDifference(a: nat, b: nat, n: nat, m: nat)
    requires a < b && Tri(b) - Tri(a) == n * m && 2 * Tri(a) == a * (a + 1) && 2 * Tri(b) == b * (b + 1)
    ensures (b - a) * (a + b + 1) == (2 * n) * m
  {
    Factors(a, b);
    Halve(2 * n, n, m);
    hide Tri;
  }

  lemma Factors(a: int, b: int)
    ensures (b - a) * (a + b + 1) == b * (b + 1) - a * (a + 1)
  {
  }

  /** One of two factors x and y is odd, and the other one is too small to be a multiple of n. */
  lemma Parity(x: nat, y: nat, n: nat, m: nat)
    requires PowerOfTwo(n) && (x + y) % 2 == 1 && 0 < x < n && 0 < y < n
    ensures x * y != n * m
  {
    hide Mod, PowerOfTwo;
    if x * y == n * m {
      SmallMultiple(x, n);
      SmallMultiple(y, n);
      if x % 2 == 1 {
        OddFactor(x, y, m, n);
      } else {
        OddFactor(y, x, m, n);
      }
    }
  }

  ghost function Below(n: nat): (b: set<nat>)
    ensures forall i: nat :: i in b <==> i < n
  {
    if n == 0 then {} else Below(n - 1) + {n - 1}
  }

  lemma {:induction false} BelowSize(n: nat)
    ensures |Below(n)| == n
  {
    if n > 0 {
      BelowSize(n - 1);
      assert n - 1 !in Below(n - 1);
    }
  }

  ghost function Visited(start: nat, k: nat, n: nat): set<nat>
    requires start < n
  {
    set i | 0 <= i < k :: Probe(start, i, n)
  }

  lemma {:induction false} VisitedSize(start: nat, k: nat, n: nat)
    requires PowerOfTwo(n) && start < n && k <= n
    ensures |Visited(start, k, n)| == k
  {
    if k > 0 {
      VisitedSize(start, k - 1, n);
      forall i | 0 <= i < k - 1 ensures Probe(start, i, n) != Probe(start, k - 1, n) {
        ProbeInjective(start, i, k - 1, n);
      }
      hide Probe;
      assert Visited(start, k, n) == Visited(start, k - 1, n) + {Probe(start, k - 1, n)};
    }
  }

  lemma SubsetSameSize(a: set<nat>, b: set<nat>)
    requires a <= b && |a| == |b|
    ensures a == b
  {
    assert |b - a| == |b| - |a|;
  }

  /** Every index is probed. */
  lemma ProbeSurjective(start: nat, j: nat, n: nat)
    requires PowerOfTwo(n) && start < n && j < n
    ensures exists k :: 0 <= k < n && Probe(start, k, n) == j
  {
    VisitedSize(start, n, n);
    BelowSize(n);
    hide Probe;
    assert Visited(start, n, n) <= Below(n);
    SubsetSameSize(Visited(start, n, n), Below(n));
    assert j in Below(n);
  }

  /** When index j is probed. */
  ghost function Step(start: nat, j: nat, n: nat): (k: nat)
    requires PowerOfTwo(n) && start < n && j < n
    ensures k < n && Probe(start, k, n) == j
  {
    ProbeSurjective(start, j, n);
    var k: nat :| k < n && Probe(start, k, n) == j;
    k
  }

  lemma StepOfProbe(start: nat, k: nat, n: nat)
    requires PowerOfTwo(n) && start < n && k < n
    ensures Step(start, Probe(start, k, n), n) == k
  {
    var m := Step(start, Probe(start, k, n), n);
    if m < k {
      ProbeInjective(start, m, k, n);
    } else if k < m {
      ProbeInjective(start, k, m, n);
    }
  }
}
