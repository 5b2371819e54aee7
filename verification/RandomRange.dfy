/** Random numbers below a bound: rejection that makes all results equally likely. */
module RandomRange {
  import opened Division
  import opened Uint128s

  datatype Option = None | Some(value: nat)

  /** The generator's output x is accepted for the bound s; w is the number of possible outputs. */
  ghost predicate Accepted(x: nat, s: nat, w: nat)
    requires 0 < s && 0 < w
  {
    x * s % w >= w % s
  }

  /** The accepted outputs that give the result k. */
  ghost function Giving(k: nat, s: nat, w: nat): set<nat>
    requires 0 < s && 0 < w
  {
    set x: nat | x < w && Accepted(x, s, w) && x * s / w == k
  }

  // ---------------------------------------------------------------- the outputs for one result

  ghost predicate Within(lo: nat, n: nat, x: nat) {
    lo <= x < lo + n
  }

  ghost function Interval(lo: nat, n: nat): set<nat> {
    set x: nat | x < lo + n && Within(lo, n, x)
  }

  lemma {:induction false} IntervalSize(lo: nat, n: nat)
    ensures |Interval(lo, n)| == n
  {
    if n == 0 {
      assert Interval(lo, n) == {};
    } else {
      IntervalSize(lo, n - 1);
      assert Interval(lo, n) == Interval(lo, n - 1) + {lo + n - 1};
    }
  }

  /** The least multiple of s that is not less than n, divided by s. */
  ghost function CeilDiv(n: nat, s: nat): nat
    requires s > 0
  {
    if n % s == 0 then n / s else n / s + 1
  }

  lemma CeilDivIs(n: nat, s: nat, x: nat)
    requires s > 0
    ensures x * s >= n <==> x >= CeilDiv(n, s)
  {
    Quotient(n, s);
    var q := n / s;
    if x < q {
      MulStep(x, q, s);
    } else if x > q {
      MulStep(q, x, s);
    }
  }

  /** Accepted outputs for k are those with x * s in a range whose length is a multiple of s. */
  lemma InRange(x: nat, k: nat, s: nat, w: nat)
    requires 0 < s && 0 < w
    ensures Accepted(x, s, w) && x * s / w == k <==> k * w + w % s <= x * s < k * w + w
  {
    var m := x * s;
    Quotient(m, w);
    Quotient(w, s);
    if k * w + w % s <= m < k * w + w {
      DivUnique(m, w, k, m - k * w);
    }
  }

  lemma CeilShift(n: nat, q: nat, s: nat)
    requires s > 0
    ensures CeilDiv(n + q * s, s) == CeilDiv(n, s) + q
  {
    Quotient(n, s);
    assert n + q * s == (n / s + q) * s + n % s by {
      Distribute(n / s, q, s);
    }
    DivUnique(n + q * s, s, n / s + q, n % s);
  }

  lemma Distribute(a: int, b: int, s: int)
    ensures (a + b) * s == a * s + b * s
  {
  }

  lemma BelowBound(x: nat, k: nat, s: nat, w: nat)
    requires 0 < s && k < s && x * s < k * w + w
    ensures x < w
  {
    MulStep(k, s, w);
    assert k * w + w <= w * s;
    assert w <= x ==> w * s <= x * s;
  }

  /** Every result is given by exactly floor(w / s) of the w possible outputs. */
  lemma Uniform(k: nat, s: nat, w: nat)
    requires 0 < s <= w && k < s
    ensures |Giving(k, s, w)| == w / s
  {
    var lo := k * w + w % s;
    var q := w / s;
    Quotient(w, s);
    assert k * w + w == lo + q * s;
    var c := CeilDiv(lo, s);
    CeilShift(lo, q, s);
    forall x: nat ensures x in Giving(k, s, w) <==> x in Interval(c, q) {
      InRange(x, k, s, w);
      CeilDivIs(lo, s, x);
      CeilDivIs(lo + q * s, s, x);
      if lo <= x * s < lo + q * s {
        BelowBound(x, k, s, w);
      }
    }
    assert Giving(k, s, w) == Interval(c, q);
    IntervalSize(c, q);
  }

  // ---------------------------------------------------------------- the shortcut

  /** The threshold as it is computed: the negation wraps around. */
  lemma Threshold(s: nat, w: nat)
    requires 0 < s < w
    ensures (0 - s) % w == w - s && (w - s) % s == w % s
  {
    DivUnique(0 - s, w, -1, w - s);
    Quotient(w, s);
    assert w - s == (w / s - 1) * s + w % s by {
      Distribute(w / s - 1, 1, s);
    }
    DivUnique(w - s, s, w / s - 1, w % s);
  }

  lemma ThresholdBelow(s: nat, w: nat)
    requires 0 < s && 0 < w
    ensures w % s < s
  {
    Quotient(w, s);
  }

  // ---------------------------------------------------------------- the loops

  /** The position of the first accepted output. */
  ghost function FirstAccepted(outputs: seq<nat>, s: nat, w: nat): nat
    requires 0 < s && 0 < w
  {
    if outputs == [] then 0 else if Accepted(outputs[0], s, w) then 0 else 1 + FirstAccepted(outputs[1..], s, w)
  }

  lemma {:induction false} FirstIs(outputs: seq<nat>, s: nat, w: nat, i: nat)
    requires 0 < s && 0 < w && i <= |outputs| && (forall j :: 0 <= j < i ==> !Accepted(outputs[j], s, w))
    requires i < |outputs| ==> Accepted(outputs[i], s, w)
    ensures FirstAccepted(outputs, s, w) == i
  {
    if i > 0 {
      var rest := outputs[1..];
      forall j | 0 <= j < i - 1 ensures !Accepted(rest[j], s, w) {
        assert rest[j] == outputs[j + 1];
      }
      assert i < |outputs| ==> rest[i - 1] == outputs[i];
      FirstIs(rest, s, w, i - 1);
    }
  }

  const WORD32: int := 0x1_0000_0000

  lemma Product32(x: nat, s: nat)
    requires x < WORD32 && s < WORD32
    ensures x * s < WORD && x * s / WORD32 < WORD32
  {
    Bound(x, s, WORD32 - 1);
    Quotient(x * s, WORD32);
  }

  /** A number below limit from 32-bit outputs: the first accepted one is scaled, and nothing behind it is used. */
  method NextInRange32(outputs: seq<nat>, limit: nat) returns (r: Option, used: nat)
    requires 0 < limit < WORD32 && forall i :: 0 <= i < |outputs| ==> outputs[i] < WORD32
    ensures var i := FirstAccepted(outputs, limit, WORD32);
      if i < |outputs| then r == Some(outputs[i] * limit / WORD32) && r.value < limit && used == i + 1 else r == None && used == |outputs|
  {
    var s := limit;
    if |outputs| == 0 {
      return None, 0;
    }
    var x := outputs[0];
    used := 1;
    Product32(x, s);
    var m := x * s;
    var l := m % WORD32;
    ThresholdBelow(s, WORD32);
    if l < s {
      Threshold(s, WORD32);
      var t := (0 - s) % WORD32 % s;
      while l < t
        invariant 1 <= used <= |outputs| && x == outputs[used - 1] && m == x * s && l == m % WORD32 && t == WORD32 % s
        invariant forall j :: 0 <= j < used - 1 ==> !Accepted(outputs[j], s, WORD32)
        decreases |outputs| - used
      {
        if used == |outputs| {
          FirstIs(outputs, s, WORD32, used);
          return None, used;
        }
        x := outputs[used];
        used := used + 1;
        Product32(x, s);
        m := x * s;
        l := m % WORD32;
      }
    }
    FirstIs(outputs, s, WORD32, used - 1);
    Scaled(x, s, WORD32);
    r := Some(m / WORD32);
  }

  lemma Scaled(x: nat, s: nat, w: nat)
    requires x < w && s > 0
    ensures x * s / w < s
  {
    MulStep(x, w, s);
    Quotient(x * s, w);
    var q := x * s / w;
    if q >= s {
      if q > s {
        MulStep(s, q, w);
      }
    }
  }

  /** The halves of the 128-bit product. */
  lemma Product64(x: nat, s: nat)
    requires x < WORD && s < WORD
    ensures Mul64(x, s).low == x * s % WORD && Mul64(x, s).high == x * s / WORD
  {
    Mul64Is(x, s);
    var m := Mul64(x, s);
    DivUnique(x * s, WORD, m.high, m.low);
  }

  /** The same with 64-bit outputs and the 128-bit product from 32-bit limbs. */
  method NextInRange64(outputs: seq<nat>, limit: nat) returns (r: Option, used: nat)
    requires 0 < limit < WORD && forall i :: 0 <= i < |outputs| ==> outputs[i] < WORD
    ensures var i := FirstAccepted(outputs, limit, WORD);
      if i < |outputs| then r == Some(outputs[i] * limit / WORD) && r.value < limit && used == i + 1 else r == None && used == |outputs|
  {
    var s := limit;
    if |outputs| == 0 {
      return None, 0;
    }
    var x := outputs[0];
    used := 1;
    Product64(x, s);
    var m := Mul64(x, s);
    var l := m.low;
    ThresholdBelow(s, WORD);
    if l < s {
      Threshold(s, WORD);
      var t := (0 - s) % WORD % s;
      while l < t
        invariant 1 <= used <= |outputs| && x == outputs[used - 1] && m.high == x * s / WORD && l == x * s % WORD && t == WORD % s
        invariant forall j :: 0 <= j < used - 1 ==> !Accepted(outputs[j], s, WORD)
        decreases |outputs| - used
      {
        if used == |outputs| {
          FirstIs(outputs, s, WORD, used);
          return None, used;
        }
        x := outputs[used];
        used := used + 1;
        Product64(x, s);
        m := Mul64(x, s);
        l := m.low;
      }
    }
    FirstIs(outputs, s, WORD, used - 1);
    Scaled(x, s, WORD);
    r := Some(m.high);
  }
}
