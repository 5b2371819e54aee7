/** Capacities: powers of two, and how many entries a table may hold. */
module HashCapacity {
  import opened HashBits

  predicate PowerOfTwo(n: nat) {
    n == 1 || (n > 0 && n % 2 == 0 && PowerOfTwo(n / 2))
  }

  /** The number of entries at which a table of this capacity still need not grow; threshold tenths of it. */
  function MaxEntries(capacity: nat, threshold: nat): nat {
    capacity / 10 * threshold + capacity % 10 * threshold / 10
  }

  /** Threshold tenths of the capacity, without the product. */
  lemma MaxEntriesIs(capacity: nat, threshold: nat)
    ensures MaxEntries(capacity, threshold) == capacity * threshold / 10
  {
    var q, r := capacity / 10, capacity % 10;
    var rest := r * threshold;
    assert capacity * threshold == (q * threshold + rest / 10) * 10 + rest % 10 by {
      assert capacity == q * 10 + r;
      assert capacity * threshold == q * 10 * threshold + rest;
    }
  }

  /** At least half of the capacity, but never all of it. */
  lemma MaxEntriesBounds(capacity: nat, threshold: nat)
    requires 5 <= threshold <= 9 && 8 <= capacity
    ensures capacity / 2 <= MaxEntries(capacity, threshold) < capacity
  {
    var q, r := capacity / 10, capacity % 10;
    assert q * 5 <= q * threshold <= q * 9;
    assert r * 5 <= r * threshold <= r * 9;
  }

  lemma QuarterIsEnough(capacity: nat, threshold: nat, numEntries: nat)
    requires 5 <= threshold <= 9 && 8 <= capacity && PowerOfTwo(capacity) && numEntries < capacity / 8
    ensures var c := if capacity / 4 < 8 then 8 else capacity / 4;
      8 <= c <= capacity && PowerOfTwo(c) && numEntries < c && numEntries <= MaxEntries(c, threshold)
  {
    var c := if capacity / 4 < 8 then 8 else capacity / 4;
    assert PowerOfTwo(1) && PowerOfTwo(2) && PowerOfTwo(4) && PowerOfTwo(8);
    MaxEntriesBounds(c, threshold);
  }

  lemma DoubleIsEnough(capacity: nat, threshold: nat)
    requires 5 <= threshold <= 9 && 8 <= capacity && PowerOfTwo(capacity)
    ensures PowerOfTwo(2 * capacity) && MaxEntries(capacity, threshold) + 1 <= MaxEntries(2 * capacity, threshold)
    ensures MaxEntries(capacity, threshold) + 1 < 2 * capacity
  {
    MaxEntriesBounds(capacity, threshold);
    MaxEntriesBounds(2 * capacity, threshold);
    hide MaxEntries;
  }

  /** The next power of two. */
  function RoundCapacity(capacity: nat): (r: nat)
    requires 1 <= capacity
    ensures PowerOfTwo(r) && capacity <= r < 2 * capacity
  {
    if capacity == 1 then 1 else 2 * RoundCapacity((capacity + 1) / 2)
  }

  /** There is only one power of two between a capacity and its double. */
  lemma {:induction false} RoundCapacityUnique(capacity: nat, r: nat)
    requires 1 <= capacity && PowerOfTwo(r) && capacity <= r < 2 * capacity
    ensures r == RoundCapacity(capacity)
    decreases capacity
  {
    if capacity > 1 {
      RoundCapacityUnique((capacity + 1) / 2, r / 2);
    }
  }

  const MAX_CAPACITY: nat := 0x8000_0000

  /** The smeared word and one is the next power of two. */
  lemma {:induction false} SmearedNext(x: nat)
    requires x < 0x1_0000_0000
    ensures PowerOfTwo(Smeared(x) + 1) && x < Smeared(x) + 1 && (if x == 0 then Smeared(x) == 0 else Smeared(x) + 1 <= 2 * x)
  {
    hide Smeared;
    if x == 0 {
      SmearedZero();
    } else {
      SmearedNext(x / 2);
      SmearedHalf(x);
      SmearedLow(x);
      assert (Smeared(x) + 1) / 2 == Smeared(x / 2) + 1;
    }
  }

  /** The next power of two, by smearing the bits of one less. */
  method RoundUp(capacity: nat) returns (r: nat)
    requires 1 <= capacity <= MAX_CAPACITY
    ensures r == RoundCapacity(capacity) <= MAX_CAPACITY
  {
    var c: nat := capacity - 1;
    c := Spread(c, 1);
    c := Spread(c, 2);
    c := Spread(c, 4);
    c := Spread(c, 8);
    c := Spread(c, 16);
    c := Spread(c, 16);
    r := c + 1;
    hide Spread, Smeared, PowerOfTwo;
    Unrolled(capacity - 1);
    SmearedNext(capacity - 1);
    RoundCapacityUnique(capacity, r);
    RoundBelowMax(capacity);
  }

  lemma RoundBelowMax(c: nat)
    requires 1 <= c <= MAX_CAPACITY
    ensures RoundCapacity(c) <= MAX_CAPACITY
  {
    MaxCapacityIsPower();
    PowerBelow(RoundCapacity(c), MAX_CAPACITY, c);
  }

  lemma {:induction false} PowersApart(a: nat, b: nat)
    requires PowerOfTwo(a) && PowerOfTwo(b) && a < b
    ensures 2 * a <= b && PowerOfTwo(2 * a)
    decreases b
  {
    if a > 1 {
      PowersApart(a / 2, b / 2);
    }
  }

  /** The present capacity is large enough, so doubling does not go beyond it. */
  lemma StillTooSmall(n: nat, capacity: nat, threshold: nat, numEntries: nat)
    requires 5 <= threshold <= 9 && 1 <= n && 8 <= capacity <= MAX_CAPACITY && PowerOfTwo(n) && PowerOfTwo(capacity)
    requires MaxEntries(n, threshold) < numEntries <= MaxEntries(capacity, threshold)
    ensures 2 * n <= capacity && PowerOfTwo(2 * n)
  {
    if n >= capacity {
      MaxEntriesGrows(capacity, n, threshold);
    } else {
      PowersApart(n, capacity);
    }
  }

  lemma MaxEntriesGrows(a: nat, b: nat, threshold: nat)
    requires a <= b
    ensures MaxEntries(a, threshold) <= MaxEntries(b, threshold)
  {
    var q, r, q1, r1 := a / 10, a % 10, b / 10, b % 10;
    assert q <= q1;
    if q == q1 {
      assert r * threshold <= r1 * threshold;
    } else {
      assert (q + 1) * threshold <= q1 * threshold;
      assert r * threshold <= 10 * threshold;
    }
  }

  /** The next power of two that all entries fit in. */
  method SuitableCapacity(newCapacity: nat, capacity: nat, threshold: nat, numEntries: nat) returns (n: nat)
    requires 1 <= newCapacity <= MAX_CAPACITY && 5 <= threshold <= 9
    requires 8 <= capacity <= MAX_CAPACITY && PowerOfTwo(capacity) && numEntries <= MaxEntries(capacity, threshold)
    ensures newCapacity <= n <= MAX_CAPACITY && PowerOfTwo(n) && numEntries <= MaxEntries(n, threshold)
    ensures n < 2 * newCapacity || MaxEntries(n / 2, threshold) < numEntries
  {
    n := RoundUp(newCapacity);
    hide MaxEntries, PowerOfTwo;
    while MaxEntries(n, threshold) < numEntries
      invariant newCapacity <= n <= MAX_CAPACITY && PowerOfTwo(n)
      invariant n < 2 * newCapacity || MaxEntries(n / 2, threshold) < numEntries
      decreases MAX_CAPACITY - n
    {
      StillTooSmall(n, capacity, threshold, numEntries);
      n := 2 * n;
    }
  }

  lemma ResizeTarget(n: nat, threshold: nat, numEntries: nat)
    requires 5 <= threshold <= 9 && PowerOfTwo(n) && numEntries <= MaxEntries(n, threshold)
    ensures var c := if n < 8 then 8 else n;
      PowerOfTwo(c) && PowerOfTwo(n) && numEntries < n && numEntries <= MaxEntries(c, threshold) && 3 <= c
  {
    assert PowerOfTwo(8) && PowerOfTwo(1) && PowerOfTwo(2) && PowerOfTwo(4);
  }

  lemma {:induction false} Doubled(n: nat)
    requires n > 0 && PowerOfTwo(n)
    ensures PowerOfTwo(2 * n)
  {
    assert 2 * n / 2 == n;
  }

  lemma {:induction false} SixteenTimes(n: nat)
    requires n > 0 && PowerOfTwo(n)
    ensures PowerOfTwo(16 * n)
  {
    hide PowerOfTwo;
    Doubled(n);
    Doubled(2 * n);
    Doubled(4 * n);
    Doubled(8 * n);
  }

  lemma MaxCapacityIsPower()
    ensures PowerOfTwo(MAX_CAPACITY)
  {
    assert PowerOfTwo(8) by {
      assert PowerOfTwo(2);
    }
    hide PowerOfTwo;
    SixteenTimes(0x8);
    SixteenTimes(0x80);
    SixteenTimes(0x800);
    SixteenTimes(0x8000);
    SixteenTimes(0x8_0000);
    SixteenTimes(0x80_0000);
    SixteenTimes(0x800_0000);
  }

  /** A power of two that is less than twice a number below another power of two is at most the latter. */
  lemma {:induction false} PowerBelow(a: nat, b: nat, c: nat)
    requires PowerOfTwo(a) && PowerOfTwo(b) && c <= b && a < 2 * c
    ensures a <= b
    decreases b
  {
    if a > 1 && b > 1 {
      PowerBelow(a / 2, b / 2, c / 2 + c % 2);
    }
  }
}
