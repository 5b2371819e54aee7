/** Parsing integers, and reading back what was printed. */
module FromChars {
  import opened Division
  import opened Digits
  import opened ToChars

  const NOT_A_DIGIT := 255
  const WORD_64 := 0x1_0000_0000_0000_0000

  /** What the lookup table says about a byte. */
  function DigitOf(c: char): (d: nat)
    ensures d < 36 || d == NOT_A_DIGIT
  {
    if '0' <= c <= '9' then c as int - '0' as int
    else if 'a' <= c <= 'z' then c as int - 'a' as int + 10
    else if 'A' <= c <= 'Z' then c as int - 'A' as int + 10
    else NOT_A_DIGIT
  }

  /** The table ends before the byte 255. */
  ghost predicate Bytes(chars: seq<char>) {
    forall i :: 0 <= i < |chars| ==> chars[i] as int < 255
  }

  /** Memory that may be read: all of the given length, or a string with its terminator. */
  ghost predicate Readable(chars: seq<char>, maxlen: nat) {
    maxlen <= |chars| || '\0' in chars
  }

  datatype Outcome = Outcome(ok: bool, overflow: bool, nchars: nat)

  ghost predicate AreDigits(chars: seq<char>, i: nat, n: nat, base: nat) {
    i + n <= |chars| && forall j :: i <= j < i + n ==> DigitOf(chars[j]) < base
  }

  ghost function DigitsAt(chars: seq<char>, i: nat, n: nat): (ds: seq<nat>)
    requires i + n <= |chars|
    ensures |ds| == n
  {
    seq<nat>(n, j requires 0 <= j < n => DigitOf(chars[i + j]))
  }

  /** The number that n characters stand for. */
  ghost function ValueAt(chars: seq<char>, i: nat, n: nat, base: nat): nat
    requires i + n <= |chars|
  {
    ValueOf(DigitsAt(chars, i, n), base)
  }

  /** From i on there are exactly n digits, up to the end or to something else. */
  ghost predicate DigitRun(chars: seq<char>, i: nat, n: nat, maxlen: nat, base: nat) {
    AreDigits(chars, i, n, base) && i + n <= maxlen && (i + n < maxlen ==> i + n < |chars| && DigitOf(chars[i + n]) >= base)
  }

  /** There is nothing behind position i. */
  ghost predicate AtEnd(chars: seq<char>, i: nat, maxlen: nat) {
    i == maxlen || (i < |chars| && chars[i] == '\0')
  }

  lemma NextDigit(chars: seq<char>, i: nat, n: nat, base: nat)
    requires AreDigits(chars, i, n, base) && i + n < |chars| && DigitOf(chars[i + n]) < base
    ensures AreDigits(chars, i, n + 1, base) && ValueAt(chars, i, n + 1, base) == ValueAt(chars, i, n, base) * base + DigitOf(chars[i + n])
  {
    assert DigitsAt(chars, i, n + 1) == DigitsAt(chars, i, n) + [DigitOf(chars[i + n])];
    ValueMore(DigitsAt(chars, i, n), DigitOf(chars[i + n]), base);
  }

  /** A terminator is not a digit, so that the digits end before it. */
  lemma StopsBeforeNul(chars: seq<char>, i: nat, n: nat, base: nat)
    requires i + n == |chars| && AreDigits(chars, i, n, base) && base <= 36 && forall j :: 0 <= j < i ==> chars[j] != '\0'
    ensures '\0' !in chars
  {
    assert DigitOf('\0') == NOT_A_DIGIT;
  }

  lemma CanGoOn(chars: seq<char>, i: nat, n: nat, maxlen: nat, base: nat)
    requires Readable(chars, maxlen) && i + n < maxlen && AreDigits(chars, i, n, base) && base <= 36
    requires forall j :: 0 <= j < i ==> chars[j] != '\0'
    ensures i + n < |chars|
  {
    if i + n == |chars| {
      StopsBeforeNul(chars, i, n, base);
    }
  }

  /** Comparing with the quotient and the remainder is comparing with the limit. */
  lemma CutsOff(res: nat, c: nat, base: nat, cutoff: nat, cutlim: nat)
    requires c < base && cutlim < base
    ensures (res > cutoff || (res == cutoff && c > cutlim)) <==> res * base + c > cutoff * base + cutlim
  {
    if res > cutoff {
      MulStep(cutoff, res, base);
    } else if res < cutoff {
      MulStep(res, cutoff, base);
    }
  }

  /** A number that is too large does not become smaller with more digits. */
  lemma StaysLarge(v: nat, base: nat, c: nat, limit: nat)
    requires v > limit && base >= 1
    ensures v * base + c > limit
  {
    assert v * base >= v * 1;
  }

  /** The digits from i on; overflow is found exactly when the number is above the limit. */
  method ParseDigits(chars: seq<char>, i: nat, maxlen: nat, base: nat, cutoff: nat, cutlim: nat) returns (res: Outcome, value: nat)
    requires Bytes(chars) && Readable(chars, maxlen) && i <= maxlen && i <= |chars| && 2 <= base <= 36
    requires forall j :: 0 <= j < i ==> chars[j] != '\0'
    requires cutlim < base && cutoff * base + cutlim < WORD_64
    ensures DigitRun(chars, i, res.nchars, maxlen, base)
    ensures res.overflow <==> ValueAt(chars, i, res.nchars, base) > cutoff * base + cutlim
    ensures !res.overflow ==> value == ValueAt(chars, i, res.nchars, base)
    ensures res.ok <==> !res.overflow && res.nchars > 0 && AtEnd(chars, i + res.nchars, maxlen)
  {
    hide AreDigits, ValueAt, Readable, Bytes, DigitOf;
    value := 0;
    var overflow := false;
    var n: nat := 0;
    NoDigits(chars, i, base);
    while i + n < maxlen
      invariant i + n <= maxlen && i + n <= |chars| && AreDigits(chars, i, n, base)
      invariant overflow ==> ValueAt(chars, i, n, base) > cutoff * base + cutlim
      invariant value <= cutoff * base + cutlim && (!overflow ==> value == ValueAt(chars, i, n, base))
      decreases maxlen - n
    {
      CanGoOn(chars, i, n, maxlen, base);
      var c := DigitOf(chars[i + n]);
      if c >= base {
        break;
      }
      NextDigit(chars, i, n, base);
      CutsOff(value, c, base, cutoff, cutlim);
      if overflow {
        StaysLarge(ValueAt(chars, i, n, base), base, c, cutoff * base + cutlim);
      }
      if value > cutoff || (value == cutoff && c > cutlim) {
        overflow := true;
      } else {
        value := value * base + c;
      }
      n := n + 1;
    }
    res := Outcome(!overflow && (i + n == maxlen || chars[i + n] == '\0') && n != 0, overflow, n);
  }

  lemma NoDigits(chars: seq<char>, i: nat, base: nat)
    requires i <= |chars|
    ensures AreDigits(chars, i, 0, base) && ValueAt(chars, i, 0, base) == 0
  {
  }

  // ---------------------------------------------------------------- sign and base

  const AUTODETECT := 0

  function HasSign(chars: seq<char>, maxlen: nat, ty: IntType): bool
    requires maxlen > 0 ==> |chars| > 0
  {
    ty.signed && maxlen > 0 && (chars[0] == '-' || chars[0] == '+')
  }

  /** The base that is named by a prefix, and the length of the prefix. */
  function PrefixBase(chars: seq<char>, i: nat, maxlen: nat): (r: (nat, nat))
    requires i <= maxlen && (i < maxlen ==> i < |chars|) && (i + 1 < maxlen && chars[i] == '0' ==> i + 1 < |chars|)
    ensures 2 <= r.0 <= 36 && i + r.1 <= maxlen
  {
    if maxlen - i <= 1 || chars[i] != '0' then (10, 0)
    else if chars[i + 1] == 'x' || chars[i + 1] == 'X' then (16, 2)
    else if chars[i + 1] == 'b' || chars[i + 1] == 'B' then (2, 2)
    else if chars[i + 1] == 'o' || chars[i + 1] == 'O' then (8, 2)
    else (10, 0)
  }

  function BaseOf(chars: seq<char>, i: nat, maxlen: nat, base: nat): (r: (nat, nat))
    requires i <= maxlen && (i < maxlen ==> i < |chars|) && (i + 1 < maxlen && chars[i] == '0' ==> i + 1 < |chars|)
    requires base == AUTODETECT || 2 <= base <= 36
    ensures 2 <= r.0 <= 36 && i + r.1 <= maxlen
  {
    if base != AUTODETECT then (base, 0) else PrefixBase(chars, i, maxlen)
  }

  lemma CanRead(chars: seq<char>, maxlen: nat, ty: IntType)
    requires Readable(chars, maxlen)
    ensures maxlen > 0 ==> |chars| > 0
    ensures var i := if HasSign(chars, maxlen, ty) then 1 else 0;
      i <= maxlen && i <= |chars| && (i < maxlen ==> i < |chars|) && (i + 1 < maxlen && chars[i] == '0' ==> i + 1 < |chars|)
  {
    if maxlen > |chars| {
      assert |chars| > 0;
      if |chars| == 1 {
        assert chars == [chars[0]];
      } else if |chars| == 2 {
        assert chars == [chars[0], chars[1]];
      }
    }
  }

  /** Where the digits start, and their base. */
  ghost function DigitsFrom(chars: seq<char>, maxlen: nat, ty: IntType, flagBase: nat): (r: (nat, nat))
    requires Readable(chars, maxlen) && (flagBase == AUTODETECT || 2 <= flagBase <= 36)
    ensures r.0 <= maxlen && 2 <= r.1 <= 36
  {
    CanRead(chars, maxlen, ty);
    var i := if HasSign(chars, maxlen, ty) then 1 else 0;
    var b := BaseOf(chars, i, maxlen, flagBase);
    (i + b.1, b.0)
  }

  function WithSign(negative: bool, v: int): int {
    if negative then -v else v
  }

  ghost function SignedValue(chars: seq<char>, maxlen: nat, ty: IntType, v: nat): int
    requires Readable(chars, maxlen)
  {
    CanRead(chars, maxlen, ty);
    WithSign(HasSign(chars, maxlen, ty) && chars[0] == '-', v)
  }

  /** All the digits are read; overflow is reported exactly when their value is outside of the type, and success exactly when there is
      at least one digit, nothing behind the digits and no overflow. Then the value is stored. */
  ghost predicate Parsed(chars: seq<char>, maxlen: nat, ty: IntType, flagBase: nat, res: Outcome, before: int, after: int)
    requires Readable(chars, maxlen) && (flagBase == AUTODETECT || 2 <= flagBase <= 36) && TypeOk(ty)
  {
    var r := DigitsFrom(chars, maxlen, ty, flagBase);
    r.0 <= res.nchars && DigitRun(chars, r.0, res.nchars - r.0, maxlen, r.1) &&
    var v := SignedValue(chars, maxlen, ty, ValueAt(chars, r.0, res.nchars - r.0, r.1));
    (res.overflow <==> !InType(v, ty)) &&
    (res.ok <==> !res.overflow && res.nchars > r.0 && AtEnd(chars, res.nchars, maxlen)) &&
    after == if res.ok then v else before
  }

  /** A 64-bit word stored as a value of a type. */
  function Stored(w: int, ty: IntType): int
    requires TypeOk(ty)
  {
    var m := w % WORD_64 % Range(ty);
    if ty.signed && m >= Range(ty) / 2 then m - Range(ty) else m
  }

  lemma StoredIs(v: nat, negative: bool, ty: IntType)
    requires TypeOk(ty) && InType(WithSign(negative, v), ty)
    ensures Stored(WithSign(negative, v), ty) == WithSign(negative, v)
  {
    var r := Range(ty);
    if negative && v > 0 {
      DivUnique(-(v as int), WORD_64, -1, WORD_64 - v);
      assert WORD_64 % r == 0 && WORD_64 / r >= 1;
      Quotient(WORD_64, r);
      assert WORD_64 - v == (WORD_64 / r - 1) * r + (r - v);
      DivUnique(WORD_64 - v, r, WORD_64 / r - 1, r - v);
    } else {
      DivUnique(v, WORD_64, 0, v);
      DivUnique(v, r, 0, v);
    }
  }

  lemma Limits(ty: IntType, negative: bool, v: nat)
    requires TypeOk(ty) && (negative ==> ty.signed)
    ensures MaxValue(ty) + (if negative then 1 else 0) < WORD_64
    ensures v > MaxValue(ty) + (if negative then 1 else 0) <==> !InType(WithSign(negative, v), ty)
  {
  }

  lemma CutoffIs(limit: nat, base: nat)
    requires base >= 1
    ensures limit / base >= 0 && limit / base * base + limit % base == limit && 0 <= limit % base < base
  {
    Quotient(limit, base);
    DivPositive(limit, base);
  }

  lemma NoNulBefore(chars: seq<char>, maxlen: nat, ty: IntType, flagBase: nat)
    requires Readable(chars, maxlen) && (flagBase == AUTODETECT || 2 <= flagBase <= 36)
    ensures var i := DigitsFrom(chars, maxlen, ty, flagBase).0; i <= |chars| && forall j :: 0 <= j < i ==> chars[j] != '\0'
  {
    CanRead(chars, maxlen, ty);
  }

  lemma RunFits(chars: seq<char>, i: nat, n: nat, maxlen: nat, base: nat)
    requires DigitRun(chars, i, n, maxlen, base)
    ensures i + n <= |chars|
  {
  }

  method FromChars(chars: seq<char>, maxlen: nat, ty: IntType, flagBase: nat, before: int) returns (res: Outcome, retval: int)
    requires Bytes(chars) && Readable(chars, maxlen) && (flagBase == AUTODETECT || 2 <= flagBase <= 36) && TypeOk(ty)
    ensures Parsed(chars, maxlen, ty, flagBase, res, before, retval)
  {
    hide Readable, Bytes, DigitRun, AtEnd, ValueAt, InType, MaxValue, BaseOf, Stored;
    CanRead(chars, maxlen, ty);
    NoNulBefore(chars, maxlen, ty, flagBase);
    var negative, i := false, 0;
    if ty.signed && maxlen > 0 && (chars[0] == '-' || chars[0] == '+') {
      negative := chars[0] == '-';
      i := 1;
    }
    var detected := BaseOf(chars, i, maxlen, flagBase);
    var base := detected.0;
    i := i + detected.1;
    var limit := MaxValue(ty) + if negative then 1 else 0;
    CutoffIs(limit, base);
    Limits(ty, negative, 0);
    var cutoff, cutlim := limit / base, limit % base;
    var v;
    res, v := ParseDigits(chars, i, maxlen, base, cutoff, cutlim);
    RunFits(chars, i, res.nchars, maxlen, base);
    Limits(ty, negative, ValueAt(chars, i, res.nchars, base));
    res := res.(nchars := res.nchars + i);
    retval := before;
    if res.ok {
      StoredIs(v, negative, ty);
      retval := Stored(WithSign(negative, v), ty);
    }
  }

  // ---------------------------------------------------------------- numerals

  /** The character stands for a digit, in capital or small letters. */
  ghost predicate Stands(c: char, d: nat) {
    Looks(c, d, false) || Looks(c, d, true)
  }

  lemma StandsIs(c: char, d: nat)
    ensures Stands(c, d) <==> d < 36 && DigitOf(c) == d
  {
  }

  /** Signed types may have a sign. */
  ghost predicate SignOk(sign: seq<char>, ty: IntType) {
    sign == [] || (ty.signed && (sign == ['-'] || sign == ['+']))
  }

  ghost predicate Names(letter: char, base: nat) {
    ((letter == 'x' || letter == 'X') && base == 16) || ((letter == 'b' || letter == 'B') && base == 2) ||
    ((letter == 'o' || letter == 'O') && base == 8)
  }

  /** The base is the one asked for, or it is named by a prefix, or it is 10. */
  ghost predicate PrefixOk(prefix: seq<char>, base: nat, flagBase: nat) {
    if flagBase != AUTODETECT then prefix == [] && base == flagBase
    else if prefix == [] then base == 10
    else |prefix| == 2 && prefix[0] == '0' && Names(prefix[1], base)
  }

  /** The characters begin with a sign, a prefix and digits; nothing of what follows belongs to any of these. */
  ghost predicate Divided(chars: seq<char>, maxlen: nat, ty: IntType, flagBase: nat, sign: seq<char>, prefix: seq<char>, base: nat, ds: seq<nat>) {
    var k, e := |sign| + |prefix|, |sign| + |prefix| + |ds|;
    SignOk(sign, ty) && PrefixOk(prefix, base, flagBase) && e <= maxlen && e <= |chars| && chars[..k] == sign + prefix &&
    (forall i :: 0 <= i < |ds| ==> ds[i] < base && Stands(chars[k + i], ds[i])) &&
    (sign == [] ==> NoSignAt(chars, maxlen, ty)) && (prefix == [] && flagBase == AUTODETECT ==> NoPrefixAt(chars, |sign|, maxlen)) &&
    NoDigitAt(chars, e, maxlen, base)
  }

  ghost predicate NoSignAt(chars: seq<char>, maxlen: nat, ty: IntType) {
    ty.signed && maxlen > 0 ==> |chars| > 0 && chars[0] != '-' && chars[0] != '+'
  }

  ghost predicate NoPrefixAt(chars: seq<char>, i: nat, maxlen: nat) {
    i + 1 < maxlen && i + 1 < |chars| && chars[i] == '0' ==> NoBase(chars[i + 1])
  }

  ghost predicate NoBase(c: char) {
    forall b: nat :: !Names(c, b)
  }

  ghost predicate NoDigit(c: char, base: nat) {
    forall d: nat :: d < base ==> !Stands(c, d)
  }

  ghost predicate NoDigitAt(chars: seq<char>, i: nat, maxlen: nat, base: nat) {
    i < maxlen ==> i < |chars| && NoDigit(chars[i], base)
  }

  lemma SignSeen(chars: seq<char>, maxlen: nat, ty: IntType, flagBase: nat, sign: seq<char>, prefix: seq<char>, base: nat, ds: seq<nat>)
    requires Divided(chars, maxlen, ty, flagBase, sign, prefix, base, ds) && Readable(chars, maxlen)
    ensures maxlen > 0 ==> |chars| > 0
    ensures HasSign(chars, maxlen, ty) == (sign != []) && (sign != [] ==> |chars| > 0 && chars[0] == sign[0])
    ensures |sign| == if HasSign(chars, maxlen, ty) then 1 else 0
  {
    CanRead(chars, maxlen, ty);
    var k := |sign| + |prefix|;
    assert forall i :: 0 <= i < k ==> chars[i] == chars[..k][i] == (sign + prefix)[i];
    hide Stands, NoPrefixAt, NoDigitAt, PrefixOk, Readable;
  }

  lemma PrefixSeen(chars: seq<char>, maxlen: nat, ty: IntType, flagBase: nat, sign: seq<char>, prefix: seq<char>, base: nat, ds: seq<nat>)
    requires Divided(chars, maxlen, ty, flagBase, sign, prefix, base, ds) && (flagBase == AUTODETECT || 2 <= flagBase <= 36)
    requires var i := |sign|; i <= maxlen && (i < maxlen ==> i < |chars|) && (i + 1 < maxlen && chars[i] == '0' ==> i + 1 < |chars|)
    ensures BaseOf(chars, |sign|, maxlen, flagBase) == (base, |prefix|) && 2 <= base <= 36
  {
    var k, i := |sign| + |prefix|, |sign|;
    assert forall j :: i <= j < k ==> chars[j] == chars[..k][j] == prefix[j - i];
    if prefix == [] && flagBase == AUTODETECT && i + 1 < maxlen && chars[i] == '0' {
      var c := chars[i + 1];
      assert !Names(c, 16) && !Names(c, 2) && !Names(c, 8);
    }
    hide Stands, NoSignAt, NoDigitAt, SignOk;
  }

  lemma DigitsSeen(chars: seq<char>, maxlen: nat, k: nat, base: nat, ds: seq<nat>)
    requires k + |ds| <= maxlen && k + |ds| <= |chars| && base <= 36 && NoDigitAt(chars, k + |ds|, maxlen, base)
    requires forall i :: 0 <= i < |ds| ==> ds[i] < base && Stands(chars[k + i], ds[i])
    ensures DigitRun(chars, k, |ds|, maxlen, base) && ValueAt(chars, k, |ds|, base) == ValueOf(ds, base)
  {
    forall i: nat | i < |ds| ensures DigitOf(chars[k + i]) == ds[i] < base {
      StandsIs(chars[k + i], ds[i]);
    }
    assert AreDigits(chars, k, |ds|, base) by {
      forall j | k <= j < k + |ds| ensures DigitOf(chars[j]) < base {
        var i: nat := j - k;
        assert DigitOf(chars[k + i]) == ds[i] < base;
      }
    }
    assert DigitsAt(chars, k, |ds|) == ds;
    var e := k + |ds|;
    if e < maxlen && DigitOf(chars[e]) < base {
      StandsIs(chars[e], DigitOf(chars[e]));
      assert false;
    }
  }

  lemma OneRun(chars: seq<char>, i: nat, n: nat, m: nat, maxlen: nat, base: nat)
    requires DigitRun(chars, i, n, maxlen, base) && DigitRun(chars, i, m, maxlen, base)
    ensures n == m
  {
  }

  lemma PartsSeen(chars: seq<char>, maxlen: nat, ty: IntType, flagBase: nat, sign: seq<char>, prefix: seq<char>, base: nat, ds: seq<nat>)
    requires Divided(chars, maxlen, ty, flagBase, sign, prefix, base, ds) && (flagBase == AUTODETECT || 2 <= flagBase <= 36)
    requires Readable(chars, maxlen)
    ensures DigitsFrom(chars, maxlen, ty, flagBase) == (|sign| + |prefix|, base) && 2 <= base <= 36
  {
    hide Divided, BaseOf, Readable, HasSign;
    SignSeen(chars, maxlen, ty, flagBase, sign, prefix, base, ds);
    CanRead(chars, maxlen, ty);
    PrefixSeen(chars, maxlen, ty, flagBase, sign, prefix, base, ds);
  }

  lemma SignedIs(chars: seq<char>, maxlen: nat, ty: IntType, flagBase: nat, sign: seq<char>, prefix: seq<char>, base: nat, ds: seq<nat>, v: nat)
    requires Divided(chars, maxlen, ty, flagBase, sign, prefix, base, ds) && Readable(chars, maxlen)
    ensures SignedValue(chars, maxlen, ty, v) == WithSign(sign == ['-'], v)
  {
    assert SignOk(sign, ty);
    SignSeen(chars, maxlen, ty, flagBase, sign, prefix, base, ds);
    hide HasSign, Readable, Divided;
  }

  /** What is known about the result when the digits are. */
  lemma ParsedIs(chars: seq<char>, maxlen: nat, ty: IntType, flagBase: nat, k: nat, base: nat, n: nat, res: Outcome, before: int, after: int)
    requires TypeOk(ty) && (flagBase == AUTODETECT || 2 <= flagBase <= 36) && Readable(chars, maxlen)
    requires Parsed(chars, maxlen, ty, flagBase, res, before, after) && DigitsFrom(chars, maxlen, ty, flagBase) == (k, base)
    requires DigitRun(chars, k, n, maxlen, base)
    ensures k + n <= |chars| && var v := SignedValue(chars, maxlen, ty, ValueAt(chars, k, n, base));
      res == Outcome(InType(v, ty) && n > 0 && AtEnd(chars, k + n, maxlen), !InType(v, ty), k + n) && after == if res.ok then v else before
  {
    OneRun(chars, k, n, res.nchars - k, maxlen, base);
    RunFits(chars, k, n, maxlen, base);
    hide DigitRun, DigitsFrom, ValueAt, Readable, InType, SignedValue, AtEnd;
  }

  lemma DividedDigits(chars: seq<char>, maxlen: nat, ty: IntType, flagBase: nat, sign: seq<char>, prefix: seq<char>, base: nat, ds: seq<nat>)
    requires Divided(chars, maxlen, ty, flagBase, sign, prefix, base, ds)
    ensures var k := |sign| + |prefix|;
      k + |ds| <= maxlen && k + |ds| <= |chars| && NoDigitAt(chars, k + |ds|, maxlen, base) &&
      forall i :: 0 <= i < |ds| ==> ds[i] < base && Stands(chars[k + i], ds[i])
  {
    hide Stands, NoDigitAt;
  }

  /** However the characters divide into sign, prefix and digits: this much is read, overflow means that the value is not
      in the type, and success that it is, and that there are digits and nothing behind them. */
  lemma {:induction false} DividedRead(chars: seq<char>, maxlen: nat, ty: IntType, flagBase: nat, sign: seq<char>, prefix: seq<char>, base: nat,
                                       ds: seq<nat>, res: Outcome, before: int, after: int)
    requires TypeOk(ty) && (flagBase == AUTODETECT || 2 <= flagBase <= 36) && Readable(chars, maxlen)
    requires Divided(chars, maxlen, ty, flagBase, sign, prefix, base, ds) && Parsed(chars, maxlen, ty, flagBase, res, before, after)
    ensures var v, e := WithSign(sign == ['-'], ValueOf(ds, base)), |sign| + |prefix| + |ds|;
      res == Outcome(InType(v, ty) && ds != [] && AtEnd(chars, e, maxlen), !InType(v, ty), e) && after == if res.ok then v else before
  {
    hide *;
    var k := |sign| + |prefix|;
    PartsSeen(chars, maxlen, ty, flagBase, sign, prefix, base, ds);
    DividedDigits(chars, maxlen, ty, flagBase, sign, prefix, base, ds);
    DigitsSeen(chars, maxlen, k, base, ds);
    ParsedIs(chars, maxlen, ty, flagBase, k, base, |ds|, res, before, after);
    SignedIs(chars, maxlen, ty, flagBase, sign, prefix, base, ds, ValueOf(ds, base));
  }

  lemma PartsFound(chars: seq<char>, maxlen: nat, ty: IntType, flagBase: nat) returns (sign: seq<char>, prefix: seq<char>)
    requires (flagBase == AUTODETECT || 2 <= flagBase <= 36) && Readable(chars, maxlen)
    ensures var r := DigitsFrom(chars, maxlen, ty, flagBase);
      SignOk(sign, ty) && PrefixOk(prefix, r.1, flagBase) && r.0 == |sign| + |prefix| <= |chars| && chars[..r.0] == sign + prefix
    ensures (sign == [] ==> NoSignAt(chars, maxlen, ty)) && (prefix == [] && flagBase == AUTODETECT ==> NoPrefixAt(chars, |sign|, maxlen))
  {
    CanRead(chars, maxlen, ty);
    var r := DigitsFrom(chars, maxlen, ty, flagBase);
    var i := if HasSign(chars, maxlen, ty) then 1 else 0;
    hide Readable;
    sign, prefix := chars[..i], chars[i..r.0];
  }

  lemma DigitsFound(chars: seq<char>, i: nat, n: nat, maxlen: nat, base: nat)
    requires DigitRun(chars, i, n, maxlen, base) && base <= 36
    ensures var ds := DigitsAt(chars, i, n);
      i + n <= maxlen && NoDigitAt(chars, i + n, maxlen, base) && forall j :: 0 <= j < n ==> ds[j] < base && Stands(chars[i + j], ds[j])
  {
    var ds := DigitsAt(chars, i, n);
    forall j | 0 <= j < n ensures ds[j] < base && Stands(chars[i + j], ds[j]) {
      StandsIs(chars[i + j], ds[j]);
    }
    if i + n < maxlen {
      var c := chars[i + n];
      forall d: nat | d < base ensures !Stands(c, d) {
        StandsIs(c, d);
      }
    }
  }

  /** All characters divide in this way. */
  lemma Divides(chars: seq<char>, maxlen: nat, ty: IntType, flagBase: nat, res: Outcome, before: int, after: int)
    returns (sign: seq<char>, prefix: seq<char>, base: nat, ds: seq<nat>)
    requires TypeOk(ty) && (flagBase == AUTODETECT || 2 <= flagBase <= 36) && Readable(chars, maxlen)
    requires Parsed(chars, maxlen, ty, flagBase, res, before, after)
    ensures Divided(chars, maxlen, ty, flagBase, sign, prefix, base, ds)
  {
    var r := DigitsFrom(chars, maxlen, ty, flagBase);
    base := r.1;
    assert r.0 <= res.nchars && DigitRun(chars, r.0, res.nchars - r.0, maxlen, base);
    hide *;
    sign, prefix := PartsFound(chars, maxlen, ty, flagBase);
    RunFits(chars, r.0, res.nchars - r.0, maxlen, base);
    DigitsFound(chars, r.0, res.nchars - r.0, maxlen, base);
    ds := DigitsAt(chars, r.0, res.nchars - r.0);
    DividedIs(chars, maxlen, ty, flagBase, sign, prefix, base, ds);
  }

  // ---------------------------------------------------------------- round trip

  /** The text t and nothing else. */
  ghost predicate Shows(chars: seq<char>, maxlen: nat, t: seq<char>) {
    |t| <= maxlen && |t| <= |chars| && chars[..|t|] == t && AtEnd(chars, |t|, maxlen)
  }

  lemma ShowsReadable(chars: seq<char>, maxlen: nat, t: seq<char>)
    requires Shows(chars, maxlen, t)
    ensures Readable(chars, maxlen)
  {
  }

  lemma CharsStand(ds: seq<nat>, upper: bool)
    requires forall i :: 0 <= i < |ds| ==> ds[i] < 36
    ensures forall i :: 0 <= i < |ds| ==> Stands(Chars(ds, upper)[i], ds[i])
  {
    forall i | 0 <= i < |ds| ensures Stands(Chars(ds, upper)[i], ds[i]) {
      DigitLooks(ds[i], upper);
    }
  }

  /** A number that is written out with a sign, a prefix and any number of leading zeros is read back. */
  lemma {:induction false} ReadsBack(chars: seq<char>, maxlen: nat, ty: IntType, flagBase: nat, sign: seq<char>, prefix: seq<char>, base: nat, v: nat, n: nat,
                  upper: bool, res: Outcome, before: int, after: int)
    requires TypeOk(ty) && SignOk(sign, ty) && PrefixOk(prefix, base, flagBase) && 2 <= base <= 36 && 1 <= n && v < Pow(base, n)
    requires flagBase == AUTODETECT || 2 <= flagBase <= 36
    requires Shows(chars, maxlen, sign + prefix + Chars(Fixed(v, base, n), upper)) && InType(WithSign(sign == ['-'], v), ty)
    requires Parsed(chars, maxlen, ty, flagBase, res, before, after)
    ensures res == Outcome(true, false, |sign| + |prefix| + n) && after == WithSign(sign == ['-'], v)
  {
    hide *;
    var ds := Fixed(v, base, n);
    ShowsReadable(chars, maxlen, sign + prefix + Chars(ds, upper));
    FixedValue(v, base, n);
    WrittenDivides(chars, maxlen, ty, flagBase, sign, prefix, base, v, n, upper);
    DividedRead(chars, maxlen, ty, flagBase, sign, prefix, base, ds, res, before, after);
  }

  lemma {:induction false} WrittenDivides(chars: seq<char>, maxlen: nat, ty: IntType, flagBase: nat, sign: seq<char>, prefix: seq<char>,
                                          base: nat, v: nat, n: nat, upper: bool)
    requires SignOk(sign, ty) && PrefixOk(prefix, base, flagBase) && 2 <= base <= 36 && 1 <= n
    requires Shows(chars, maxlen, sign + prefix + Chars(Fixed(v, base, n), upper))
    ensures Divided(chars, maxlen, ty, flagBase, sign, prefix, base, Fixed(v, base, n))
    ensures AtEnd(chars, |sign| + |prefix| + n, maxlen)
  {
    var ds := Fixed(v, base, n);
    var t := sign + prefix + Chars(ds, upper);
    var k := |sign| + |prefix|;
    assert AtEnd(chars, |t|, maxlen) && chars[..|t|] == t && |t| == k + n;
    hide *;
    CharsStand(ds, upper);
    PartsAre(chars, sign, prefix, Chars(ds, upper));
    forall i | 0 <= i < n ensures ds[i] < base && Stands(chars[k + i], ds[i]) {
    }
    EndIsNoDigit(chars, k + n, maxlen, base);
    NothingMissed(chars, maxlen, ty, flagBase, sign, prefix, base, ds);
    DividedIs(chars, maxlen, ty, flagBase, sign, prefix, base, ds);
  }

  lemma PartsAre(chars: seq<char>, sign: seq<char>, prefix: seq<char>, cs: seq<char>)
    requires var t := sign + prefix + cs; |t| <= |chars| && chars[..|t|] == t
    ensures var k := |sign| + |prefix|; chars[..k] == sign + prefix && forall i :: 0 <= i < |cs| ==> chars[k + i] == cs[i]
  {
    var t, k := sign + prefix + cs, |sign| + |prefix|;
    assert chars[..k] == t[..k] == sign + prefix;
    forall i | 0 <= i < |cs| ensures chars[k + i] == cs[i] {
      assert chars[k + i] == chars[..|t|][k + i] == t[k + i];
    }
  }

  lemma DividedIs(chars: seq<char>, maxlen: nat, ty: IntType, flagBase: nat, sign: seq<char>, prefix: seq<char>, base: nat, ds: seq<nat>)
    requires var k := |sign| + |prefix|;
      k + |ds| <= maxlen && k + |ds| <= |chars| && chars[..k] == sign + prefix && NoDigitAt(chars, k + |ds|, maxlen, base) &&
      forall i :: 0 <= i < |ds| ==> ds[i] < base && Stands(chars[k + i], ds[i])
    requires SignOk(sign, ty) && PrefixOk(prefix, base, flagBase)
    requires (sign == [] ==> NoSignAt(chars, maxlen, ty)) && (prefix == [] && flagBase == AUTODETECT ==> NoPrefixAt(chars, |sign|, maxlen))
    ensures Divided(chars, maxlen, ty, flagBase, sign, prefix, base, ds)
  {
    hide Stands, SignOk, PrefixOk, NoSignAt, NoPrefixAt, NoDigitAt;
  }

  lemma EndIsNoDigit(chars: seq<char>, i: nat, maxlen: nat, base: nat)
    requires AtEnd(chars, i, maxlen)
    ensures NoDigitAt(chars, i, maxlen, base)
  {
  }

  /** Digits are taken neither for a sign nor for a prefix. */
  lemma NothingMissed(chars: seq<char>, maxlen: nat, ty: IntType, flagBase: nat, sign: seq<char>, prefix: seq<char>, base: nat, ds: seq<nat>)
    requires var k := |sign| + |prefix|;
      k + |ds| <= |chars| && chars[..k] == sign + prefix && AtEnd(chars, k + |ds|, maxlen) &&
      forall i :: 0 <= i < |ds| ==> ds[i] < base && Stands(chars[k + i], ds[i])
    requires PrefixOk(prefix, base, flagBase) && ds != []
    ensures (sign == [] ==> NoSignAt(chars, maxlen, ty)) && (prefix == [] && flagBase == AUTODETECT ==> NoPrefixAt(chars, |sign|, maxlen))
  {
    var k := |sign| + |prefix|;
    assert Stands(chars[k + 0], ds[0]);
    assert |ds| > 1 ==> Stands(chars[k + 1], ds[1]) && ds[1] < base;
    if sign == [] && prefix != [] {
      assert chars[0] == chars[..k][0] == prefix[0];
    }
  }

  /** What was printed is read back as the same number. */
  lemma {:induction false} RoundTrip(chars: seq<char>, maxlen: nat, v: int, ty: IntType, base: nat, leadingZeros: bool, signAlways: bool, uppercase: bool,
                  flagBase: nat, res: Outcome, before: int, after: int)
    requires TypeOk(ty) && InType(v, ty) && 2 <= base <= 36 && (flagBase == base || (flagBase == AUTODETECT && base == 10))
    requires Shows(chars, maxlen, Text(v, ty, base, leadingZeros, signAlways, uppercase))
    requires Parsed(chars, maxlen, ty, flagBase, res, before, after)
    ensures res == Outcome(true, false, |Text(v, ty, base, leadingZeros, signAlways, uppercase)|) && after == v
  {
    var sign, n := SignOf(v, ty, signAlways), NumDigits(Widest(v, ty, leadingZeros), base);
    assert sign + [] == sign;
    assert WithSign(sign == ['-'], Abs(v)) == v;
    WidthIsEnough(v, ty, base, leadingZeros);
    hide Parsed, Shows, InType, Chars, Fixed, Pow, NumDigits, Widest;
    ReadsBack(chars, maxlen, ty, flagBase, sign, [], base, Abs(v), n, uppercase, res, before, after);
  }
}
