/** Printing integers. */
module ToChars {
  import opened Division
  import opened Digits
  import opened Ilog10

  const LOWER: string := "0123456789abcdefghijklmnopqrstuvwxyz"
  const UPPER: string := "0123456789ABCDEFGHIJKLMNOPQRSTUVWXYZ"

  function Alphabet(upper: bool): (s: string)
    ensures |s| == 36
  {
    if upper then UPPER else LOWER
  }

  function DigitChar(d: nat, upper: bool): char
    requires d < 36
  {
    Alphabet(upper)[d]
  }

  ghost function Chars(ds: seq<nat>, upper: bool): (s: seq<char>)
    requires forall i :: 0 <= i < |ds| ==> ds[i] < 36
    ensures |s| == |ds| && forall i :: 0 <= i < |ds| ==> s[i] == DigitChar(ds[i], upper)
  {
    seq(|ds|, i requires 0 <= i < |ds| => DigitChar(ds[i], upper))
  }

  lemma CharsJoin(ds: seq<nat>, es: seq<nat>, upper: bool)
    requires (forall i :: 0 <= i < |ds| ==> ds[i] < 36) && forall i :: 0 <= i < |es| ==> es[i] < 36
    ensures Chars(ds + es, upper) == Chars(ds, upper) + Chars(es, upper)
  {
  }

  lemma Alphabets(d: nat)
    requires d < 36
    ensures LOWER[d] == if d < 10 then ('0' as int + d) as char else ('a' as int + d - 10) as char
    ensures UPPER[d] == if d < 10 then ('0' as int + d) as char else ('A' as int + d - 10) as char
  {
  }

  /** The character for a digit, by its code. */
  ghost predicate Looks(c: char, d: nat, upper: bool) {
    d < 36 && c as int == (if d < 10 then '0' as int + d else if upper then 'A' as int + d - 10 else 'a' as int + d - 10)
  }

  lemma DigitLooks(d: nat, upper: bool)
    requires d < 36
    ensures Looks(DigitChar(d, upper), d, upper)
  {
    Alphabets(d);
  }

  /** The decimal digits are the same in both alphabets. */
  lemma SameAlphabet(ds: seq<nat>, upper: bool, upper1: bool)
    requires forall i :: 0 <= i < |ds| ==> ds[i] < 10
    ensures Chars(ds, upper) == Chars(ds, upper1)
  {
    forall d: nat | d < 10 ensures DigitChar(d, true) == DigitChar(d, false) {
      assert LOWER[..10] == UPPER[..10];
      assert LOWER[..10][d] == UPPER[..10][d];
    }
  }

  /** An integer type of C. */
  datatype IntType = IntType(bits: nat, signed: bool)

  predicate TypeOk(ty: IntType) {
    ty.bits == 8 || ty.bits == 16 || ty.bits == 32 || ty.bits == 64
  }

  function Range(ty: IntType): nat
    requires TypeOk(ty)
  {
    if ty.bits == 8 then 0x100 else if ty.bits == 16 then 0x1_0000 else if ty.bits == 32 then 0x1_0000_0000 else 0x1_0000_0000_0000_0000
  }

  predicate InType(v: int, ty: IntType)
    requires TypeOk(ty)
  {
    if ty.signed then -(Range(ty) / 2) <= v < Range(ty) / 2 else 0 <= v < Range(ty)
  }

  function MaxValue(ty: IntType): nat
    requires TypeOk(ty)
  {
    if ty.signed then Range(ty) / 2 - 1 else Range(ty) - 1
  }

  /** The word that is computed with. */
  function Word(ty: IntType): nat
    requires TypeOk(ty)
  {
    if ty.bits <= 32 then 0x1_0000_0000 else 0x1_0000_0000_0000_0000
  }

  function Abs(v: int): nat {
    if v < 0 then -v else v
  }

  // ---------------------------------------------------------------- the text

  ghost function SignOf(v: int, ty: IntType, signAlways: bool): seq<char> {
    if ty.signed && v < 0 then ['-'] else if ty.signed && signAlways then ['+'] else []
  }

  /** The number whose digits are counted for the width. */
  ghost function Widest(v: int, ty: IntType, leadingZeros: bool): nat
    requires TypeOk(ty)
  {
    if !leadingZeros then Abs(v) else if ty.signed then Range(ty) / 2 else Range(ty) - 1
  }

  ghost function Text(v: int, ty: IntType, base: nat, leadingZeros: bool, signAlways: bool, uppercase: bool): seq<char>
    requires TypeOk(ty) && 2 <= base <= 36
  {
    SignOf(v, ty, signAlways) + Chars(Fixed(Abs(v), base, NumDigits(Widest(v, ty, leadingZeros), base)), uppercase)
  }

  /** The text character by character: a minus for a negative number, a plus for others if asked for and if the type is
      signed, and then n digits. */
  ghost predicate Spelled(t: seq<char>, v: int, ty: IntType, base: nat, n: nat, signAlways: bool, upper: bool) {
    var k := if ty.signed && (v < 0 || signAlways) then 1 else 0;
    2 <= base <= 36 && |t| == k + n && (k == 1 ==> t[0] == if v < 0 then '-' else '+') &&
    forall i :: 0 <= i < n ==> Looks(t[k + i], Fixed(Abs(v), base, n)[i], upper)
  }

  lemma TextSpelled(v: int, ty: IntType, base: nat, leadingZeros: bool, signAlways: bool, upper: bool)
    requires TypeOk(ty) && InType(v, ty) && 2 <= base <= 36
    ensures Spelled(Text(v, ty, base, leadingZeros, signAlways, upper), v, ty, base, NumDigits(Widest(v, ty, leadingZeros), base), signAlways, upper)
  {
    var ds := Fixed(Abs(v), base, NumDigits(Widest(v, ty, leadingZeros), base));
    forall i | 0 <= i < |ds| ensures Looks(Chars(ds, upper)[i], ds[i], upper) {
      DigitLooks(ds[i], upper);
    }
    hide Looks, DigitChar, NumDigits, Widest, InType;
  }

  /** What such a text begins with, and that it has no letters of the other kind. */
  lemma SpelledMeans(t: seq<char>, v: int, ty: IntType, base: nat, n: nat, signAlways: bool, upper: bool)
    requires Spelled(t, v, ty, base, n, signAlways, upper) && n >= 1
    ensures |t| > 0 && (t[0] == '-' <==> ty.signed && v < 0) && (t[0] == '+' <==> ty.signed && v >= 0 && signAlways)
    ensures forall c :: c in t && upper ==> !('a' <= c <= 'z')
    ensures forall c :: c in t && !upper ==> !('A' <= c <= 'Z')
  {
    var k := if ty.signed && (v < 0 || signAlways) then 1 else 0;
    assert Looks(t[k + 0], Fixed(Abs(v), base, n)[0], upper);
    forall c | c in t ensures (upper ==> !('a' <= c <= 'z')) && (!upper ==> !('A' <= c <= 'Z')) {
      var i :| 0 <= i < |t| && t[i] == c;
      assert i >= k ==> Looks(t[k + (i - k)], Fixed(Abs(v), base, n)[i - k], upper);
    }
  }

  /** The width with leading zeros is that of the widest number of the type. */
  lemma FullWidth(v: int, ty: IntType, base: nat) returns (widest: int)
    requires TypeOk(ty) && base >= 2
    ensures InType(widest, ty) && NumDigits(Abs(widest), base) == NumDigits(Widest(v, ty, true), base)
    ensures forall w :: InType(w, ty) ==> NumDigits(Abs(w), base) <= NumDigits(Widest(v, ty, true), base)
  {
    widest := if ty.signed then -(Range(ty) / 2) else Range(ty) - 1;
    forall w | InType(w, ty) ensures NumDigits(Abs(w), base) <= NumDigits(Widest(v, ty, true), base) {
      WidthIsEnough(w, ty, base, true);
    }
  }

  // ---------------------------------------------------------------- counting digits

  lemma Fewer(tmp: nat, base: nat, k: nat)
    requires base >= 2 && tmp >= Pow(base, k)
    ensures Pow(base, k) >= 1 && NumDigits(tmp, base) == k + NumDigits(tmp / Pow(base, k), base) && tmp / Pow(base, k) >= 0
    ensures k > 0 ==> tmp / Pow(base, k) < tmp
  {
    FewerDigits(tmp, base, k);
    PowPositive(base, k);
    if k > 0 {
      DivShrinks(tmp, Pow(base, k));
    } else {
      DivUnique(tmp, 1, tmp, 0);
    }
  }

  lemma OneDigit(v: nat, base: nat)
    requires base >= 2 && v < base
    ensures NumDigits(v, base) == 1 && v / base == 0 && Fixed(v, base, 1) == [v]
  {
    DivUnique(v, base, 0, v);
  }

  lemma MoreDigits(v: nat, base: nat)
    requires base >= 2 && v >= base
    ensures NumDigits(v, base) == NumDigits(v / base, base) + 1 && 0 < v / base < v
  {
    DivShrinks(v, base);
    DivLess(v, base, 1);
  }

  lemma Squares(base: nat)
    ensures Pow(base, 2) == base * base && Pow(base, 4) == base * base * (base * base)
  {
    Pow1(base);
    assert Pow(base, 2) == Pow(base, 1) * base;
    PowAdd(base, 2, 2);
  }

  /** Counting by division, four and two digits at a time first. */
  method CountSlowly(v: nat, base: nat) returns (n: nat)
    requires 2 <= base <= 36
    ensures n == NumDigits(v, base)
  {
    hide *;
    Squares(base);
    var base2 := base * base;
    var base4 := base2 * base2;
    n := 0;
    var tmp: nat := v;
    while tmp >= base4
      invariant NumDigits(v, base) == n + NumDigits(tmp, base)
      decreases tmp
    {
      Fewer(tmp, base, 4);
      n := n + 4;
      tmp := tmp / base4;
    }
    while tmp >= base2
      invariant NumDigits(v, base) == n + NumDigits(tmp, base)
      decreases tmp
    {
      Fewer(tmp, base, 2);
      n := n + 2;
      tmp := tmp / base2;
    }
    while true
      invariant NumDigits(v, base) == n + NumDigits(tmp, base)
      decreases tmp
    {
      n := n + 1;
      if tmp < base {
        OneDigit(tmp, base);
        break;
      }
      MoreDigits(tmp, base);
      tmp := tmp / base;
    }
  }

  lemma PowersOfTwo()
    ensures Pow(2, 1) == 2 && Pow(2, 3) == 8 && Pow(2, 4) == 16
  {
    Twos();
  }

  /** The number of digits by the branch for the base. */
  method CountDigits(v: nat, ty: IntType, base: nat) returns (n: nat)
    requires TypeOk(ty) && 2 <= base <= 36 && v < Word(ty)
    ensures n == NumDigits(v, base)
  {
    PowersOfTwo();
    if base == 2 {
      Log2Digits(v);
      var log := Ilog2(v);
      n := log + 1;
    } else if base == 8 {
      GroupedDigits(v, 3);
      var log := Ilog2(v);
      n := log / 3 + 1;
    } else if base == 10 {
      var log := Ilog2(v);
      if ty.bits <= 32 {
        Ilog10Of32Is(v);
        n := Ilog10Of32(v, log) + 1;
      } else {
        Ilog10Of64Is(v);
        n := Ilog10Of64(v, log) + 1;
      }
    } else if base == 16 {
      GroupedDigits(v, 4);
      var log := Ilog2(v);
      n := log / 4 + 1;
    } else {
      n := CountSlowly(v, base);
    }
  }

  /** The position of the highest one bit; the source uses a machine instruction where there is one. */
  method Ilog2(v: nat) returns (log: nat)
    ensures log == Log2(v)
  {
    log := 0;
    var tmp := v;
    while tmp >= 2
      invariant Log2(v) == log + Log2(tmp)
    {
      tmp := tmp / 2;
      log := log + 1;
    }
  }

  // ---------------------------------------------------------------- writing digits

  /** How many digits a table entry has, for bases that have a table. */
  function TableDigits(base: nat): nat {
    if base == 2 then 4 else if base == 8 || base == 10 || base == 16 then 2 else 0
  }

  function TableDivisor(base: nat): nat {
    if base == 2 then 16 else base * base
  }

  /** k digits of a number, as the tables have them. */
  function TableEntry(base: nat, k: nat, rem: nat, upper: bool): (s: seq<char>)
    requires 2 <= base <= 36
    ensures |s| == k
  {
    if k == 0 then [] else TableEntry(base, k - 1, DivideNat(rem, base), upper) + [DigitChar(rem % base, upper)]
  }

  function DivideNat(v: nat, b: nat): (q: nat)
    requires b >= 2
    ensures q == v / b
  {
    DivShrinks(v, b);
    v / b
  }

  lemma {:induction false} TableEntryIs(base: nat, k: nat, rem: nat, upper: bool)
    requires 2 <= base <= 36
    ensures TableEntry(base, k, rem, upper) == Chars(Fixed(rem, base, k), upper)
  {
    if k > 0 {
      TableEntryIs(base, k - 1, DivideNat(rem, base), upper);
      CharsJoin(Fixed(rem / base, base, k - 1), [rem % base], upper);
    }
  }

  /** The digits from n on have been written, and u is what is left of the number. */
  ghost predicate WrittenFrom(b: seq<char>, off: nat, n: nat, n0: nat, v: nat, u: nat, base: nat, upper: bool) {
    2 <= base <= 36 && n <= n0 && off + n0 <= |b| && u < Pow(base, n) &&
    Chars(Fixed(v, base, n0), upper) == Chars(Fixed(u, base, n), upper) + b[off + n..off + n0]
  }

  ghost predicate Around(b: seq<char>, b0: seq<char>, off: nat, n0: nat) {
    |b| == |b0| && off + n0 <= |b| && b[..off] == b0[..off] && b[off + n0..] == b0[off + n0..]
  }

  lemma WrittenStart(b: seq<char>, off: nat, n0: nat, v: nat, base: nat, upper: bool)
    requires 2 <= base <= 36 && off + n0 <= |b| && v < Pow(base, n0)
    ensures WrittenFrom(b, off, n0, n0, v, v, base, upper) && Around(b, b, off, n0)
  {
  }

  lemma WrittenChars(b: seq<char>, b1: seq<char>, off: nat, n: nat, n0: nat, c: seq<char>, a: seq<char>, d: seq<char>, k: nat)
    requires k <= n <= n0 && off + n0 <= |b| == |b1| && c == a + d + b[off + n..off + n0]
    requires b1[off + n - k..off + n] == d && b1[off + n..off + n0] == b[off + n..off + n0]
    ensures c == a + b1[off + n - k..off + n0]
  {
    assert b1[off + n - k..off + n0] == b1[off + n - k..off + n] + b1[off + n..off + n0];
  }

  lemma SmallerRest(u: nat, base: nat, n: nat, k: nat)
    requires 2 <= base && u < Pow(base, n) && k <= n && Pow(base, k) >= 1
    ensures 0 <= u / Pow(base, k) < Pow(base, n - k)
  {
    PowAdd(base, n - k, k);
    DivLess(u, Pow(base, k), Pow(base, n - k));
    DivAtLeast(u, Pow(base, k));
  }

  lemma DivAtLeast(u: nat, p: nat)
    requires p >= 1
    ensures u / p >= 0
  {
    DivPositive(u, p);
  }

  lemma SplitChars(u: nat, base: nat, n: nat, k: nat, upper: bool)
    requires 2 <= base <= 36 && k <= n && Pow(base, k) >= 1 && u / Pow(base, k) >= 0
    ensures u % Pow(base, k) >= 0 && Chars(Fixed(u, base, n), upper) ==
      Chars(Fixed(u / Pow(base, k), base, n - k), upper) + Chars(Fixed(u % Pow(base, k), base, k), upper)
  {
    var p := Pow(base, k);
    Quotient(u, p);
    FixedSplit(u, base, n, k);
    CharsJoin(Fixed(u / p, base, n - k), Fixed(u % p, base, k), upper);
    hide Chars, Fixed;
  }

  /** k digits more are written. */
  lemma WrittenMore(b: seq<char>, b1: seq<char>, off: nat, n: nat, n0: nat, v: nat, u: nat, base: nat, upper: bool, k: nat)
    requires WrittenFrom(b, off, n, n0, v, u, base, upper) && k <= n && |b1| == |b| && Pow(base, k) >= 1
    requires b1[off + n - k..off + n] == Chars(Fixed(u % Pow(base, k), base, k), upper)
    requires b1[off + n..off + n0] == b[off + n..off + n0]
    ensures u / Pow(base, k) >= 0 && WrittenFrom(b1, off, n - k, n0, v, u / Pow(base, k), base, upper)
  {
    SmallerRest(u, base, n, k);
    SplitChars(u, base, n, k, upper);
    var p := Pow(base, k);
    hide Chars, Fixed, Pow;
    WrittenChars(b, b1, off, n, n0, Chars(Fixed(v, base, n0), upper), Chars(Fixed(u / p, base, n - k), upper), Chars(Fixed(u % p, base, k), upper), k);
  }

  lemma CopyStep(b: seq<char>, b0: seq<char>, at: nat, s: seq<char>, i: nat)
    requires i < |s| && at + |s| <= |b0| && b == b0[..at] + s[..i] + b0[at + i..]
    ensures at + i < |b| && b[at + i := s[i]] == b0[..at] + s[..i + 1] + b0[at + i + 1..]
  {
    assert b0[at + i..] == [b0[at + i]] + b0[at + i + 1..];
    assert s[..i + 1] == s[..i] + [s[i]];
  }

  /** Writes characters to the buffer. */
  method Copy(buf: array<char>, at: nat, s: seq<char>)
    requires at + |s| <= buf.Length
    modifies buf
    ensures buf[..] == old(buf[..at]) + s + old(buf[at + |s|..])
  {
    var i: nat := 0;
    ghost var b0 := buf[..];
    assert b0 == b0[..at] + s[..0] + b0[at + 0..];
    while i < |s|
      invariant i <= |s| && buf[..] == b0[..at] + s[..i] + b0[at + i..]
    {
      CopyStep(buf[..], b0, at, s, i);
      ghost var b := buf[..];
      buf[at + i] := s[i];
      assert buf[..] == b[at + i := s[i]];
      i := i + 1;
    }
    assert s[..|s|] == s;
  }

  lemma CopyFacts(b: seq<char>, b0: seq<char>, b1: seq<char>, at: nat, s: seq<char>, off: nat, n0: nat)
    requires off <= at && at + |s| <= off + n0 && Around(b, b0, off, n0) && b1 == b[..at] + s + b[at + |s|..]
    ensures Around(b1, b0, off, n0) && b1[at..at + |s|] == s && b1[at + |s|..off + n0] == b[at + |s|..off + n0]
  {
    assert b1[..off] == b[..off];
    assert b1[off + n0..] == b[off + n0..];
  }

  lemma TableFacts(base: nat)
    requires base == 2 || base == 8 || base == 10 || base == 16
    ensures Pow(base, TableDigits(base)) == TableDivisor(base) >= 16 && TableDigits(base) >= 2
  {
    Squares(base);
  }

  /** The digits of one table entry. */
  method WriteEntry(buf: array<char>, off: nat, n: nat, n0: nat, v: nat, u: nat, base: nat, upper: bool, ghost b0: seq<char>) returns (u1: nat, n1: nat)
    requires (base == 2 || base == 8 || base == 10 || base == 16) && u >= TableDivisor(base) && NumDigits(u, base) <= n
    requires WrittenFrom(buf[..], off, n, n0, v, u, base, upper) && Around(buf[..], b0, off, n0)
    modifies buf
    ensures WrittenFrom(buf[..], off, n1, n0, v, u1, base, upper) && Around(buf[..], b0, off, n0)
    ensures n1 + TableDigits(base) == n && NumDigits(u1, base) + TableDigits(base) == NumDigits(u, base) && u1 < u
  {
    hide *;
    WrittenSize(buf[..], off, n, n0, v, u, base, upper);
    TableFacts(base);
    var divisor, nchars := TableDivisor(base), TableDigits(base);
    Fewer(u, base, nchars);
    FewerDigits(u, base, nchars);
    Quotient(u, divisor);
    var rem: nat := u % divisor;
    u1, n1 := u / divisor, n - nchars;
    ghost var b := buf[..];
    TableEntryIs(base, nchars, rem, upper);
    var s := TableEntry(base, nchars, rem, upper);
    Copy(buf, off + n1, s);
    CopyFacts(b, b0, buf[..], off + n1, s, off, n0);
    WrittenMore(b, buf[..], off, n, n0, v, u, base, upper, nchars);
  }

  /** Several digits at a time from a table. */
  method WriteByTable(buf: array<char>, off: nat, v: nat, n0: nat, base: nat, upper: bool, ghost exact: bool) returns (u: nat, n: nat)
    requires (base == 2 || base == 8 || base == 10 || base == 16) && off + n0 <= buf.Length && v < Pow(base, n0)
    requires (exact ==> n0 == NumDigits(v, base)) && NumDigits(v, base) <= n0
    modifies buf
    ensures WrittenFrom(buf[..], off, n, n0, v, u, base, upper) && Around(buf[..], old(buf[..]), off, n0)
    ensures NumDigits(u, base) <= n && (exact ==> n == NumDigits(u, base))
  {
    hide *;
    u, n := v, n0;
    WrittenStart(buf[..], off, n0, v, base, upper);
    while u >= TableDivisor(base)
      invariant WrittenFrom(buf[..], off, n, n0, v, u, base, upper) && Around(buf[..], old(buf[..]), off, n0)
      invariant NumDigits(u, base) <= n && (exact ==> n == NumDigits(u, base))
      decreases u
    {
      u, n := WriteEntry(buf, off, n, n0, v, u, base, upper, old(buf[..]));
    }
  }

  lemma OneChar(u: nat, base: nat, upper: bool)
    requires 2 <= base <= 36
    ensures Pow(base, 1) == base && Chars(Fixed(u % Pow(base, 1), base, 1), upper) == [DigitChar(u % base, upper)]
  {
    Pow1(base);
    Quotient(u, base);
    OneDigit(u % base, base);
  }

  lemma PutChar(b: seq<char>, at: nat, c: char)
    requires at < |b|
    ensures b[at := c] == b[..at] + [c] + b[at + 1..]
  {
  }

  /** One character in front of those that are written. */
  method WriteOne(buf: array<char>, off: nat, n: nat, n0: nat, ghost v: nat, ghost u: nat, ghost base: nat, ghost upper: bool, c: char, ghost b0: seq<char>)
    requires WrittenFrom(buf[..], off, n, n0, v, u, base, upper) && Around(buf[..], b0, off, n0)
    requires n >= 1 && 2 <= base <= 36 && c == DigitChar(u % base, upper)
    modifies buf
    ensures u / base >= 0 && WrittenFrom(buf[..], off, n - 1, n0, v, u / base, base, upper) && Around(buf[..], b0, off, n0)
  {
    hide *;
    WrittenSize(buf[..], off, n, n0, v, u, base, upper);
    OneChar(u, base, upper);
    ghost var b := buf[..];
    buf[off + n - 1] := c;
    assert buf[..] == b[off + n - 1 := c];
    PutChar(b, off + n - 1, c);
    CopyFacts(b, b0, buf[..], off + n - 1, [c], off, n0);
    WrittenMore(b, buf[..], off, n, n0, v, u, base, upper, 1);
  }

  /** The digits that are left, one at a time. */
  method WriteRest(buf: array<char>, off: nat, ghost v: nat, u0: nat, n1: nat, n0: nat, base: nat, upper: bool, ghost exact: bool, ghost b0: seq<char>) returns (n: nat)
    requires 2 <= base <= 36 && WrittenFrom(buf[..], off, n1, n0, v, u0, base, upper) && Around(buf[..], b0, off, n0)
    requires NumDigits(u0, base) <= n1 && (exact ==> n1 == NumDigits(u0, base))
    modifies buf
    ensures WrittenFrom(buf[..], off, n, n0, v, 0, base, upper) && Around(buf[..], b0, off, n0) && (exact ==> n == 0)
  {
    hide *;
    var u: nat := u0;
    n := n1;
    while true
      invariant WrittenFrom(buf[..], off, n, n0, v, u, base, upper) && Around(buf[..], b0, off, n0)
      invariant NumDigits(u, base) <= n && (exact ==> n == NumDigits(u, base))
      decreases u
    {
      NumPositive(u, base);
      WrittenSize(buf[..], off, n, n0, v, u, base, upper);
      WriteOne(buf, off, n, n0, v, u, base, upper, LastDigit(u, base, upper), b0);
      n := n - 1;
      if u < base {
        OneDigit(u, base);
        return;
      }
      MoreDigits(u, base);
      u := u / base;
    }
  }

  function LastDigit(u: nat, base: nat, upper: bool): (c: char)
    requires 2 <= base <= 36
    ensures c == DigitChar(u % base, upper)
  {
    DigitChar(u % base, upper)
  }

  /** Zeros in front of the digits. */
  method FillZeros(buf: array<char>, off: nat, ghost v: nat, n1: nat, n0: nat, ghost base: nat, ghost upper: bool, ghost b0: seq<char>)
    requires WrittenFrom(buf[..], off, n1, n0, v, 0, base, upper) && Around(buf[..], b0, off, n0)
    modifies buf
    ensures WrittenFrom(buf[..], off, 0, n0, v, 0, base, upper) && Around(buf[..], b0, off, n0)
  {
    hide *;
    var n: nat := n1;
    while n > 0
      invariant WrittenFrom(buf[..], off, n, n0, v, 0, base, upper) && Around(buf[..], b0, off, n0)
    {
      WrittenSize(buf[..], off, n, n0, v, 0, base, upper);
      ZeroDigit(base, upper);
      WriteOne(buf, off, n, n0, v, 0, base, upper, '0', b0);
      n := n - 1;
    }
  }

  /** One digit at a time, and zeros in front if there is room for more digits. */
  method WriteDigits(buf: array<char>, off: nat, ghost v: nat, u: nat, n1: nat, n0: nat, base: nat, upper: bool, leadingZeros: bool, ghost b0: seq<char>)
    requires 2 <= base <= 36 && off + n0 <= buf.Length && WrittenFrom(buf[..], off, n1, n0, v, u, base, upper) && Around(buf[..], b0, off, n0)
    requires NumDigits(u, base) <= n1 && (!leadingZeros ==> n1 == NumDigits(u, base))
    modifies buf
    ensures Around(buf[..], b0, off, n0) && buf[off..off + n0] == Chars(Fixed(v, base, n0), upper)
  {
    hide *;
    var n := n1;
    if n != 0 {
      n := WriteRest(buf, off, v, u, n1, n0, base, upper, !leadingZeros, b0);
    } else {
      NumPositive(u, base);
      assert false;
    }
    if leadingZeros {
      FillZeros(buf, off, v, n, n0, base, upper, b0);
    }
    AllWritten(buf[..], off, n0, v, base, upper);
  }

  lemma ZeroDigit(base: nat, upper: bool)
    requires base >= 2
    ensures 0 % base == 0 && 0 / base == 0 && DigitChar(0, upper) == '0'
  {
    DivUnique(0, base, 0, 0);
  }

  lemma NumPositive(u: nat, base: nat)
    requires base >= 2
    ensures NumDigits(u, base) >= 1
  {
  }

  lemma WrittenSize(b: seq<char>, off: nat, n: nat, n0: nat, v: nat, u: nat, base: nat, upper: bool)
    requires WrittenFrom(b, off, n, n0, v, u, base, upper)
    ensures n <= n0 && off + n0 <= |b| && 2 <= base <= 36
  {
  }

  lemma AllWritten(b: seq<char>, off: nat, n0: nat, v: nat, base: nat, upper: bool)
    requires WrittenFrom(b, off, 0, n0, v, 0, base, upper)
    ensures b[off..off + n0] == Chars(Fixed(v, base, n0), upper)
  {
  }

  // ---------------------------------------------------------------- the whole number

  datatype Sign = NoSign | Minus | Plus

  function SignChars(s: Sign): seq<char> {
    match s
    case NoSign => []
    case Minus => ['-']
    case Plus => ['+']
  }

  lemma RangeFacts(ty: IntType)
    requires TypeOk(ty)
    ensures Word(ty) > 0 && Range(ty) > 1 && Range(ty) % 2 == 0 && Range(ty) <= Word(ty) && Word(ty) % 2 == 0
  {
  }

  /** A value of the type, as an unsigned word and back. */
  lemma Wraps(v: int, ty: IntType)
    requires TypeOk(ty) && InType(v, ty)
    ensures v % Word(ty) == if v < 0 then v + Word(ty) else v
    ensures ty.signed ==> (v % Word(ty) >= Word(ty) / 2 <==> v < 0)
    ensures v < 0 ==> (0 - v) % Word(ty) == -v
    ensures Abs(v) % Range(ty) == Abs(v)
  {
    if v < 0 {
      DivUnique(v, Word(ty), -1, v + Word(ty));
      DivUnique(0 - v, Word(ty), 0, 0 - v);
    } else {
      DivUnique(v, Word(ty), 0, v);
    }
    DivUnique(Abs(v), Range(ty), 0, Abs(v));
  }

  lemma WidthIsEnough(v: int, ty: IntType, base: nat, leadingZeros: bool)
    requires TypeOk(ty) && InType(v, ty) && base >= 2
    ensures var n := NumDigits(Widest(v, ty, leadingZeros), base);
      Abs(v) <= Widest(v, ty, leadingZeros) && Abs(v) < Pow(base, n) && NumDigits(Abs(v), base) <= n
    ensures Widest(v, ty, leadingZeros) < Word(ty)
  {
    var m := Widest(v, ty, leadingZeros);
    DigitBounds(m, base);
    DigitBounds(Abs(v), base);
    var n, k := NumDigits(m, base), NumDigits(Abs(v), base);
    if n < k {
      PowMono(base, n, k - 1);
    }
  }

  /** Whether capital letters are used: only for bases that have letters. */
  function Capitals(base: nat, uppercase: bool): bool {
    uppercase && base != 2 && base != 8 && base != 10
  }

  lemma CapitalsDoNotMatter(v: nat, base: nat, n: nat, uppercase: bool)
    requires 2 <= base <= 36
    ensures Chars(Fixed(v, base, n), Capitals(base, uppercase)) == Chars(Fixed(v, base, n), uppercase)
  {
    if base <= 10 {
      SameAlphabet(Fixed(v, base, n), uppercase, Capitals(base, uppercase));
    }
  }

  /** Without room for the text the buffer stays as it is; otherwise it starts with the text, and the length is returned. */
  method ToChars(buf: array?<char>, bufsize: nat, val: int, ty: IntType, base: nat, leadingZeros: bool, signAlways: bool, uppercase: bool)
    returns (total: nat)
    requires TypeOk(ty) && InType(val, ty) && 2 <= base <= 36 && (buf != null ==> bufsize <= buf.Length)
    modifies buf
    ensures total == |Text(val, ty, base, leadingZeros, signAlways, uppercase)|
    ensures buf != null && total <= bufsize ==>
      buf[..total] == Text(val, ty, base, leadingZeros, signAlways, uppercase) && buf[total..] == old(buf[total..])
    ensures buf != null && total <= bufsize ==>
      Spelled(buf[..total], val, ty, base, NumDigits(Widest(val, ty, leadingZeros), base), signAlways, uppercase)
    ensures buf != null && total > bufsize ==> buf[..] == old(buf[..])
  {
    TextSpelled(val, ty, base, leadingZeros, signAlways, uppercase);
    Wraps(val, ty);
    RangeFacts(ty);
    WidthIsEnough(val, ty, base, leadingZeros);
    var word := Word(ty);
    var uval := val % word;
    var sign := NoSign;
    if ty.signed {
      var sval := if uval >= word / 2 then uval - word else uval;
      if sval < 0 {
        uval, sign := (0 - sval) % word, Minus;
      } else if signAlways {
        sign := Plus;
      }
    }
    var mask := Range(ty) - 1;
    uval := uval % (mask + 1);
    var tmp := uval;
    if leadingZeros {
      tmp := mask;
      if ty.signed {
        tmp := tmp / 2 + 1;
      }
    }
    assert uval == Abs(val) && SignChars(sign) == SignOf(val, ty, signAlways) && tmp == Widest(val, ty, leadingZeros);
    total := Finish(buf, bufsize, val, ty, base, leadingZeros, signAlways, uppercase, uval, tmp, sign);
  }

  lemma TextIs(val: int, ty: IntType, base: nat, leadingZeros: bool, signAlways: bool, uppercase: bool, sign: Sign, n: nat)
    requires TypeOk(ty) && 2 <= base <= 36 && SignChars(sign) == SignOf(val, ty, signAlways) && n == NumDigits(Widest(val, ty, leadingZeros), base)
    ensures Text(val, ty, base, leadingZeros, signAlways, uppercase) == SignChars(sign) + Chars(Fixed(Abs(val), base, n), uppercase)
    ensures |SignChars(sign)| == if sign.NoSign? then 0 else 1
  {
  }

  /** Counts the digits, and writes the sign and the digits. */
  method Finish(buf: array?<char>, bufsize: nat, ghost val: int, ty: IntType, base: nat, leadingZeros: bool, ghost signAlways: bool, uppercase: bool,
                uval: nat, tmp: nat, sign: Sign) returns (total: nat)
    requires TypeOk(ty) && InType(val, ty) && 2 <= base <= 36 && (buf != null ==> bufsize <= buf.Length)
    requires uval == Abs(val) && SignChars(sign) == SignOf(val, ty, signAlways) && tmp == Widest(val, ty, leadingZeros)
    modifies buf
    ensures total == |Text(val, ty, base, leadingZeros, signAlways, uppercase)|
    ensures buf != null && total <= bufsize ==>
      buf[..total] == Text(val, ty, base, leadingZeros, signAlways, uppercase) && buf[total..] == old(buf[total..])
    ensures buf != null && total > bufsize ==> buf[..] == old(buf[..])
  {
    hide *;
    WidthIsEnough(val, ty, base, leadingZeros);
    NotLeading(val, ty, leadingZeros);
    var n := CountDigits(tmp, ty, base);
    TextIs(val, ty, base, leadingZeros, signAlways, uppercase, sign, n);
    total := n + if sign.NoSign? then 0 else 1;
    if buf == null || bufsize < total {
      return;
    }
    var upper := Capitals(base, uppercase);
    CapitalsDoNotMatter(uval, base, n, uppercase);
    ghost var b0 := buf[..];
    var off := 0;
    if !sign.NoSign? {
      SignIs(sign);
      buf[0] := if sign.Minus? then '-' else '+';
      off := 1;
    }
    ghost var b1 := buf[..];
    SignWritten(b0, b1, sign, off);
    WriteNumber(buf, off, uval, n, base, upper, leadingZeros);
    Written(b0, b1, buf[..], SignChars(sign), Chars(Fixed(uval, base, n), upper), off, n);
  }

  lemma NotLeading(val: int, ty: IntType, leadingZeros: bool)
    requires TypeOk(ty)
    ensures !leadingZeros ==> Widest(val, ty, leadingZeros) == Abs(val)
  {
  }

  lemma SignIs(sign: Sign)
    requires !sign.NoSign?
    ensures SignChars(sign) == [if sign.Minus? then '-' else '+']
  {
  }

  lemma SignWritten(b0: seq<char>, b1: seq<char>, sign: Sign, off: nat)
    requires off == if sign.NoSign? then 0 else 1
    requires if sign.NoSign? then b1 == b0 else |b0| > 0 && b1 == b0[0 := if sign.Minus? then '-' else '+']
    ensures off <= |b1| == |b0| && b1[..off] == SignChars(sign) && b1[off..] == b0[off..]
  {
  }

  lemma Written(b0: seq<char>, b1: seq<char>, b: seq<char>, sign: seq<char>, digits: seq<char>, off: nat, n: nat)
    requires off <= |b1| == |b0| && b1[..off] == sign && b1[off..] == b0[off..] && Around(b, b1, off, n) && b[off..off + n] == digits
    ensures off + n <= |b| && b[..off + n] == sign + digits && b[off + n..] == b0[off + n..]
  {
    assert b[..off + n] == b[..off] + b[off..off + n];
    assert b0[off + n..] == b0[off..][n..] && b1[off + n..] == b1[off..][n..];
  }

  /** The digits, by table first if there is one. */
  method WriteNumber(buf: array<char>, off: nat, v: nat, n: nat, base: nat, upper: bool, leadingZeros: bool)
    requires 2 <= base <= 36 && off + n <= buf.Length && v < Pow(base, n) && NumDigits(v, base) <= n
    requires !leadingZeros ==> n == NumDigits(v, base)
    modifies buf
    ensures Around(buf[..], old(buf[..]), off, n) && buf[off..off + n] == Chars(Fixed(v, base, n), upper)
  {
    hide *;
    ghost var b0 := buf[..];
    WrittenStart(b0, off, n, v, base, upper);
    var u, n1 := v, n;
    if base == 2 || base == 8 || base == 10 || base == 16 {
      u, n1 := WriteByTable(buf, off, v, n, base, upper, !leadingZeros);
    }
    WriteDigits(buf, off, v, u, n1, n, base, upper, leadingZeros, b0);
  }
}
