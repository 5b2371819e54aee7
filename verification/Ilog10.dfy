/** The number of decimal digits, without a loop. */
module Ilog10 {
  import opened Digits

  const TABLE_32: seq<nat> := [
    0, 4294967286, 4294967286, 4294967286, 8589934492, 8589934492,
    8589934492, 12884900888, 12884900888, 12884900888, 17179859184, 17179859184,
    17179859184, 17179859184, 21474736480, 21474736480, 21474736480, 25768803776,
    25768803776, 25768803776, 30054771072, 30054771072, 30054771072, 30054771072,
    34259738368, 34259738368, 34259738368, 37654705664, 37654705664, 37654705664,
    38654705664, 38654705664
  ]

  const TABLE_64: seq<nat> := [
    9, 99, 999, 9999, 99999, 999999,
    9999999, 99999999, 999999999, 9999999999, 99999999999, 999999999999,
    9999999999999, 99999999999999, 999999999999999, 9999999999999999, 99999999999999999, 999999999999999999,
    9999999999999999999
  ]

  /** x has y + 1 decimal digits. */
  ghost predicate Decimals(x: nat, y: nat) {
    x < Pow(10, y + 1) && (y > 0 ==> Pow(10, y) <= x)
  }

  /** The powers of ten and of two that the tables are about. */
  lemma Tens()
    ensures Pow(10, 0) == 1
    ensures Pow(10, 1) == 10
    ensures Pow(10, 2) == 100
    ensures Pow(10, 3) == 1000
    ensures Pow(10, 4) == 10000
    ensures Pow(10, 5) == 100000
    ensures Pow(10, 6) == 1000000
    ensures Pow(10, 7) == 10000000
    ensures Pow(10, 8) == 100000000
    ensures Pow(10, 9) == 1000000000
    ensures Pow(10, 10) == 10000000000
    ensures Pow(10, 11) == 100000000000
    ensures Pow(10, 12) == 1000000000000
    ensures Pow(10, 13) == 10000000000000
    ensures Pow(10, 14) == 100000000000000
    ensures Pow(10, 15) == 1000000000000000
    ensures Pow(10, 16) == 10000000000000000
    ensures Pow(10, 17) == 100000000000000000
    ensures Pow(10, 18) == 1000000000000000000
    ensures Pow(10, 19) == 10000000000000000000
    ensures Pow(10, 20) == 100000000000000000000
  {
    assert Pow(10, 1) == Pow(10, 0) * 10;
    assert Pow(10, 2) == Pow(10, 1) * 10;
    assert Pow(10, 3) == Pow(10, 2) * 10;
    assert Pow(10, 4) == Pow(10, 3) * 10;
    assert Pow(10, 5) == Pow(10, 4) * 10;
    assert Pow(10, 6) == Pow(10, 5) * 10;
    assert Pow(10, 7) == Pow(10, 6) * 10;
    assert Pow(10, 8) == Pow(10, 7) * 10;
    assert Pow(10, 9) == Pow(10, 8) * 10;
    assert Pow(10, 10) == Pow(10, 9) * 10;
    assert Pow(10, 11) == Pow(10, 10) * 10;
    assert Pow(10, 12) == Pow(10, 11) * 10;
    assert Pow(10, 13) == Pow(10, 12) * 10;
    assert Pow(10, 14) == Pow(10, 13) * 10;
    assert Pow(10, 15) == Pow(10, 14) * 10;
    assert Pow(10, 16) == Pow(10, 15) * 10;
    assert Pow(10, 17) == Pow(10, 16) * 10;
    assert Pow(10, 18) == Pow(10, 17) * 10;
    assert Pow(10, 19) == Pow(10, 18) * 10;
    assert Pow(10, 20) == Pow(10, 19) * 10;
  }

  lemma TwosTo21()
    ensures Pow(2, 0) == 1
    ensures Pow(2, 1) == 2
    ensures Pow(2, 2) == 4
    ensures Pow(2, 3) == 8
    ensures Pow(2, 4) == 16
    ensures Pow(2, 5) == 32
    ensures Pow(2, 6) == 64
    ensures Pow(2, 7) == 128
    ensures Pow(2, 8) == 256
    ensures Pow(2, 9) == 512
    ensures Pow(2, 10) == 1024
    ensures Pow(2, 11) == 2048
    ensures Pow(2, 12) == 4096
    ensures Pow(2, 13) == 8192
    ensures Pow(2, 14) == 16384
    ensures Pow(2, 15) == 32768
    ensures Pow(2, 16) == 65536
    ensures Pow(2, 17) == 131072
    ensures Pow(2, 18) == 262144
    ensures Pow(2, 19) == 524288
    ensures Pow(2, 20) == 1048576
    ensures Pow(2, 21) == 2097152
  {
    assert Pow(2, 1) == Pow(2, 0) * 2;
    assert Pow(2, 2) == Pow(2, 1) * 2;
    assert Pow(2, 3) == Pow(2, 2) * 2;
    assert Pow(2, 4) == Pow(2, 3) * 2;
    assert Pow(2, 5) == Pow(2, 4) * 2;
    assert Pow(2, 6) == Pow(2, 5) * 2;
    assert Pow(2, 7) == Pow(2, 6) * 2;
    assert Pow(2, 8) == Pow(2, 7) * 2;
    assert Pow(2, 9) == Pow(2, 8) * 2;
    assert Pow(2, 10) == Pow(2, 9) * 2;
    assert Pow(2, 11) == Pow(2, 10) * 2;
    assert Pow(2, 12) == Pow(2, 11) * 2;
    assert Pow(2, 13) == Pow(2, 12) * 2;
    assert Pow(2, 14) == Pow(2, 13) * 2;
    assert Pow(2, 15) == Pow(2, 14) * 2;
    assert Pow(2, 16) == Pow(2, 15) * 2;
    assert Pow(2, 17) == Pow(2, 16) * 2;
    assert Pow(2, 18) == Pow(2, 17) * 2;
    assert Pow(2, 19) == Pow(2, 18) * 2;
    assert Pow(2, 20) == Pow(2, 19) * 2;
    assert Pow(2, 21) == Pow(2, 20) * 2;
  }

  lemma TwosTo43()
    ensures Pow(2, 21) == 2097152
    ensures Pow(2, 22) == 4194304
    ensures Pow(2, 23) == 8388608
    ensures Pow(2, 24) == 16777216
    ensures Pow(2, 25) == 33554432
    ensures Pow(2, 26) == 67108864
    ensures Pow(2, 27) == 134217728
    ensures Pow(2, 28) == 268435456
    ensures Pow(2, 29) == 536870912
    ensures Pow(2, 30) == 1073741824
    ensures Pow(2, 31) == 2147483648
    ensures Pow(2, 32) == 4294967296
    ensures Pow(2, 33) == 8589934592
    ensures Pow(2, 34) == 17179869184
    ensures Pow(2, 35) == 34359738368
    ensures Pow(2, 36) == 68719476736
    ensures Pow(2, 37) == 137438953472
    ensures Pow(2, 38) == 274877906944
    ensures Pow(2, 39) == 549755813888
    ensures Pow(2, 40) == 1099511627776
    ensures Pow(2, 41) == 2199023255552
    ensures Pow(2, 42) == 4398046511104
    ensures Pow(2, 43) == 8796093022208
  {
    TwosTo21();
    assert Pow(2, 22) == Pow(2, 21) * 2;
    assert Pow(2, 23) == Pow(2, 22) * 2;
    assert Pow(2, 24) == Pow(2, 23) * 2;
    assert Pow(2, 25) == Pow(2, 24) * 2;
    assert Pow(2, 26) == Pow(2, 25) * 2;
    assert Pow(2, 27) == Pow(2, 26) * 2;
    assert Pow(2, 28) == Pow(2, 27) * 2;
    assert Pow(2, 29) == Pow(2, 28) * 2;
    assert Pow(2, 30) == Pow(2, 29) * 2;
    assert Pow(2, 31) == Pow(2, 30) * 2;
    assert Pow(2, 32) == Pow(2, 31) * 2;
    assert Pow(2, 33) == Pow(2, 32) * 2;
    assert Pow(2, 34) == Pow(2, 33) * 2;
    assert Pow(2, 35) == Pow(2, 34) * 2;
    assert Pow(2, 36) == Pow(2, 35) * 2;
    assert Pow(2, 37) == Pow(2, 36) * 2;
    assert Pow(2, 38) == Pow(2, 37) * 2;
    assert Pow(2, 39) == Pow(2, 38) * 2;
    assert Pow(2, 40) == Pow(2, 39) * 2;
    assert Pow(2, 41) == Pow(2, 40) * 2;
    assert Pow(2, 42) == Pow(2, 41) * 2;
    assert Pow(2, 43) == Pow(2, 42) * 2;
  }

  lemma Twos()
    ensures Pow(2, 0) == 1
    ensures Pow(2, 1) == 2
    ensures Pow(2, 2) == 4
    ensures Pow(2, 3) == 8
    ensures Pow(2, 4) == 16
    ensures Pow(2, 5) == 32
    ensures Pow(2, 6) == 64
    ensures Pow(2, 7) == 128
    ensures Pow(2, 8) == 256
    ensures Pow(2, 9) == 512
    ensures Pow(2, 10) == 1024
    ensures Pow(2, 11) == 2048
    ensures Pow(2, 12) == 4096
    ensures Pow(2, 13) == 8192
    ensures Pow(2, 14) == 16384
    ensures Pow(2, 15) == 32768
    ensures Pow(2, 16) == 65536
    ensures Pow(2, 17) == 131072
    ensures Pow(2, 18) == 262144
    ensures Pow(2, 19) == 524288
    ensures Pow(2, 20) == 1048576
    ensures Pow(2, 21) == 2097152
    ensures Pow(2, 22) == 4194304
    ensures Pow(2, 23) == 8388608
    ensures Pow(2, 24) == 16777216
    ensures Pow(2, 25) == 33554432
    ensures Pow(2, 26) == 67108864
    ensures Pow(2, 27) == 134217728
    ensures Pow(2, 28) == 268435456
    ensures Pow(2, 29) == 536870912
    ensures Pow(2, 30) == 1073741824
    ensures Pow(2, 31) == 2147483648
    ensures Pow(2, 32) == 4294967296
    ensures Pow(2, 33) == 8589934592
    ensures Pow(2, 34) == 17179869184
    ensures Pow(2, 35) == 34359738368
    ensures Pow(2, 36) == 68719476736
    ensures Pow(2, 37) == 137438953472
    ensures Pow(2, 38) == 274877906944
    ensures Pow(2, 39) == 549755813888
    ensures Pow(2, 40) == 1099511627776
    ensures Pow(2, 41) == 2199023255552
    ensures Pow(2, 42) == 4398046511104
    ensures Pow(2, 43) == 8796093022208
    ensures Pow(2, 44) == 17592186044416
    ensures Pow(2, 45) == 35184372088832
    ensures Pow(2, 46) == 70368744177664
    ensures Pow(2, 47) == 140737488355328
    ensures Pow(2, 48) == 281474976710656
    ensures Pow(2, 49) == 562949953421312
    ensures Pow(2, 50) == 1125899906842624
    ensures Pow(2, 51) == 2251799813685248
    ensures Pow(2, 52) == 4503599627370496
    ensures Pow(2, 53) == 9007199254740992
    ensures Pow(2, 54) == 18014398509481984
    ensures Pow(2, 55) == 36028797018963968
    ensures Pow(2, 56) == 72057594037927936
    ensures Pow(2, 57) == 144115188075855872
    ensures Pow(2, 58) == 288230376151711744
    ensures Pow(2, 59) == 576460752303423488
    ensures Pow(2, 60) == 1152921504606846976
    ensures Pow(2, 61) == 2305843009213693952
    ensures Pow(2, 62) == 4611686018427387904
    ensures Pow(2, 63) == 9223372036854775808
    ensures Pow(2, 64) == 18446744073709551616
  {
    TwosTo21();
    TwosTo43();
    assert Pow(2, 44) == Pow(2, 43) * 2;
    assert Pow(2, 45) == Pow(2, 44) * 2;
    assert Pow(2, 46) == Pow(2, 45) * 2;
    assert Pow(2, 47) == Pow(2, 46) * 2;
    assert Pow(2, 48) == Pow(2, 47) * 2;
    assert Pow(2, 49) == Pow(2, 48) * 2;
    assert Pow(2, 50) == Pow(2, 49) * 2;
    assert Pow(2, 51) == Pow(2, 50) * 2;
    assert Pow(2, 52) == Pow(2, 51) * 2;
    assert Pow(2, 53) == Pow(2, 52) * 2;
    assert Pow(2, 54) == Pow(2, 53) * 2;
    assert Pow(2, 55) == Pow(2, 54) * 2;
    assert Pow(2, 56) == Pow(2, 55) * 2;
    assert Pow(2, 57) == Pow(2, 56) * 2;
    assert Pow(2, 58) == Pow(2, 57) * 2;
    assert Pow(2, 59) == Pow(2, 58) * 2;
    assert Pow(2, 60) == Pow(2, 59) * 2;
    assert Pow(2, 61) == Pow(2, 60) * 2;
    assert Pow(2, 62) == Pow(2, 61) * 2;
    assert Pow(2, 63) == Pow(2, 62) * 2;
    assert Pow(2, 64) == Pow(2, 63) * 2;
  }

  const WORD_32: int := 0x1_0000_0000

  function Ilog10Of32(x: nat, log: nat): (y: nat)
    requires log < 32
  {
    (x + TABLE_32[log]) / WORD_32
  }

  lemma Rows32From0(x: nat, l: nat)
    requires 0 <= l < 8 && x < Pow(2, l + 1) && (x > 0 ==> Pow(2, l) <= x) && (l > 0 ==> x > 0)
    ensures Decimals(x, Ilog10Of32(x, l))
  {
    Tens();
    Twos();
    if l == 0 {
      assert TABLE_32[0] == 0 && 0 <= x < 2;
    } else if l == 1 {
      assert TABLE_32[1] == 4294967286 && 2 <= x < 4;
    } else if l == 2 {
      assert TABLE_32[2] == 4294967286 && 4 <= x < 8;
    } else if l == 3 {
      assert TABLE_32[3] == 4294967286 && 8 <= x < 16;
    } else if l == 4 {
      assert TABLE_32[4] == 8589934492 && 16 <= x < 32;
    } else if l == 5 {
      assert TABLE_32[5] == 8589934492 && 32 <= x < 64;
    } else if l == 6 {
      assert TABLE_32[6] == 8589934492 && 64 <= x < 128;
    } else if l == 7 {
      assert TABLE_32[7] == 12884900888 && 128 <= x < 256;
    }
  }

  lemma Rows32From8(x: nat, l: nat)
    requires 8 <= l < 16 && x < Pow(2, l + 1) && (x > 0 ==> Pow(2, l) <= x) && (l > 0 ==> x > 0)
    ensures Decimals(x, Ilog10Of32(x, l))
  {
    Tens();
    Twos();
    if l == 8 {
      assert TABLE_32[8] == 12884900888 && 256 <= x < 512;
    } else if l == 9 {
      assert TABLE_32[9] == 12884900888 && 512 <= x < 1024;
    } else if l == 10 {
      assert TABLE_32[10] == 17179859184 && 1024 <= x < 2048;
    } else if l == 11 {
      assert TABLE_32[11] == 17179859184 && 2048 <= x < 4096;
    } else if l == 12 {
      assert TABLE_32[12] == 17179859184 && 4096 <= x < 8192;
    } else if l == 13 {
      assert TABLE_32[13] == 17179859184 && 8192 <= x < 16384;
    } else if l == 14 {
      assert TABLE_32[14] == 21474736480 && 16384 <= x < 32768;
    } else if l == 15 {
      assert TABLE_32[15] == 21474736480 && 32768 <= x < 65536;
    }
  }

  lemma Rows32From16(x: nat, l: nat)
    requires 16 <= l < 24 && x < Pow(2, l + 1) && (x > 0 ==> Pow(2, l) <= x) && (l > 0 ==> x > 0)
    ensures Decimals(x, Ilog10Of32(x, l))
  {
    Tens();
    Twos();
    if l == 16 {
      assert TABLE_32[16] == 21474736480 && 65536 <= x < 131072;
    } else if l == 17 {
      assert TABLE_32[17] == 25768803776 && 131072 <= x < 262144;
    } else if l == 18 {
      assert TABLE_32[18] == 25768803776 && 262144 <= x < 524288;
    } else if l == 19 {
      assert TABLE_32[19] == 25768803776 && 524288 <= x < 1048576;
    } else if l == 20 {
      assert TABLE_32[20] == 30054771072 && 1048576 <= x < 2097152;
    } else if l == 21 {
      assert TABLE_32[21] == 30054771072 && 2097152 <= x < 4194304;
    } else if l == 22 {
      assert TABLE_32[22] == 30054771072 && 4194304 <= x < 8388608;
    } else if l == 23 {
      assert TABLE_32[23] == 30054771072 && 8388608 <= x < 16777216;
    }
  }

  lemma Rows32From24(x: nat, l: nat)
    requires 24 <= l < 32 && x < Pow(2, l + 1) && (x > 0 ==> Pow(2, l) <= x) && (l > 0 ==> x > 0)
    ensures Decimals(x, Ilog10Of32(x, l))
  {
    Tens();
    Twos();
    if l == 24 {
      assert TABLE_32[24] == 34259738368 && 16777216 <= x < 33554432;
    } else if l == 25 {
      assert TABLE_32[25] == 34259738368 && 33554432 <= x < 67108864;
    } else if l == 26 {
      assert TABLE_32[26] == 34259738368 && 67108864 <= x < 134217728;
    } else if l == 27 {
      assert TABLE_32[27] == 37654705664 && 134217728 <= x < 268435456;
    } else if l == 28 {
      assert TABLE_32[28] == 37654705664 && 268435456 <= x < 536870912;
    } else if l == 29 {
      assert TABLE_32[29] == 37654705664 && 536870912 <= x < 1073741824;
    } else if l == 30 {
      assert TABLE_32[30] == 38654705664 && 1073741824 <= x < 2147483648;
    } else if l == 31 {
      assert TABLE_32[31] == 38654705664 && 2147483648 <= x < 4294967296;
    }
  }

  /** The 32-bit version: one addition and one table entry. */
  lemma Ilog10Of32Is(x: nat)
    requires x < WORD_32
    ensures Log2(x) < 32 && NumDigits(x, 10) == Ilog10Of32(x, Log2(x)) + 1
  {
    Log2Bounds(x);
    Log2Positive(x);
    var l := Log2(x);
    assert l < 32 by {
      Twos();
      if l >= 32 {
        PowMono(2, 32, l);
      }
    }
    if l < 8 {
      Rows32From0(x, l);
    } else if l < 16 {
      Rows32From8(x, l);
    } else if l < 24 {
      Rows32From16(x, l);
    } else {
      Rows32From24(x, l);
    }
    DigitsUnique(x, 10, Ilog10Of32(x, l) + 1);
  }

  // ---------------------------------------------------------------- 64 bits

  function Guess64(log: nat): (y: nat)
    requires log < 64
    ensures y < 19
  {
    19 * log / 64
  }

  function Ilog10Of64(x: nat, log: nat): (y: nat)
    requires log < 64
  {
    Guess64(log) + if x > TABLE_64[Guess64(log)] then 1 else 0
  }

  lemma Rows64From0(x: nat, l: nat)
    requires 0 <= l < 8 && x < Pow(2, l + 1) && (x > 0 ==> Pow(2, l) <= x) && (l > 0 ==> x > 0)
    ensures Decimals(x, Ilog10Of64(x, l))
  {
    Tens();
    Twos();
    if l == 0 {
      assert Guess64(0) == 0 && TABLE_64[0] == 9 && 0 <= x < 2;
    } else if l == 1 {
      assert Guess64(1) == 0 && TABLE_64[0] == 9 && 2 <= x < 4;
    } else if l == 2 {
      assert Guess64(2) == 0 && TABLE_64[0] == 9 && 4 <= x < 8;
    } else if l == 3 {
      assert Guess64(3) == 0 && TABLE_64[0] == 9 && 8 <= x < 16;
    } else if l == 4 {
      assert Guess64(4) == 1 && TABLE_64[1] == 99 && 16 <= x < 32;
    } else if l == 5 {
      assert Guess64(5) == 1 && TABLE_64[1] == 99 && 32 <= x < 64;
    } else if l == 6 {
      assert Guess64(6) == 1 && TABLE_64[1] == 99 && 64 <= x < 128;
    } else if l == 7 {
      assert Guess64(7) == 2 && TABLE_64[2] == 999 && 128 <= x < 256;
    }
  }

  lemma Rows64From8(x: nat, l: nat)
    requires 8 <= l < 16 && x < Pow(2, l + 1) && (x > 0 ==> Pow(2, l) <= x) && (l > 0 ==> x > 0)
    ensures Decimals(x, Ilog10Of64(x, l))
  {
    Tens();
    Twos();
    if l == 8 {
      assert Guess64(8) == 2 && TABLE_64[2] == 999 && 256 <= x < 512;
    } else if l == 9 {
      assert Guess64(9) == 2 && TABLE_64[2] == 999 && 512 <= x < 1024;
    } else if l == 10 {
      assert Guess64(10) == 2 && TABLE_64[2] == 999 && 1024 <= x < 2048;
    } else if l == 11 {
      assert Guess64(11) == 3 && TABLE_64[3] == 9999 && 2048 <= x < 4096;
    } else if l == 12 {
      assert Guess64(12) == 3 && TABLE_64[3] == 9999 && 4096 <= x < 8192;
    } else if l == 13 {
      assert Guess64(13) == 3 && TABLE_64[3] == 9999 && 8192 <= x < 16384;
    } else if l == 14 {
      assert Guess64(14) == 4 && TABLE_64[4] == 99999 && 16384 <= x < 32768;
    } else if l == 15 {
      assert Guess64(15) == 4 && TABLE_64[4] == 99999 && 32768 <= x < 65536;
    }
  }

  lemma Rows64From16(x: nat, l: nat)
    requires 16 <= l < 24 && x < Pow(2, l + 1) && (x > 0 ==> Pow(2, l) <= x) && (l > 0 ==> x > 0)
    ensures Decimals(x, Ilog10Of64(x, l))
  {
    Tens();
    Twos();
    if l == 16 {
      assert Guess64(16) == 4 && TABLE_64[4] == 99999 && 65536 <= x < 131072;
    } else if l == 17 {
      assert Guess64(17) == 5 && TABLE_64[5] == 999999 && 131072 <= x < 262144;
    } else if l == 18 {
      assert Guess64(18) == 5 && TABLE_64[5] == 999999 && 262144 <= x < 524288;
    } else if l == 19 {
      assert Guess64(19) == 5 && TABLE_64[5] == 999999 && 524288 <= x < 1048576;
    } else if l == 20 {
      assert Guess64(20) == 5 && TABLE_64[5] == 999999 && 1048576 <= x < 2097152;
    } else if l == 21 {
      assert Guess64(21) == 6 && TABLE_64[6] == 9999999 && 2097152 <= x < 4194304;
    } else if l == 22 {
      assert Guess64(22) == 6 && TABLE_64[6] == 9999999 && 4194304 <= x < 8388608;
    } else if l == 23 {
      assert Guess64(23) == 6 && TABLE_64[6] == 9999999 && 8388608 <= x < 16777216;
    }
  }

  lemma Rows64From24(x: nat, l: nat)
    requires 24 <= l < 32 && x < Pow(2, l + 1) && (x > 0 ==> Pow(2, l) <= x) && (l > 0 ==> x > 0)
    ensures Decimals(x, Ilog10Of64(x, l))
  {
    Tens();
    Twos();
    if l == 24 {
      assert Guess64(24) == 7 && TABLE_64[7] == 99999999 && 16777216 <= x < 33554432;
    } else if l == 25 {
      assert Guess64(25) == 7 && TABLE_64[7] == 99999999 && 33554432 <= x < 67108864;
    } else if l == 26 {
      assert Guess64(26) == 7 && TABLE_64[7] == 99999999 && 67108864 <= x < 134217728;
    } else if l == 27 {
      assert Guess64(27) == 8 && TABLE_64[8] == 999999999 && 134217728 <= x < 268435456;
    } else if l == 28 {
      assert Guess64(28) == 8 && TABLE_64[8] == 999999999 && 268435456 <= x < 536870912;
    } else if l == 29 {
      assert Guess64(29) == 8 && TABLE_64[8] == 999999999 && 536870912 <= x < 1073741824;
    } else if l == 30 {
      assert Guess64(30) == 8 && TABLE_64[8] == 999999999 && 1073741824 <= x < 2147483648;
    } else if l == 31 {
      assert Guess64(31) == 9 && TABLE_64[9] == 9999999999 && 2147483648 <= x < 4294967296;
    }
  }

  lemma Rows64From32(x: nat, l: nat)
    requires 32 <= l < 40 && x < Pow(2, l + 1) && (x > 0 ==> Pow(2, l) <= x) && (l > 0 ==> x > 0)
    ensures Decimals(x, Ilog10Of64(x, l))
  {
    Tens();
    Twos();
    if l == 32 {
      assert Guess64(32) == 9 && TABLE_64[9] == 9999999999 && 4294967296 <= x < 8589934592;
    } else if l == 33 {
      assert Guess64(33) == 9 && TABLE_64[9] == 9999999999 && 8589934592 <= x < 17179869184;
    } else if l == 34 {
      assert Guess64(34) == 10 && TABLE_64[10] == 99999999999 && 17179869184 <= x < 34359738368;
    } else if l == 35 {
      assert Guess64(35) == 10 && TABLE_64[10] == 99999999999 && 34359738368 <= x < 68719476736;
    } else if l == 36 {
      assert Guess64(36) == 10 && TABLE_64[10] == 99999999999 && 68719476736 <= x < 137438953472;
    } else if l == 37 {
      assert Guess64(37) == 10 && TABLE_64[10] == 99999999999 && 137438953472 <= x < 274877906944;
    } else if l == 38 {
      assert Guess64(38) == 11 && TABLE_64[11] == 999999999999 && 274877906944 <= x < 549755813888;
    } else if l == 39 {
      assert Guess64(39) == 11 && TABLE_64[11] == 999999999999 && 549755813888 <= x < 1099511627776;
    }
  }

  lemma Rows64From40(x: nat, l: nat)
    requires 40 <= l < 48 && x < Pow(2, l + 1) && (x > 0 ==> Pow(2, l) <= x) && (l > 0 ==> x > 0)
    ensures Decimals(x, Ilog10Of64(x, l))
  {
    Tens();
    Twos();
    if l == 40 {
      assert Guess64(40) == 11 && TABLE_64[11] == 999999999999 && 1099511627776 <= x < 2199023255552;
    } else if l == 41 {
      assert Guess64(41) == 12 && TABLE_64[12] == 9999999999999 && 2199023255552 <= x < 4398046511104;
    } else if l == 42 {
      assert Guess64(42) == 12 && TABLE_64[12] == 9999999999999 && 4398046511104 <= x < 8796093022208;
    } else if l == 43 {
      assert Guess64(43) == 12 && TABLE_64[12] == 9999999999999 && 8796093022208 <= x < 17592186044416;
    } else if l == 44 {
      assert Guess64(44) == 13 && TABLE_64[13] == 99999999999999 && 17592186044416 <= x < 35184372088832;
    } else if l == 45 {
      assert Guess64(45) == 13 && TABLE_64[13] == 99999999999999 && 35184372088832 <= x < 70368744177664;
    } else if l == 46 {
      assert Guess64(46) == 13 && TABLE_64[13] == 99999999999999 && 70368744177664 <= x < 140737488355328;
    } else if l == 47 {
      assert Guess64(47) == 13 && TABLE_64[13] == 99999999999999 && 140737488355328 <= x < 281474976710656;
    }
  }

  lemma Rows64From48(x: nat, l: nat)
    requires 48 <= l < 56 && x < Pow(2, l + 1) && (x > 0 ==> Pow(2, l) <= x) && (l > 0 ==> x > 0)
    ensures Decimals(x, Ilog10Of64(x, l))
  {
    Tens();
    Twos();
    if l == 48 {
      assert Guess64(48) == 14 && TABLE_64[14] == 999999999999999 && 281474976710656 <= x < 562949953421312;
    } else if l == 49 {
      assert Guess64(49) == 14 && TABLE_64[14] == 999999999999999 && 562949953421312 <= x < 1125899906842624;
    } else if l == 50 {
      assert Guess64(50) == 14 && TABLE_64[14] == 999999999999999 && 1125899906842624 <= x < 2251799813685248;
    } else if l == 51 {
      assert Guess64(51) == 15 && TABLE_64[15] == 9999999999999999 && 2251799813685248 <= x < 4503599627370496;
    } else if l == 52 {
      assert Guess64(52) == 15 && TABLE_64[15] == 9999999999999999 && 4503599627370496 <= x < 9007199254740992;
    } else if l == 53 {
      assert Guess64(53) == 15 && TABLE_64[15] == 9999999999999999 && 9007199254740992 <= x < 18014398509481984;
    } else if l == 54 {
      assert Guess64(54) == 16 && TABLE_64[16] == 99999999999999999 && 18014398509481984 <= x < 36028797018963968;
    } else if l == 55 {
      assert Guess64(55) == 16 && TABLE_64[16] == 99999999999999999 && 36028797018963968 <= x < 72057594037927936;
    }
  }

  lemma Rows64From56(x: nat, l: nat)
    requires 56 <= l < 64 && x < Pow(2, l + 1) && (x > 0 ==> Pow(2, l) <= x) && (l > 0 ==> x > 0)
    ensures Decimals(x, Ilog10Of64(x, l))
  {
    Tens();
    Twos();
    if l == 56 {
      assert Guess64(56) == 16 && TABLE_64[16] == 99999999999999999 && 72057594037927936 <= x < 144115188075855872;
    } else if l == 57 {
      assert Guess64(57) == 16 && TABLE_64[16] == 99999999999999999 && 144115188075855872 <= x < 288230376151711744;
    } else if l == 58 {
      assert Guess64(58) == 17 && TABLE_64[17] == 999999999999999999 && 288230376151711744 <= x < 576460752303423488;
    } else if l == 59 {
      assert Guess64(59) == 17 && TABLE_64[17] == 999999999999999999 && 576460752303423488 <= x < 1152921504606846976;
    } else if l == 60 {
      assert Guess64(60) == 17 && TABLE_64[17] == 999999999999999999 && 1152921504606846976 <= x < 2305843009213693952;
    } else if l == 61 {
      assert Guess64(61) == 18 && TABLE_64[18] == 9999999999999999999 && 2305843009213693952 <= x < 4611686018427387904;
    } else if l == 62 {
      assert Guess64(62) == 18 && TABLE_64[18] == 9999999999999999999 && 4611686018427387904 <= x < 9223372036854775808;
    } else if l == 63 {
      assert Guess64(63) == 18 && TABLE_64[18] == 9999999999999999999 && 9223372036854775808 <= x < 18446744073709551616;
    }
  }

  /** The 64-bit version: an estimate that is corrected by at most one. */
  lemma Ilog10Of64Is(x: nat)
    requires x < WORD_32 * WORD_32
    ensures Log2(x) < 64 && NumDigits(x, 10) == Ilog10Of64(x, Log2(x)) + 1
  {
    Log2Bounds(x);
    Log2Positive(x);
    var l := Log2(x);
    assert l < 64 by {
      Twos();
      if l >= 64 {
        PowMono(2, 64, l);
      }
    }
    if l < 8 {
      Rows64From0(x, l);
    } else if l < 16 {
      Rows64From8(x, l);
    } else if l < 24 {
      Rows64From16(x, l);
    } else if l < 32 {
      Rows64From24(x, l);
    } else if l < 40 {
      Rows64From32(x, l);
    } else if l < 48 {
      Rows64From40(x, l);
    } else if l < 56 {
      Rows64From48(x, l);
    } else {
      Rows64From56(x, l);
    }
    DigitsUnique(x, 10, Ilog10Of64(x, l) + 1);
  }
}
