/**
 util.rs: the bit tricks of the skip-list arithmetic on 32-bit words, written
 with div and mod, and what they compute.
 */
module Util {
  import opened Arith

  const WORD := 0x1_0000_0000

  function Bit(c: bool): nat { if c then 1 else 0 }

  function And(a: nat, b: nat): nat {
    if a == 0 || b == 0 then 0 else 2 * And(a / 2, b / 2) + Bit(a % 2 == 1 && b % 2 == 1)
  }

  // ----- reference definitions -----

  function Pow2(k: nat): (p: nat)
    ensures p > 0
  {
    if k == 0 then 1 else 2 * Pow2(k - 1)
  }

  // floor(log2(n))
  function Log2(n: nat): nat
    requires n > 0
  {
    if n == 1 then 0 else Log2(n / 2) + 1
  }

  // trailing zero bits
  function Trailing(n: nat): nat
    requires n > 0
  {
    if n % 2 == 1 then 0 else Trailing(n / 2) + 1
  }

  // one bits
  function Ones(n: nat): nat {
    if n == 0 then 0 else n % 2 + Ones(n / 2)
  }

  lemma {:induction false} Log2Bounds(n: nat)
    requires n > 0
    ensures Pow2(Log2(n)) <= n < Pow2(Log2(n) + 1)
  {
    if n > 1 {
      Log2Bounds(n / 2);
    }
  }

  lemma {:induction false} Pow2Grows(j: nat, k: nat)
    requires j <= k
    ensures Pow2(j) <= Pow2(k)
    decreases k
  {
    if j < k {
      Pow2Grows(j, k - 1);
    }
  }

  lemma Log2Unique(n: nat, k: nat)
    requires n > 0 && Pow2(k) <= n < Pow2(k + 1)
    ensures Log2(n) == k
  {
    Log2Bounds(n);
    if Log2(n) < k {
      Pow2Grows(Log2(n) + 1, k);
    } else if Log2(n) > k {
      Pow2Grows(k + 1, Log2(n));
    }
  }

  // ----- lfs_npw2 -----

  function Shr(a: nat, k: nat): nat { DivNat(a, Pow2(k)); a / Pow2(k) }

  // The ors join disjoint bits, so they are sums.
  function Npw2(a0: nat): nat
    requires a0 < WORD
  {
    var a := (a0 + WORD - 1) % WORD;
    var s4 := Bit(a > 0xffff);
    var a := Shr(a, 16 * s4);
    var s3 := Bit(a > 0xff);
    var a := Shr(a, 8 * s3);
    var s2 := Bit(a > 0xf);
    var a := Shr(a, 4 * s2);
    var s1 := Bit(a > 0x3);
    var a := Shr(a, 2 * s1);
    16 * s4 + 8 * s3 + 4 * s2 + 2 * s1 + a / 2 + 1
  }

  lemma HalfShift(a: nat, q: nat)
    requires q > 0
    ensures a / (2 * q) == a / 2 / q
    ensures a >= 2 * q ==> a / 2 >= q
  {
    DivModOf(a / 2, q);
    var d, r := a / 2 / q, a / 2 % q;
    MulSub(q, 2 * d, d);
    assert q * (2 * d) == (2 * q) * d;
    DivModUnique(a, 2 * q, d, 2 * r + a % 2);
  }

  lemma {:induction false} Log2Shift(a: nat, k: nat, p: nat)
    requires p == Pow2(k) && a >= p
    ensures a / p > 0 && Log2(a) == Log2(a / p) + k
    decreases k
  {
    if k > 0 {
      var q := Pow2(k - 1);
      assert p == 2 * q;
      HalfShift(a, q);
      Log2Shift(a / 2, k - 1, q);
    }
  }

  // one round: what is shifted out is added to the logarithm
  lemma Round(a: nat, k: nat, p: nat)
    requires a > 0 && p == Pow2(k)
    ensures var b := Shr(a, k * Bit(a > p - 1));
            0 < b && Log2(a) == k * Bit(a > p - 1) + Log2(b) && (a < p * p ==> b < p)
  {
    if a >= p {
      Log2Shift(a, k, p);
      DivModOf(a, p);
      if a / p >= p {
        MulMonotone(p, p, a / p);
      }
    } else {
      assert Pow2(0) == 1;
      assert k * 0 == 0;
    }
  }

  // For every argument but 0 and 1: the exponent of the smallest power of two
  // that is no smaller. lfs_npw2(1) is 1, although 2^0 is already enough.
  lemma Npw2IsLog(d: nat)
    requires 0 < d < WORD - 1
    ensures Npw2(d + 1) == Log2(d) + 1
  {
    hide Shr, Log2, Pow2, Bit;
    FirstRounds(d);
    LastRounds(Shr(Shr(d, 16 * Bit(d > 0xffff)), 8 * Bit(Shr(d, 16 * Bit(d > 0xffff)) > 0xff)));
  }

  lemma FirstRounds(d: nat)
    requires 0 < d < WORD
    ensures var s4 := Bit(d > 0xffff);
            var a := Shr(d, 16 * s4);
            var s3 := Bit(a > 0xff);
            var b := Shr(a, 8 * s3);
            0 < b < 0x100 && Log2(d) == 16 * s4 + 8 * s3 + Log2(b)
  {
    hide Shr, Log2, Pow2, Bit;
    PowersOfTwo();
    Round(d, 16, 0x1_0000);
    Round(Shr(d, 16 * Bit(d > 0xffff)), 8, 0x100);
  }

  lemma LastRounds(d: nat)
    requires 0 < d < 0x100
    ensures var s2 := Bit(d > 0xf);
            var a := Shr(d, 4 * s2);
            var s1 := Bit(a > 0x3);
            var b := Shr(a, 2 * s1);
            Log2(d) == 4 * s2 + 2 * s1 + b / 2
  {
    hide Shr, Log2, Pow2, Bit;
    PowersOfTwo();
    Round(d, 4, 0x10);
    Round(Shr(d, 4 * Bit(d > 0xf)), 2, 4);
    LogOfTwoBits(Shr(Shr(d, 4 * Bit(d > 0xf)), 2 * Bit(Shr(d, 4 * Bit(d > 0xf)) > 3)));
  }

  lemma LogOfTwoBits(a: nat)
    requires 0 < a < 4
    ensures Log2(a) == a / 2
  {}

  lemma PowersOfTwo()
    ensures Pow2(1) == 2 && Pow2(2) == 4 && Pow2(3) == 8 && Pow2(4) == 16
    ensures Pow2(8) == 0x100 && Pow2(16) == 0x1_0000 && Pow2(26) == 0x400_0000 && Pow2(32) == WORD
  {
    assert Pow2(4) == 16;
    assert Pow2(8) == 0x100;
    assert Pow2(12) == 0x1000;
    assert Pow2(16) == 0x1_0000;
    assert Pow2(20) == 0x10_0000;
    assert Pow2(24) == 0x100_0000;
    assert Pow2(28) == 0x1000_0000;
  }

  lemma Npw2IsSmallest(a: nat)
    requires 2 <= a < WORD
    ensures Pow2(Npw2(a) - 1) < a <= Pow2(Npw2(a))
  {
    Npw2IsLog(a - 1);
    Log2Bounds(a - 1);
  }

  lemma Npw2Corners()
    ensures Npw2(1) == 1 && Npw2(0) == 32
  {
    PowersOfTwo();
    assert Shr(0xffff_ffff, 16) == 0xffff && Shr(0xffff, 8) == 0xff;
    assert Shr(0xff, 4) == 0xf && Shr(0xf, 2) == 3;
    assert Shr(0, 0) == 0;
  }

  // ----- lfs_ctz -----

  function Negate(a: nat): (n: nat)
    requires a < WORD
    ensures n < WORD
  {
    (WORD - a) % WORD
  }

  function Ctz(a: nat): int
    requires 0 < a < WORD
  {
    var low := And(a, Negate(a));
    Npw2((low + 1) % WORD) - 1
  }

  // x & (2^n - 1 - x) == 0, and x & (2^n - x) is the lowest one bit of x
  lemma {:induction false} AndComplement(x: nat, n: nat)
    requires x < Pow2(n)
    ensures And(x, Pow2(n) - 1 - x) == 0
  {
    if n > 0 {
      AndComplement(x / 2, n - 1);
      var y := Pow2(n) - 1 - x;
      assert y / 2 == Pow2(n - 1) - 1 - x / 2;
    }
  }

  lemma {:induction false} LowestBit(x: nat, n: nat)
    requires 0 < x < Pow2(n)
    ensures Trailing(x) < n
    ensures And(x, Pow2(n) - x) == Pow2(Trailing(x))
  {
    var y := Pow2(n) - x;
    if x % 2 == 1 {
      AndComplement(x / 2, n - 1);
      assert y / 2 == Pow2(n - 1) - 1 - x / 2 && y % 2 == 1;
    } else {
      LowestBit(x / 2, n - 1);
      assert y / 2 == Pow2(n - 1) - x / 2 && y % 2 == 0;
    }
  }

  lemma Log2OfPow2(k: nat)
    ensures Log2(Pow2(k)) == k
  {
    Log2Unique(Pow2(k), k);
  }

  lemma CtzIsTrailing(a: nat)
    requires 0 < a < WORD
    ensures Ctz(a) == Trailing(a) < 32
  {
    hide And, Npw2, Trailing, Log2;
    PowersOfTwo();
    LowestBit(a, 32);
    Pow2Grows(Trailing(a), 31);
    assert Pow2(32) == 2 * Pow2(31);
    Npw2IsLog(Pow2(Trailing(a)));
    Log2OfPow2(Trailing(a));
  }

  // ----- lfs_popc -----

  function Popc(a: nat): nat
    requires a < WORD
  {
    var a := PairCounts(a, 0x5555_5555) % WORD;
    var a := Nibbles(a, 0x3333_3333) % WORD;
    And((a + a / 16) % WORD, 0x0f0f_0f0f) * 0x0101_0101 % WORD / 0x100_0000
  }

  // Stage 1: each pair of bits becomes its own count.
  function PairCounts(a: nat, m: nat): int { a - And(a / 2, m) }

  // Stages 2 and 3 add neighbouring digits; no sum overflows its digit.
  function Nibbles(x: nat, m: nat): nat { And(x, m) + And(x / 4, m) }

  function Bytes(y: nat, m: nat): nat { And(y + y / 16, m) }

  // Every base-b digit of x is at most c; the sum of the base-b digits.
  ghost predicate Digits(b: nat, c: nat, x: nat)
    requires b > 1
  {
    x == 0 || (x % b <= c && x / b < x && Digits(b, c, x / b))
  }

  ghost function Sum(b: nat, x: nat): nat
    requires b > 1
  {
    if x == 0 then 0 else if x / b < x then x % b + Sum(b, x / b) else 0
  }

  // k digits d in base b, and the bound b^k
  function Mask(b: nat, d: nat, k: nat): nat {
    if k == 0 then 0 else b * Mask(b, d, k - 1) + d
  }

  function Pow(b: nat, k: nat): nat {
    if k == 0 then 1 else b * Pow(b, k - 1)
  }

  lemma And4(q: nat, i: nat, m: nat, j: nat)
    requires i < 4 && j < 4
    ensures And(4 * q + i, 4 * m + j) == 4 * And(q, m) + And(i, j)
  {
    var a, b := 4 * q + i, 4 * m + j;
    assert a / 2 == 2 * q + i / 2 && b / 2 == 2 * m + j / 2;
    assert a / 2 / 2 == q && b / 2 / 2 == m;
    assert i / 2 / 2 == 0;
  }

  lemma And16(q: nat, i: nat, m: nat, j: nat)
    requires i < 16 && j < 16
    ensures And(16 * q + i, 16 * m + j) == 16 * And(q, m) + And(i, j)
  {
    hide And;
    And4(4 * q + i / 4, i % 4, 4 * m + j / 4, j % 4);
    And4(q, i / 4, m, j / 4);
    And4(i / 4, i % 4, j / 4, j % 4);
  }

  lemma And256(q: nat, i: nat, m: nat, j: nat)
    requires i < 256 && j < 256
    ensures And(256 * q + i, 256 * m + j) == 256 * And(q, m) + And(i, j)
  {
    hide And;
    And16(16 * q + i / 16, i % 16, 16 * m + j / 16, j % 16);
    And16(q, i / 16, m, j / 16);
    And16(i / 16, i % 16, j / 16, j % 16);
  }

  lemma AndThree(i: nat)
    requires i < 4
    ensures And(i, 3) == i
  {}

  lemma AndFifteen(i: nat)
    requires i < 16
    ensures And(i, 15) == i
  {
    And4(i / 4, i % 4, 3, 3);
    AndThree(i / 4);
    AndThree(i % 4);
  }

  // x has k base-b digits, none above c, and they add up to s.
  ghost predicate Reads(b: nat, c: nat, x: int, k: nat, s: nat)
    requires b > 1
  {
    0 <= x < Pow(b, k) && Digits(b, c, x) && Sum(b, x) == s
  }

  lemma ReadsNone(b: nat, c: nat)
    requires b > 1
    ensures Reads(b, c, 0, 0, 0)
  {}

  lemma ReadsMore(b: nat, c: nat, q: int, k: nat, s: nat, d: nat)
    requires 1 < b && d <= c < b && k > 0 && Reads(b, c, q, k - 1, s)
    ensures Reads(b, c, b * q + d, k, s + d)
  {
    hide Digits, Sum, Pow;
    DigitStep(b, c, q, d);
    BelowPow(b, q, d, Pow(b, k - 1));
    PowSucc(b, k);
  }

  lemma PowSucc(b: nat, k: nat)
    requires k > 0
    ensures Pow(b, k) == b * Pow(b, k - 1)
  {}

  lemma BelowPow(b: nat, q: nat, d: nat, p: nat)
    requires 1 < b && d < b && q < p
    ensures 0 <= b * q + d < b * p
  {
    MulMonotone(b, q + 1, p);
    assert b * (q + 1) == b * q + b;
  }

  lemma Halve(b: nat, a: nat, k: nat)
    requires 1 < b && a < Pow(b, k)
    ensures k == 0 ==> a == 0
    ensures k > 0 ==> 0 <= a / b < Pow(b, k - 1)
  {
    if k > 0 {
      DivModOf(a, b);
      DivNat(a, b);
      if a / b >= Pow(b, k - 1) { MulMonotone(b, Pow(b, k - 1), a / b); }
    }
  }

  lemma {:induction false} Pairs(a: nat, k: nat)
    requires a < Pow(4, k)
    ensures Reads(4, 2, PairCounts(a, Mask(4, 1, k)), k, Ones(a))
  {
    hide Reads, Digits, Sum, Pow;
    Halve(4, a, k);
    if k == 0 {
      ReadsNone(4, 2);
    } else {
      hide PairCounts, Ones, Mask;
      var q, h := a / 4, a % 4;
      var m := Mask(4, 1, k - 1);
      Pairs(q, k - 1);
      PairStep(q, h, m);
      OnesPair(q, h);
      ReadsMore(4, 2, PairCounts(q, m), k, Ones(q), h - h / 2);
      MaskStep(4, 1, k);
    }
  }

  lemma PairStep(q: nat, h: nat, m: nat)
    requires h < 4
    ensures PairCounts(4 * q + h, 4 * m + 1) == 4 * PairCounts(q, m) + (h - h / 2)
  {
    And4(q / 2, 2 * (q % 2) + h / 2, m, 1);
    assert And(2 * (q % 2) + h / 2, 1) == h / 2;
    assert (4 * q + h) / 2 == 4 * (q / 2) + (2 * (q % 2) + h / 2);
  }

  lemma OnesPair(q: nat, h: nat)
    requires h < 4
    ensures Ones(4 * q + h) == Ones(q) + (h - h / 2)
  {
    var a := 4 * q + h;
    assert a / 2 == 2 * q + h / 2 && a / 2 / 2 == q;
  }

  lemma DigitStep(b: nat, c: nat, q: nat, d: nat)
    requires 1 < b && d <= c < b && Digits(b, c, q)
    ensures Digits(b, c, b * q + d) && Sum(b, b * q + d) == d + Sum(b, q)
  {
    DivModUnique(b * q + d, b, q, d);
    MulMonotone(q, 2, b);
    assert b * q == q * b;
    FirstDigit(b, c, b * q + d, q, d);
  }

  lemma FirstDigit(b: nat, c: nat, x: nat, q: nat, d: nat)
    requires 1 < b && d <= c && x / b == q && x % b == d && Digits(b, c, q)
    requires x >= 2 * q + d
    ensures Digits(b, c, x) && Sum(b, x) == d + Sum(b, q)
  {}

  lemma {:induction false} SumNibbles(x: nat, k: nat)
    requires x < Pow(16, k) && Digits(4, 2, x)
    ensures Reads(16, 4, Nibbles(x, Mask(16, 3, k)), k, Sum(4, x))
  {
    hide Reads, Pow;
    Halve(16, x, k);
    if k == 0 {
      ReadsNone(16, 4);
    } else {
      hide Nibbles, Digits, Sum, Mask;
      var q, h, l := x / 16, x / 4 % 4, x % 4;
      var m := Mask(16, 3, k - 1);
      TwoDigits(4, 2, x);
      Quarter(x);
      SumNibbles(q, k - 1);
      NibbleStep(q, h, l, m);
      ReadsMore(16, 4, Nibbles(q, m), k, Sum(4, q), h + l);
      MaskStep(16, 3, k);
      assert x == 16 * q + 4 * h + l;
    }
  }

  lemma MaskStep(b: nat, d: nat, k: nat)
    requires k > 0
    ensures Mask(b, d, k) == b * Mask(b, d, k - 1) + d
  {}

  lemma Quarter(x: nat)
    ensures x / 4 / 4 == x / 16 && x == 16 * (x / 16) + 4 * (x / 4 % 4) + x % 4
  {}

  lemma TwoDigits(b: nat, c: nat, x: nat)
    requires b > 1 && Digits(b, c, x)
    ensures x / b >= 0 && Digits(b, c, x / b / b) && x % b <= c && x / b % b <= c
    ensures Sum(b, x) == x % b + x / b % b + Sum(b, x / b / b)
  {
    DivModOf(x, b);
    MulAtLeast(b, x / b);
    if x == 0 {
      DivModUnique(0, b, 0, 0);
    } else if x / b == 0 {
      DivModUnique(0, b, 0, 0);
    }
  }

  lemma NibbleStep(q: nat, h: nat, l: nat, m: nat)
    requires h <= 2 && l <= 2
    ensures Nibbles(16 * q + 4 * h + l, 16 * m + 3) == 16 * Nibbles(q, m) + (h + l)
  {
    hide And;
    And16(q, 4 * h + l, m, 3);
    And16(q / 4, 4 * (q % 4) + h, m, 3);
    And4(h, l, 0, 3);
    And4(q % 4, h, 0, 3);
    AndZero(h); AndZero(q % 4);
    AndThree(l); AndThree(h);
    assert (16 * q + 4 * h + l) / 4 == 16 * (q / 4) + (4 * (q % 4) + h);
  }

  lemma AndZero(x: nat)
    ensures And(x, 0) == 0
  {}

  lemma {:induction false} SumBytes(y: nat, k: nat)
    requires y < Pow(256, k) && Digits(16, 4, y)
    ensures Reads(256, 8, Bytes(y, Mask(256, 15, k)), k, Sum(16, y))
  {
    hide Reads, Pow;
    Halve(256, y, k);
    if k == 0 {
      ReadsNone(256, 8);
    } else {
      hide Bytes, Digits, Sum, Mask;
      var q, h, l := y / 256, y / 16 % 16, y % 16;
      var m := Mask(256, 15, k - 1);
      TwoDigits(16, 4, y);
      assert y / 16 / 16 == q;
      SumBytes(q, k - 1);
      TwoDigits(16, 4, q);
      ByteStep(q, h, l, m);
      ReadsMore(256, 8, Bytes(q, m), k, Sum(16, q), h + l);
      MaskStep(256, 15, k);
    }
  }

  lemma ByteStep(q: nat, h: nat, l: nat, m: nat)
    requires h <= 4 && l <= 4 && q % 16 <= 4
    ensures Bytes(256 * q + 16 * h + l, 256 * m + 15) == 256 * Bytes(q, m) + (h + l)
  {
    hide And;
    var y := 256 * q + 16 * h + l;
    assert y / 16 == 16 * q + h;
    assert y + y / 16 == 256 * (q + q / 16) + (16 * (h + q % 16) + (h + l));
    And256(q + q / 16, 16 * (h + q % 16) + (h + l), m, 15);
    And16(h + q % 16, h + l, 0, 15);
    AndZero(h + q % 16);
    AndFifteen(h + l);
  }

  // multiplying by 0x01010101 adds the four bytes up in the top byte
  lemma TopByte(z: nat)
    requires z < WORD && Digits(256, 8, z)
    ensures z * 0x0101_0101 % WORD / 0x100_0000 == Sum(256, z)
  {
    hide Digits, Sum;
    TwoDigits(256, 8, z);
    var a1 := z / 256;
    var d0, d1, u := z % 256, a1 % 256, a1 / 256;
    TwoDigits(256, 8, u);
    var a3 := u / 256;
    var d2, d3 := u % 256, a3 % 256;
    assert a3 / 256 == 0;
    assert Sum(256, 0) == 0 by { NoDigits(); }
    assert z == d0 + 0x100 * d1 + 0x1_0000 * d2 + 0x100_0000 * d3;
    SumOfBytes(d0, d1, d2, d3);
  }

  lemma NoDigits()
    ensures Sum(256, 0) == 0
  {}

  lemma SumOfBytes(d0: nat, d1: nat, d2: nat, d3: nat)
    requires d0 <= 8 && d1 <= 8 && d2 <= 8 && d3 <= 8
    ensures (d0 + 0x100 * d1 + 0x1_0000 * d2 + 0x100_0000 * d3) * 0x0101_0101 % WORD / 0x100_0000
         == d0 + d1 + d2 + d3
  {
    var z := d0 + 0x100 * d1 + 0x1_0000 * d2 + 0x100_0000 * d3;
    var low := d0 + 0x100 * (d0 + d1) + 0x1_0000 * (d0 + d1 + d2);
    var over := d1 + d2 + d3 + 0x100 * (d2 + d3) + 0x1_0000 * d3;
    var top := d0 + d1 + d2 + d3;
    DivModUnique(z * 0x0101_0101, WORD, over, low + 0x100_0000 * top);
    DivModUnique(low + 0x100_0000 * top, 0x100_0000, top, low);
  }

  lemma Masks()
    ensures Mask(4, 1, 16) == 0x5555_5555 && Pow(4, 16) == WORD
    ensures Mask(16, 3, 8) == 0x3333_3333 && Pow(16, 8) == WORD
    ensures Mask(256, 15, 4) == 0x0f0f_0f0f && Pow(256, 4) == WORD
  {
    assert Mask(4, 1, 4) == 0x55 && Pow(4, 4) == 0x100;
    assert Mask(4, 1, 8) == 0x5555 && Pow(4, 8) == 0x1_0000;
    assert Mask(4, 1, 12) == 0x55_5555 && Pow(4, 12) == 0x100_0000;
    assert Mask(16, 3, 4) == 0x3333 && Pow(16, 4) == 0x1_0000;
  }

  lemma PopcCountsOnes(a: nat)
    requires a < WORD
    ensures Popc(a) == Ones(a) <= 32
  {
    hide And, Digits, Sum, Mask, Pow, Ones, PairCounts, Nibbles;
    Masks();
    PowersOfTwo();
    Pairs(a, 16);
    var x := PairCounts(a, 0x5555_5555);
    SumNibbles(x, 8);
    var y := Nibbles(x, 0x3333_3333);
    SumBytes(y, 4);
    NoCarry(y);
    var z := Bytes(y, 0x0f0f_0f0f);
    TopByte(z);
    OnesBound(a, 32);
  }

  lemma NoCarry(y: nat)
    requires y < WORD && Digits(16, 4, y)
    ensures y + y / 16 < WORD
  {
    DigitsBelow(y, 8);
    Masks();
  }

  lemma {:induction false} DigitsBelow(y: nat, k: nat)
    requires y < Pow(16, k) && Digits(16, 4, y)
    ensures 3 * y < Pow(16, k)
    decreases k
  {
    if k > 0 && y > 0 {
      DigitsBelow(y / 16, k - 1);
    }
  }

  lemma {:induction false} OnesBound(a: nat, k: nat)
    requires a < Pow2(k)
    ensures Ones(a) <= k
  {
    if k > 0 && a > 0 {
      OnesBound(a / 2, k - 1);
    }
  }
}
