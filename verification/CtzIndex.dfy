/**
 file/ctz.rs: files as skip lists of blocks. Block n > 0 starts with
 Trailing(n)+1 pointers, the k-th to block n - 2^k; data fills the rest.
 */
module CtzIndex {
  import opened Arith
  import opened Util

  // ----- where a position lies -----

  // bytes of pointers at the start of block n
  function Header(n: nat): nat { if n == 0 then 0 else 4 * (Trailing(n) + 1) }

  function Capacity(B: nat, n: nat): int { B - Header(n) }

  // Subtract the capacities of the blocks one by one.
  function Naive(B: nat, n: nat, pos: nat): (nat, nat)
    decreases pos
  {
    if 0 < Capacity(B, n) <= pos then Naive(B, n + 1, pos - Capacity(B, n))
    else (n, pos + Header(n))
  }

  // The closed form of lfs_ctz_index. `ok` says that none of its unsigned
  // subtractions goes below zero and that the block number fits an i32.
  datatype Place = Place(index: int, off: int, ok: bool)

  function Index(B: nat, size: nat): Place
    requires 128 <= B < WORD && size < WORD
  {
    var b := B - 8;
    var i := size / b;
    if i == 0 then Place(0, size, true)
    else
      InRange(size, b);
      var taken := 4 * (Popc(i - 1) + 2);
      if taken > size then Place(0, 0, false)
      else
        var i := (size - taken) / b;
        InRange(size - taken, b);
        var off := size - b * i - 4 * Popc(i);
        Place(i, off, off >= 0 && i < 0x8000_0000)
  }

  lemma InRange(n: nat, b: nat)
    requires 120 <= b && n < WORD
    ensures 0 <= n / b < 0x400_0000
  {
    DivModOf(n, b);
    DivNat(n, b);
    MulMonotone(n / b, 120, b);
  }

  // ----- the closed form is the sum -----

  function Start(B: nat, n: nat): int {
    if n == 0 then 0 else Start(B, n - 1) + Capacity(B, n - 1)
  }

  lemma {:induction false} OnesStep(n: nat)
    requires n > 0
    ensures Ones(n) + Trailing(n) == Ones(n - 1) + 1
  {
    if n % 2 == 0 {
      OnesStep(n / 2);
      assert (n - 1) / 2 == n / 2 - 1;
    } else {
      assert (n - 1) / 2 == n / 2;
    }
  }

  lemma {:induction false} StartClosed(B: nat, n: nat)
    requires B >= 8 && n > 0
    ensures Start(B, n) == n * (B - 8) + 8 + 4 * Ones(n - 1)
  {
    if n == 1 {
      assert Start(B, 0) == 0 && Ones(0) == 0;
    } else {
      StartClosed(B, n - 1);
      OnesStep(n - 1);
      assert (n - 1) * (B - 8) == n * (B - 8) - (B - 8);
    }
  }

  // a block number a 32-bit file can have, and what follows for it
  lemma SmallIndex(n: nat)
    requires n < 0x400_0000
    ensures Ones(n) <= 26
    ensures n > 0 ==> Trailing(n) <= 25 && Header(n) <= 104
  {
    PowersOfTwo();
    OnesBound(n, 26);
    if n > 0 { LowestBit(n, 26); }
  }

  ghost predicate InBlock(B: nat, pos: int, n: nat) {
    Start(B, n) <= pos < Start(B, n + 1)
  }

  lemma IndexInBlock(B: nat, pos: nat)
    requires 128 <= B < WORD && pos < WORD
    ensures Located(B, pos, Index(B, pos))
  {
    hide Popc, Ones, Start, InBlock, Trailing;
    var b := B - 8;
    InRange(pos, b);
    DivModOf(pos, b);
    var j := pos / b;
    if j == 0 {
      InFirst(B, pos);
    } else {
      PopcCountsOnes(j - 1);
      SmallIndex(j - 1);
      MulMonotone(b, 1, j);
      var taken := 4 * (Ones(j - 1) + 2);
      InRange(pos - taken, b);
      DivModOf(pos - taken, b);
      var i := (pos - taken) / b;
      PopcCountsOnes(i);
      Settles(B, pos, j, i);
    }
  }

  ghost predicate Located(B: nat, pos: nat, p: Place) {
    && p.ok && 0 <= p.index < 0x400_0000 && InBlock(B, pos, p.index)
    && p.off == pos - Start(B, p.index) + Header(p.index)
    && Header(p.index) <= p.off < B
  }

  lemma InFirst(B: nat, pos: nat)
    requires B >= 128 && pos < B
    ensures Located(B, pos, Place(0, pos, true))
  {
    FirstBlocks(B);
  }

  lemma FirstBlocks(B: nat)
    ensures Start(B, 0) == 0 && Start(B, 1) == B && Header(0) == 0 && Ones(0) == 0
  {
    assert Start(B, 1) == Start(B, 0) + Capacity(B, 0);
  }

  // After the correction the quotient is the block number.
  lemma Settles(B: nat, pos: nat, j: nat, i: nat)
    requires B >= 128 && 0 < j <= 0x400_0000 && i < 0x400_0000
    requires (B - 8) * j <= pos < (B - 8) * j + (B - 8)
    requires (B - 8) * i <= pos - 4 * (Ones(j - 1) + 2) < (B - 8) * i + (B - 8)
    ensures Located(B, pos, Place(i, pos - (B - 8) * i - 4 * Ones(i), true))
    ensures pos - (B - 8) * i - 4 * Ones(i) >= 0
  {
    hide Start, Ones;
    SmallIndex(j - 1);
    Quotients(B - 8, pos, 4 * (Ones(j - 1) + 2), j, i);
    Starts(B, i, (B - 8) * i);
  }

  lemma Quotients(b: nat, pos: int, taken: nat, j: nat, i: nat)
    requires b > 0 && taken <= b
    requires b * j <= pos < b * j + b && b * i <= pos - taken < b * i + b
    ensures (j == i && b * j == b * i) || (j == i + 1 && b * j == b * i + b)
  {
    MulSub(b, j, i);
    MulAtLeast(b, j - i);
    MulSub(b, j, i + 1);
    MulAtLeast(b, j - i - 1);
    MulSub(b, j, i + 2);
    MulAtLeast(b, j - i - 2);
  }

  lemma Starts(B: nat, i: nat, floor: int)
    requires B >= 128 && i < 0x400_0000 && floor == (B - 8) * i
    ensures Ones(i) <= 26
    ensures Start(B, i + 1) == floor + B + 4 * Ones(i) == Start(B, i) + B - Header(i)
    ensures i == 0 ==> Start(B, i) == floor == 0
    ensures i > 0 ==> Start(B, i) == floor + 8 + 4 * Ones(i - 1) && Ones(i - 1) <= 26
  {
    FirstBlocks(B);
    SmallIndex(i);
    StartClosed(B, i + 1);
    assert (i + 1) * (B - 8) == floor + (B - 8);
    if i > 0 {
      SmallIndex(i - 1);
      StartClosed(B, i);
    }
  }

  lemma HeaderOf(n: nat)
    requires n > 0
    ensures Header(n) == 4 * (Trailing(n) + 1)
  {}

  lemma StartNext(B: nat, n: nat)
    ensures Start(B, n + 1) == Start(B, n) + B - Header(n)
  {}

  lemma {:induction false} NaiveFinds(B: nat, m: nat, rest: nat, n: nat)
    requires B >= 128 && m <= n < 0x400_0000
    requires InBlock(B, Start(B, m) + rest, n)
    ensures Naive(B, m, rest) == (n, Start(B, m) + rest - Start(B, n) + Header(n))
    decreases n - m
  {
    SmallIndex(m);
    if m < n {
      StartGrows(B, m + 1, n);
      NaiveFinds(B, m + 1, rest - Capacity(B, m), n);
    }
  }

  lemma {:induction false} StartGrows(B: nat, m: nat, n: nat)
    requires B >= 128 && m <= n <= 0x400_0000
    ensures Start(B, m) + 24 * (n - m) <= Start(B, n)
    decreases n
  {
    if m < n {
      SmallIndex(n - 1);
      StartGrows(B, m, n - 1);
    }
  }

  lemma IndexIsNaive(B: nat, pos: nat)
    requires 128 <= B < WORD && pos < WORD
    ensures Index(B, pos).ok
    ensures (Index(B, pos).index, Index(B, pos).off) == Naive(B, 0, pos)
  {
    hide Index, Start, Header;
    IndexInBlock(B, pos);
    FirstBlocks(B);
    NaiveFinds(B, 0, pos, Index(B, pos).index);
  }
}
