/** The few facts about division the models need, each proved once. */
module Arith {

  lemma MulAtLeast(a: nat, x: int)
    requires a > 0
    ensures x >= 1 ==> a * x >= a
    ensures x <= -1 ==> a * x <= 0 - a
  {}

  lemma MulSub(a: int, x: int, y: int)
    ensures a * x - a * y == a * (x - y)
  {}

  lemma DivModOf(n: int, a: nat)
    requires a > 0
    ensures n == a * (n / a) + n % a && 0 <= n % a < a
  {}

  lemma DivNat(n: nat, a: nat)
    requires a > 0
    ensures n / a >= 0
  {
    DivModOf(n, a);
    MulAtLeast(a, n / a);
  }

  // quotient and remainder are determined by their equation
  lemma DivModUnique(n: int, a: nat, q: int, r: int)
    requires a > 0 && n == a * q + r && 0 <= r < a
    ensures n / a == q && n % a == r
  {
    DivModOf(n, a);
    MulSub(a, q, n / a);
    MulAtLeast(a, q - n / a);
  }

  lemma MulMonotone(a: nat, x: int, y: int)
    requires x <= y
    ensures a * x <= a * y
  {
    MulSub(a, y, x);
  }

  lemma ModSub(x: int, y: int, a: nat)
    requires a > 0 && x % a == 0 && y % a == 0
    ensures (x - y) % a == 0 && (x + y) % a == 0
  {
    DivModOf(x, a);
    DivModOf(y, a);
    MulSub(a, x / a, y / a);
    MulSub(a, x / a, -(y / a));
    DivModUnique(x - y, a, x / a - y / a, 0);
    DivModUnique(x + y, a, x / a + y / a, 0);
  }

  // multiples of a that are less than a apart are equal
  lemma ModClose(x: int, y: int, a: nat)
    requires a > 0 && x % a == 0 && y % a == 0 && x - a < y <= x
    ensures x == y
  {
    ModSub(x, y, a);
    DivModUnique(x - y, a, 0, x - y);
  }

  lemma ModTrans(x: int, a: nat, c: nat)
    requires a > 0 && c > 0 && x % a == 0 && a % c == 0
    ensures x % c == 0
  {
    DivModOf(x, a);
    DivModOf(a, c);
    var q := x / a;
    assert x == c * ((a / c) * q);
    DivModUnique(x, c, (a / c) * q, 0);
  }

  function Min(a: int, b: int): int { if a < b then a else b }

  // lfs_aligndown and lfs_alignup
  function AlignDown(a: nat, unit: nat): (r: nat)
    requires unit > 0
    ensures r % unit == 0 && r <= a < r + unit
  {
    DivModOf(a, unit);
    DivNat(a, unit);
    DivModUnique(a - a % unit, unit, a / unit, 0);
    a - a % unit
  }

  function AlignUp(a: nat, unit: nat): (r: nat)
    requires unit > 0
    ensures r % unit == 0 && a <= r < a + unit
  {
    AlignDown(a + unit - 1, unit)
  }

  lemma UnitsFit(n: nat, unit: nat, room: nat)
    requires unit > 0 && n <= room && room % unit == 0
    ensures AlignUp(n, unit) <= room
  {
    if AlignUp(n, unit) > room { ModClose(AlignUp(n, unit), room, unit); }
  }
}
