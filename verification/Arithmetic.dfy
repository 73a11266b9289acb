/** Facts about products, quotients and remainders. */
module Arithmetic {
  /** The values of the target's `int`. */
  type Int32 = x: int | -0x8000_0000 <= x < 0x8000_0000


  function Abs(d: int): nat {
    if d < 0 then -d else d
  }

  lemma Multiple(m: nat, k: int)
    ensures k >= 1 ==> m * k >= m
    ensures k <= -1 ==> m * k + m <= 0
  {
    if k >= 1 {
      assert m * (k - 1) >= 0;
    } else if k <= -1 {
      assert m * (-1 - k) >= 0;
    }
  }

  lemma SameQuotient(m: nat, q: int, r: nat, d: int, e: nat)
    requires m * q + r == m * d + e && r < m && e < m
    ensures q == d
  {
    var k := q - d;
    assert m * k == m * q - m * d == e - r;
    Multiple(m, k);
  }

  lemma UniqueRemainder(x: int, m: nat, q: int, r: nat)
    requires x == m * q + r && r < m
    ensures x % m == r && x / m == q
  {
    SameQuotient(m, q, r, x / m, x % m);
  }

  lemma ModHalf(x: nat, m: nat)
    requires m > 0
    ensures x % (2 * m) == 2 * (x / 2 % m) + x % 2 && x / (2 * m) == x / 2 / m
  {
    var q, r := x / 2 / m, x / 2 % m;
    assert x == 2 * (m * q + r) + x % 2 == (2 * m) * q + (2 * r + x % 2);
    UniqueRemainder(x, 2 * m, q, 2 * r + x % 2);
  }
}
