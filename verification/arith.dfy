/** Division facts for variable divisors. */
module Arith {

  lemma MulAtLeast(d: int, k: int)
    requires d >= 0
    ensures k >= 1 ==> d * k >= d
    ensures k <= -1 ==> d * k <= -d
  {
    if k >= 1 {
      assert d * k == d + d * (k - 1);
      assert d * (k - 1) >= 0;
    } else if k <= -1 {
      assert d * k == -d - d * (-k - 1);
      assert d * (-k - 1) >= 0;
    }
  }

  /** A quotient and remainder with the remainder in range are the only ones. */
  lemma ModUnique(x: int, d: nat, q: int, r: nat)
    requires d >= 1 && x == d * q + r && r < d
    ensures x % d == r && x / d == q
  {
    var q', r' := x / d, x % d;
    assert x == d * q' + r' && 0 <= r' < d;
    Difference(d, q, q', r, r');
    MulAtLeast(d, q - q');
  }

  lemma Difference(d: nat, q: int, q': int, r: int, r': int)
    requires d * q + r == d * q' + r'
    ensures d * (q - q') == r' - r
  {
  }

  lemma ModSmall(x: nat, d: nat)
    requires x < d
    ensures x % d == x && x / d == 0
  {
    ModUnique(x, d, 0, x);
  }

  lemma ModDouble(x: nat, m: nat)
    requires m >= 1
    ensures x % (2 * m) == 2 * ((x / 2) % m) + x % 2
  {
    var q, r := (x / 2) / m, (x / 2) % m;
    assert x / 2 == m * q + r;
    assert x == (2 * m) * q + (2 * r + x % 2);
    ModUnique(x, 2 * m, q, 2 * r + x % 2);
  }
}
