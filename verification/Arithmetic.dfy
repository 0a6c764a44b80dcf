/** Minimum, maximum, and facts about products and remainders with a variable modulus. */
module Arithmetic {

  function Min(x: nat, y: nat): nat { if x < y then x else y }

  function Max(x: int, y: int): int { if x < y then y else x }

  lemma MulMonotone(x: nat, y: nat, m: nat)
    ensures x <= y ==> x * m <= y * m
  {
  }

  lemma TwoMore(k: nat, m: nat)
    requires k % 2 == 0 && m % 2 == 0 && k < m
    ensures k + 2 <= m && (k + 2) % 2 == 0
  {
  }

  lemma FourMore(k: nat, m: nat)
    requires k % 4 == 0 && m % 4 == 0 && k < m
    ensures k + 4 <= m && (k + 4) % 4 == 0
  {
  }

  lemma EightMore(k: nat, m: nat)
    requires k % 8 == 0 && m % 8 == 0 && k < m
    ensures k + 8 <= m && (k + 8) % 8 == 0
  {
  }

  lemma EightTimes(x: nat)
    ensures 8 * x % 8 == 0
  {
  }

  lemma FourTimes(x: nat)
    ensures 4 * x % 4 == 0
  {
  }

  lemma TwoTimes(x: nat)
    ensures 2 * x % 2 == 0
  {
  }

  /** A multiple of eight is one of two and four. */
  lemma EightDivides(x: nat)
    requires x % 8 == 0
    ensures x % 2 == 0 && x % 4 == 0
  {
    var k := x / 8;
    FourTimes(2 * k);
    TwoTimes(4 * k);
    assert x == 8 * k;
  }

  /** A number between -m and m other than zero is no multiple of m. */
  lemma NoMultiple(q: int, d: int, m: nat)
    requires 0 - m < d < m && d != 0
    ensures q * m != d
  {
    if q >= 1 {
      assert q * m >= m;
    } else if q <= -1 {
      assert q * m <= 0 - m;
    }
  }

  /** The remainder is determined by any decomposition. */
  lemma RemainderIs(x: int, m: nat, q: int, r: nat)
    requires x == q * m + r && r < m
    ensures x % m == r
  {
    var k := x / m - q;
    assert k * m == x / m * m - q * m;
    if x % m != r {
      NoMultiple(k, r - x % m, m);
    }
  }
}
