/** Facts about remainders that the solver does not find by itself. */
module Residues {
  /** Quotient and remainder are unique. */
  lemma ModUnique(x: int, m: nat, q: int, r: int)
    requires m > 0 && x == m * q + r && 0 <= r < m
    ensures x % m == r
  {
    var d := q - x / m;
    assert m * d == m * q - m * (x / m);
    if d != 0 {
      NonzeroMultiple(m, d);
    }
  }

  lemma NonzeroMultiple(m: int, d: int)
    requires m > 0 && d != 0
    ensures m * d >= m || m * d <= -m
  {
    if d > 0 {
      PositiveMultiple(m, d);
    } else {
      PositiveMultiple(m, -d);
      assert m * d == -(m * -d);
    }
  }

  lemma {:induction false} PositiveMultiple(m: int, n: nat)
    requires m > 0 && n > 0
    ensures m * n >= m
  {
    if n > 1 {
      PositiveMultiple(m, n - 1);
      assert m * n == m * (n - 1) + m;
    }
  }

  lemma ModMultiple(x: int, q: int, m: nat)
    requires m > 0
    ensures (x + m * q) % m == x % m
  {
    assert m * (x / m + q) == m * (x / m) + m * q;
    ModUnique(x + m * q, m, x / m + q, x % m);
  }

  lemma ModShift(a: int, b: int, m: nat)
    requires m > 0
    ensures (a - b % m) % m == (a - b) % m
  {
    ModMultiple(a - b, b / m, m);
  }
}
