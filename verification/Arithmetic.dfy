/** Facts about products, quotients and remainders of variables. */
module Arithmetic {

  lemma {:induction false} MulMonotone(a: int, b: int, m: int)
    requires m >= 0
    ensures a <= b ==> a * m <= b * m
  {
  }

  lemma {:induction false} DivModUnique(x: int, m: int, q: int, r: int)
    requires m > 0 && x == q * m + r && 0 <= r < m
    ensures x / m == q && x % m == r
  {
    assert x == x / m * m + x % m;
    MulMonotone(q + 1, x / m, m);
    MulMonotone(x / m + 1, q, m);
  }

  /** Remainders of what is at most one modulus out of range. */
  lemma {:induction false} ModNear(x: int, m: int)
    requires m > 0 && -m <= x < 2 * m
    ensures x % m == if x < 0 then x + m else if x < m then x else x - m
  {
    var q := if x < 0 then -1 else if x < m then 0 else 1;
    DivModUnique(x, m, q, if x < 0 then x + m else if x < m then x else x - m);
  }

  /** Counting on by one, modulo `m`. */
  lemma {:induction false} ModSucc(n: nat, m: int)
    requires m > 1
    ensures (n + 1) % m == if n % m == m - 1 then 0 else n % m + 1
  {
    var q, r := n / m, n % m;
    if r == m - 1 {
      assert n + 1 == (q + 1) * m + 0;
      DivModUnique(n + 1, m, q + 1, 0);
    } else {
      assert n + 1 == q * m + (r + 1);
      DivModUnique(n + 1, m, q, r + 1);
    }
  }
}
