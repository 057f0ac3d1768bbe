/** Rounding of include/sys/math.h on 64-bit operands. */
module Rounding {
  const WORD_LIMIT := 0x1_0000_0000_0000_0000

  /** ROUND_UP on 64-bit operands. */
  function RoundUp(x: nat, m: nat): nat
    requires m > 0
  {
    var y := (x + m - 1) % WORD_LIMIT;
    y - y % m
  }

  lemma MulMono(a: nat, b: nat, m: nat)
    requires a <= b
    ensures a * m <= b * m
  {}

  lemma DivUnique(a: nat, m: nat, q: nat, r: nat)
    requires 0 < m && r < m && a == q * m + r
    ensures a / m == q && a % m == r
  {
    var q', r' := a / m, a % m;
    assert a == q' * m + r';
    if q < q' { MulMono(q + 1, q', m); }
    if q' < q { MulMono(q' + 1, q, m); }
  }

  /** The result is the least multiple from x on. */
  lemma RoundUpLeast(x: nat, m: nat)
    requires m > 0 && x + m - 1 < WORD_LIMIT
    ensures var r := RoundUp(x, m); r % m == 0 && x <= r < x + m && forall y :: x <= y < r ==> y % m != 0
  {
    var top := x + m - 1;
    var q := top / m;
    var r := RoundUp(x, m);
    assert r == q * m;
    DivUnique(r, m, q, 0);
    forall y | x <= y < r ensures y % m != 0 {
      if r - m < y { DivUnique(y, m, q - 1, y - (r - m)); }
    }
  }

  lemma ModMod(n: nat, m: nat, c: nat)
    requires m > 0 && c > 0 && m * c > 0
    ensures n % (m * c) % m == n % m
  {
    var q, r := n / (m * c), n % (m * c);
    Regroup(n, m, c, q, r, r / m, r % m);
    DivUnique(n, m, q * c + r / m, r % m);
  }

  lemma Regroup(n: nat, m: nat, c: nat, q: nat, r: nat, q': nat, r': nat)
    requires n == q * (m * c) + r && r == q' * m + r'
    ensures n == (q * c + q') * m + r'
  {
    assert q * (m * c) == (q * c) * m;
  }

  lemma DivDiv(n: nat, m: nat, c: nat)
    requires m > 0 && c > 0 && m * c > 0
    ensures n / m / c == n / (m * c)
  {
    var q, r := n / (m * c), n % (m * c);
    var q', r' := r / m, r % m;
    Regroup(n, m, c, q, r, q', r');
    DivUnique(n, m, q * c + q', r');
    assert q' < c by { if q' >= c { MulMono(c, q', m); } }
    DivUnique(q * c + q', c, q, q');
  }

  /** Rounding up from the next number on leads to the end of the block. */
  lemma NextBlock(x: nat, m: nat)
    requires m > 0 && x + m < WORD_LIMIT
    ensures RoundUp(x + 1, m) == (x / m + 1) * m > x
  {
    var y := x + m;
    assert y == (x / m + 1) * m + x % m;
    DivUnique(y, m, x / m + 1, x % m);
  }

  /** Cutting the low part off before or after reducing. */
  lemma DivMod(n: nat, m: nat, c: nat)
    requires m > 0 && c > 0 && m * c > 0
    ensures n % (m * c) / m == n / m % c
  {
    var q, r := n / (m * c), n % (m * c);
    var q', r' := r / m, r % m;
    Regroup(n, m, c, q, r, q', r');
    DivUnique(n, m, q * c + q', r');
    assert q' < c by { if q' >= c { MulMono(c, q', m); } }
    DivUnique(q * c + q', c, q, q');
  }
}
