/** Facts about products and quotients that the solver does not find on its own. */
module Arith {
  function Min(a: int, b: int): int {
    if a < b then a else b
  }

  function Max(a: int, b: int): int {
    if a < b then b else a
  }

  lemma MulLe(a: int, b: int, c: int)
    requires a <= b && 0 <= c
    ensures a * c <= b * c
  {
    assert (b - a) * c >= 0;
  }

  lemma Distribute(a: int, b: int, c: int)
    ensures (a + b) * c == a * c + b * c && (a - b) * c == a * c - b * c
  {
  }

  lemma Associate(a: int, b: int, c: int)
    ensures a * b * c == a * (b * c)
  {
  }

  lemma Commute(a: int, b: int)
    ensures a * b == b * a
  {
  }

  lemma DistributeLeft(a: int, b: int, c: int)
    ensures a * (b + c) == a * b + a * c && a * (b - c) == a * b - a * c
  {
  }

  lemma SmallMultiple(d: int, B: int)
    requires 0 - B < d * B < B
    ensures d == 0
  {
    if d > 0 { MulLe(1, d, B); }
    if d < 0 { MulLe(d, -1, B); }
  }

  /** Quotient and remainder are unique. */
  lemma DivModUnique(A: int, B: int, q: int, r: int)
    requires B > 0 && A == q * B + r && 0 <= r < B
    ensures q == A / B && r == A % B
  {
    Distribute(q, A / B, B);
    assert A == A / B * B + A % B;
    SmallMultiple(q - A / B, B);
  }

  lemma DivModBasic(A: int, B: int)
    requires B > 0
    ensures A == A / B * B + A % B && 0 <= A % B < B
  {
  }

  lemma SignRules(a: int, b: int)
    ensures -a * b == -(a * b) && a * -b == -(a * b) && -a * -b == a * b && a * b == b * a
  {
  }

  lemma ModMultiple(k: int, B: int)
    requires B > 0
    ensures (k * B) % B == 0 && (k * B) / B == k
  {
    DivModUnique(k * B, B, k, 0);
  }

  lemma DivDiv(v: int, a: int, b: int)
    requires a > 0 && b > 0
    ensures a * b > 0 && v / a / b == v / (a * b)
  {
    var q := v / a;
    var r, t, u := v % a, q % b, q / b;
    DivModBasic(v, a);
    DivModBasic(q, b);
    TwoDigits(v, a, b, q, r, t, u);
    DivModUnique(v, a * b, u, t * a + r);
  }

  /** A number in two digits, the lower to base a, the next to base b. */
  lemma TwoDigits(v: int, a: int, b: int, q: int, r: int, t: int, u: int)
    requires a > 0 && b > 0 && v == q * a + r && q == u * b + t && 0 <= r < a && 0 <= t < b
    ensures a * b > 0 && v == u * (a * b) + (t * a + r) && 0 <= t * a + r < a * b
  {
    calc {
      q * a;
      { Distribute(u * b, t, a); }
      u * b * a + t * a;
      { Associate(u, b, a); Commute(a, b); }
      u * (a * b) + t * a;
    }
    MulLe(0, t, a);
    MulLe(t, b - 1, a);
    Distribute(b, 1, a);
    Commute(a, b);
    MulLe(1, b, a);
  }

  lemma AddMultiple(v: int, k: int, p: int)
    requires p > 0
    ensures (v + k * p) / p == v / p + k
  {
    DivModBasic(v, p);
    Distribute(v / p, k, p);
    DivModUnique(v + k * p, p, v / p + k, v % p);
  }

  lemma NextDivMod(e: nat, b: nat)
    requires b > 0
    ensures if e % b + 1 < b then (e + 1) / b == e / b && (e + 1) % b == e % b + 1
            else (e + 1) / b == e / b + 1 && (e + 1) % b == 0
  {
    DivModBasic(e, b);
    if e % b + 1 < b {
      DivModUnique(e + 1, b, e / b, e % b + 1);
    } else {
      Distribute(e / b, 1, b);
      DivModUnique(e + 1, b, e / b + 1, 0);
    }
  }

  // ------------------------------------------------------------ powers

  function Power(a: int, n: nat): int {
    if n == 0 then 1 else a * Power(a, n - 1)
  }

  lemma {:induction false} PowerPositive(a: nat, n: nat)
    requires a >= 1
    ensures Power(a, n) >= 1
  {
    if n > 0 {
      PowerPositive(a, n - 1);
      MulLe(1, a, Power(a, n - 1));
    }
  }

  lemma {:induction false} PowerSum(a: int, m: nat, n: nat)
    ensures Power(a, m + n) == Power(a, m) * Power(a, n)
  {
    if m > 0 {
      PowerSum(a, m - 1, n);
      assert a * (Power(a, m - 1) * Power(a, n)) == (a * Power(a, m - 1)) * Power(a, n);
    }
  }

  /** Powers of two are the weights of bits. */
  function Pow2(n: nat): (p: nat)
    ensures p > 0
  {
    PowerPositive(2, n);
    Power(2, n)
  }

  lemma Pow2Step(n: nat)
    ensures Pow2(n + 1) == 2 * Pow2(n)
  {
  }

  lemma Pow2Square(k: nat)
    requires k > 0
    ensures Pow2(2 * k) == 4 * Pow2(2 * (k - 1))
  {
    Pow2Step(2 * k - 1);
    Pow2Step(2 * k - 2);
  }

  /** Bit i of a number. */
  predicate BitOf(d: int, i: nat) {
    d / Pow2(i) % 2 == 1
  }

  lemma NextBit(d: int, i: nat)
    ensures BitOf(d, i + 1) == BitOf(d / 2, i)
    ensures BitOf(d, 0) == (d % 2 == 1)
  {
    Pow2Step(i);
    DivDiv(d, 2, Pow2(i));
    assert Pow2(0) == 1;
  }

  /** The low n bits survive a remainder by 2^n. */
  lemma {:induction false} BitOfRemainder(x: int, n: nat, k: nat)
    requires k < n
    ensures BitOf(x % Pow2(n), k) == BitOf(x, k)
    decreases n
  {
    hide BitOf, Pow2;
    Pow2Step(n - 1);
    HalfRemainder(x, Pow2(n - 1));
    if k == 0 {
      NextBit(x, 0);
      NextBit(x % Pow2(n), 0);
    } else {
      NextBit(x, k - 1);
      NextBit(x % Pow2(n), k - 1);
      BitOfRemainder(x / 2, n - 1, k - 1);
    }
  }

  lemma HalfRemainder(x: int, m: int)
    requires m > 0
    ensures x % (2 * m) / 2 == x / 2 % m && x % (2 * m) % 2 == x % 2
  {
    var h, b := x / 2, x % 2;
    DivModBasic(h, m);
    Associate(h / m, m, 2);
    Commute(m, 2);
    DivModUnique(x, 2 * m, h / m, 2 * (h % m) + b);
  }
}
