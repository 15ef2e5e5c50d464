/** Congruences, and the number-theoretic routines of firmware/archive/pi.c over mathematical integers. */
module PiArithmetic {
  import opened Arith
  import opened NumberTheory

  predicate Congruent(m: nat, a: int, b: int)
    requires m > 0
  {
    Divides(m, a - b)
  }

  lemma CongruentBasics(m: nat, a: int)
    requires m > 0
    ensures Congruent(m, a, a) && Congruent(m, a % m, a) && Congruent(m, a, a % m)
  {
    DivModBasic(a, m);
    Multiple(m, 0);
    Multiple(m, a / m);
    Multiple(m, -(a / m));
    assert -(a / m) * m == a % m - a by { SignRules(a / m, m); }
  }

  lemma CongruentTransitive(m: nat, a: int, b: int, c: int)
    requires m > 0 && Congruent(m, a, b) && Congruent(m, b, c)
    ensures Congruent(m, a, c)
  {
    DividesSum(m, a - b, b - c);
  }

  lemma CongruentSum(m: nat, a: int, b: int, c: int, d: int)
    requires m > 0 && Congruent(m, a, b) && Congruent(m, c, d)
    ensures Congruent(m, a + c, b + d)
  {
    DividesSum(m, a - b, c - d);
    assert (a - b) + (c - d) == (a + c) - (b + d);
  }

  lemma CongruentProduct(m: nat, a: int, b: int, c: int, d: int)
    requires m > 0 && Congruent(m, a, b) && Congruent(m, c, d)
    ensures Congruent(m, a * c, b * d)
  {
    DividesTimes(m, a - b, c);
    DividesTimes(m, c - d, b);
    DividesSum(m, (a - b) * c, b * (c - d));
    assert (a - b) * c + b * (c - d) == a * c - b * d;
  }

  lemma CongruentUnique(m: nat, a: int, b: int)
    requires m > 0 && 0 <= a < m && 0 <= b < m && Congruent(m, a, b)
    ensures a == b
  {
    var k := Quotient(m, a - b);
    SmallMultiple(k, m);
  }

  // ------------------------------------------------------------ machine arithmetic

  /** The remainder of a division that truncates toward zero. */
  function TruncMod(a: int, b: int): (r: int)
    requires b > 0
    ensures -b < r < b && (a >= 0 ==> r == a % b)
  {
    if a >= 0 then a % b else -(-a % b)
  }

  lemma TruncModCongruent(a: int, m: nat)
    requires m > 0
    ensures Congruent(m, TruncMod(a, m), a)
  {
    CongruentBasics(m, a);
    if a < 0 {
      var k := -a / m;
      DivModBasic(-a, m);
      Multiple(m, k);
    }
  }

  function MulMod(a: int, b: int, m: int): int
    requires m > 0
  {
    TruncMod(a * b, m)
  }

  // ------------------------------------------------------------ inv_mod

  lemma InverseStep(y: nat, x: int, a: int, c: int, u: int, v: int, q: int)
    requires y > 0 && Congruent(y, c * x, u) && Congruent(y, a * x, v)
    ensures Congruent(y, (a - q * c) * x, v - q * u)
  {
    DividesTimes(y, c * x - u, q);
    DividesSum(y, a * x - v, q * (c * x - u));
    assert (a * x - v) - q * (c * x - u) == (a - q * c) * x - (v - q * u);
  }

  /** The extended Euclidean loop: times x, the result is the greatest common divisor modulo y. */
  method InvMod(x: int, y: int) returns (r: int)
    requires x > 0 && y > 0
    ensures 0 <= r < y && Congruent(y, r * x, Gcd(y, x))
  {
    var u, v, c, a := x, y, 1, 0;
    Multiple(y, 0);
    Multiple(y, -1);
    while true
      invariant u > 0 && v > 0 && Gcd(v, u) == Gcd(y, x)
      invariant Congruent(y, c * x, u) && Congruent(y, a * x, v)
      decreases u
    {
      var q := v / u;
      InverseStep(y, x, a, c, u, v, q);
      DivModBasic(v, u);
      var t := c;
      c := a - q * c;
      a := t;
      t := u;
      u := v - q * u;
      v := t;
      if u == 0 { break; }
    }
    r := TruncMod(a, y);
    TruncModCongruent(a, y);
    if r < 0 {
      Multiple(y, 1);
      DividesSum(y, r - a, y);
      r := y + r;
    }
    DividesTimes(y, r - a, x);
    Distribute(r, a, x);
    CongruentTransitive(y, r * x, a * x, v);
  }

  /** That result is the inverse exactly when x and y are coprime. */
  lemma InverseExactly(r: int, x: nat, y: nat)
    requires x > 0 && y > 0 && Congruent(y, r * x, Gcd(y, x))
    ensures Congruent(y, r * x, 1) <==> Coprime(y, x)
  {
    if Congruent(y, r * x, 1) {
      GcdDivides(y, x);
      var g := Gcd(y, x);
      DividesTransitive(g, y, r * x - 1);
      DividesTimes(g, x, r);
      DividesSum(g, r * x, r * x - 1);
      DivisorIsSmaller(g, 1);
    }
  }

  // ------------------------------------------------------------ pow_mod

  lemma PowerSquare(a: int, n: nat)
    ensures Power(a, 2 * n) == Power(a * a, n)
    decreases n
  {
    if n > 0 {
      PowerSquare(a, n - 1);
      assert Power(a, 2 * n) == a * (a * Power(a, 2 * n - 2));
      assert a * (a * Power(a, 2 * n - 2)) == (a * a) * Power(a, 2 * n - 2);
    }
  }

  lemma {:induction false} CongruentPower(m: nat, a: int, b: int, n: nat)
    requires m > 0 && Congruent(m, a, b)
    ensures Congruent(m, Power(a, n), Power(b, n))
  {
    if n == 0 {
      CongruentBasics(m, 1);
    } else {
      CongruentPower(m, a, b, n - 1);
      CongruentProduct(m, a, b, Power(a, n - 1), Power(b, n - 1));
    }
  }

  /** Multiplying in the low bit of the exponent. */
  lemma TakeBit(m: nat, r: int, s: int, aa: int, e: nat, p: int)
    requires m > 0 && Congruent(m, r * Power(aa, e), p)
    requires s == if e % 2 == 1 then MulMod(r, aa, m) else r
    ensures Congruent(m, s * Power(aa * aa, e / 2), p)
  {
    PowerSquare(aa, e / 2);
    var h := Power(aa * aa, e / 2);
    if e % 2 == 1 {
      assert Power(aa, e) == aa * h;
      TruncModCongruent(r * aa, m);
      CongruentBasics(m, h);
      CongruentProduct(m, s, r * aa, h, h);
      assert r * aa * h == r * (aa * h);
      CongruentTransitive(m, s * h, r * aa * h, p);
    }
  }

  lemma SquareBase(m: nat, r: int, aa: int, e: nat, p: int)
    requires m > 0 && Congruent(m, r * Power(aa * aa, e), p)
    ensures Congruent(m, r * Power(MulMod(aa, aa, m), e), p)
  {
    TruncModCongruent(aa * aa, m);
    var sq := MulMod(aa, aa, m);
    CongruentPower(m, sq, aa * aa, e);
    CongruentBasics(m, r);
    CongruentProduct(m, r, r, Power(sq, e), Power(aa * aa, e));
    CongruentTransitive(m, r * Power(sq, e), r * Power(aa * aa, e), p);
  }

  lemma NonNegativeProduct(a: int, b: int)
    requires a >= 0 && b >= 0
    ensures a * b >= 0
  {
  }

  /** Square and multiply.  With exponent zero the result is 1, which is wrong for m = 1 and only there. */
  method PowMod(a: int, b: int, m: int) returns (r: int)
    requires b >= 0 && m > 0
    ensures b == 0 ==> r == 1
    ensures b > 0 ==> Congruent(m, r, Power(a, b)) && -m < r < m
    ensures a >= 0 ==> (r == Power(a, b) % m <==> b > 0 || m > 1)
  {
    hide Congruent, MulMod, TruncMod;
    r := 1;
    var aa, e := a, b;
    CongruentBasics(m, Power(a, b));
    while true
      invariant e >= 0 && (e > 0 <==> b > 0) && (b == 0 ==> r == 1)
      invariant Congruent(m, r * Power(aa, e), Power(a, b))
      invariant a >= 0 ==> r >= 0 && aa >= 0
      decreases e
    {
      var s := r;
      if e % 2 == 1 {
        s := MulMod(r, aa, m);
        RemainderBounds(r, aa, m);
      }
      TakeBit(m, r, s, aa, e, Power(a, b));
      r := s;
      e := e / 2;
      if e == 0 { break; }
      SquareBase(m, r, aa, e, Power(a, b));
      RemainderBounds(aa, aa, m);
      aa := MulMod(aa, aa, m);
    }
    assert r * Power(aa * aa, 0) == r;
    if b > 0 && a >= 0 {
      CongruentBasics(m, Power(a, b));
      CongruentTransitive(m, r, Power(a, b), Power(a, b) % m);
      CongruentUnique(m, r, Power(a, b) % m);
    }
  }

  lemma RemainderBounds(a: int, b: int, m: int)
    requires m > 0
    ensures -m < MulMod(a, b, m) < m && (a >= 0 && b >= 0 ==> MulMod(a, b, m) >= 0)
  {
    if a >= 0 && b >= 0 { NonNegativeProduct(a, b); }
  }

  // ------------------------------------------------------------ is_prime and next_prime

  /** What is_prime accepts. */
  predicate Accepted(n: int) {
    n % 2 == 1 && (n <= 1 || Prime(n))
  }

  lemma Cofactor(n: int, d: int) returns (e: int)
    requires 2 <= d < n && n % d == 0
    ensures n == e * d && 2 <= e < n && n % e == 0
  {
    e := n / d;
    DivModBasic(n, d);
    if e <= 1 { MulLe(e, 1, d); }
    MulLe(2, d, e);
    Multiple(e, d);
  }

  /** Trial division up to the square root is enough. */
  lemma NoSmallDivisor(n: int, i: int)
    requires 2 <= n < i * i && i >= 2 && forall d :: 2 <= d < i ==> n % d != 0
    ensures Prime(n)
  {
    forall d | 2 <= d < n ensures n % d != 0 {
      if n % d == 0 {
        var e := Cofactor(n, d);
        if d >= i && e >= i { MulLe(i, d, i); MulLe(i, e, d); }
      }
    }
  }

  lemma EvenDivisor(n: int, d: int)
    requires d > 0 && d % 2 == 0 && n % d == 0
    ensures n % 2 == 0
  {
    var k := Quotient(d, n);
    assert k * d == 2 * (k * (d / 2));
  }

  lemma OddDivisors(n: int, i: int)
    requires n % 2 == 1 && i >= 3 && i % 2 == 1
    requires forall d :: 2 <= d < i ==> n % d != 0
    requires n % i != 0
    ensures forall d :: 2 <= d < i + 2 ==> n % d != 0
  {
    if n % (i + 1) == 0 { EvenDivisor(n, i + 1); }
  }

  method IsPrime(n: int) returns (b: bool)
    ensures b <==> Accepted(n)
  {
    if n % 2 == 0 { return false; }
    var i := 3;
    while i * i <= n
      invariant i >= 3 && i % 2 == 1
      invariant forall d :: 2 <= d < i ==> n % d != 0
      decreases n - i
    {
      MulLe(3, i, i);
      if n % i == 0 { return false; }
      OddDivisors(n, i);
      i := i + 2;
    }
    if n >= 2 { NoSmallDivisor(n, i); }
    return true;
  }

  /** is_prime answers primality except at 2, which it rejects, and at the odd numbers below 2, which it accepts. */
  lemma AcceptedIsPrime(n: int)
    ensures (Accepted(n) <==> Prime(n)) <==> n != 2 && (n >= 2 || n % 2 == 0)
  {
    if n > 2 && n % 2 == 0 { assert 2 <= 2 < n; }
  }

  /** The least accepted number above n; the primes being infinite, there is one. */
  method NextPrime(n: int) returns (m: int)
    ensures m > n && Accepted(m) && forall k :: n < k < m ==> !Accepted(k)
  {
    ghost var p := PrimeAbove(if n < 2 then 2 else n);
    AcceptedIsPrime(p);
    m := n;
    while true
      invariant n <= m < p
      invariant forall k :: n < k <= m ==> !Accepted(k)
      decreases p - m
    {
      m := m + 1;
      var b := IsPrime(m);
      if b { break; }
    }
  }

  /** From 2 on that is the next prime. */
  lemma NextAcceptedIsNextPrime(n: int, m: int)
    requires n >= 2 && m > n && Accepted(m) && forall k :: n < k < m ==> !Accepted(k)
    ensures Prime(m) && m % 2 == 1 && forall k :: n < k < m ==> !Prime(k)
  {
    forall k | n < k < m ensures !Prime(k) { AcceptedIsPrime(k); }
  }
}
