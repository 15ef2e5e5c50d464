/** The integer loop of `digits` in firmware/archive/pi.c for one odd prime a. */
module PiDigits {
  import opened Arith
  import opened NumberTheory
  import opened PiArithmetic
  import opened PiTerms

  /** x / a^vmax and k * k! / (2k-1)!! differ by a fraction whose denominator a does not divide. */
  predicate IsTerm(a: nat, vmax: nat, k: nat, x: int)
    requires a >= 2
  {
    var av, p := Power(a, vmax), Power(a, OddOrd(a, k));
    av * p > 0 && Divides(av * p, x * OddFactorial(k) - k * Factorial(k) * av)
  }

  lemma TermFromResidue(a: nat, vmax: nat, k: nat, x: int, v: nat)
    requires a >= 2 && OddOrd(a, k) - FactOrd(a, k) == v <= vmax && Power(a, vmax) > 0
    requires Congruent(Power(a, vmax), x * Den(a, k), Num(a, k) * k * Power(a, vmax - v))
    ensures IsTerm(a, vmax, k, x)
  {
    hide Num, Den, OddOrd, FactOrd, Factorial, OddFactorial, Power, Congruent, Divides;
    var av, p, q, r := Power(a, vmax), Power(a, OddOrd(a, k)), Power(a, FactOrd(a, k)), Power(a, vmax - v);
    PowerPositive(a, OddOrd(a, k));
    FactorialSplits(a, k);
    PowerSum(a, vmax - v, OddOrd(a, k));
    PowerSum(a, vmax, FactOrd(a, k));
    Scaled(av, x, Den(a, k), Num(a, k), k, r, p, q);
  }

  lemma Scaled(av: nat, x: int, den: int, num: int, k: int, r: int, p: nat, q: int)
    requires av > 0 && p > 0 && r * p == av * q && Congruent(av, x * den, num * k * r)
    ensures av * p > 0 && Divides(av * p, x * (den * p) - k * (num * q) * av)
  {
    hide Divides;
    DividesScaled(av, x * den - num * k * r, p);
    ScaledProduct(av, x, den, num, k, r, p, q);
  }

  lemma ScaledProduct(av: int, x: int, den: int, num: int, k: int, r: int, p: int, q: int)
    requires r * p == av * q
    ensures (x * den - num * k * r) * p == x * (den * p) - k * (num * q) * av
  {
    calc {
      (x * den - num * k * r) * p;
      { Distribute(x * den, num * k * r, p); }
      x * den * p - num * k * r * p;
      { Associate(x, den, p); Associate(num * k, r, p); }
      x * (den * p) - (num * k) * (r * p);
      { Commute(av, q); Associate(num * k, q, av); }
      x * (den * p) - (num * k * q) * av;
      { Commute(num, k); Associate(k, num, q); }
      x * (den * p) - k * (num * q) * av;
    }
  }

  /** When the factors a balance, k * k! / (2k-1)!! itself has no a in its denominator. */
  lemma ZeroTerm(a: nat, vmax: nat, k: nat)
    requires a >= 2 && OddOrd(a, k) == FactOrd(a, k)
    ensures IsTerm(a, vmax, k, 0)
  {
    hide Num, Den, OddOrd, FactOrd, Factorial, OddFactorial, Power, Divides;
    var av, p := Power(a, vmax), Power(a, OddOrd(a, k));
    PowerPositive(a, OddOrd(a, k));
    PowerPositive(a, vmax);
    FactorialSplits(a, k);
    MulLe(1, av, p);
    Multiple(av * p, -(k * Num(a, k)));
    assert 0 * OddFactorial(k) - k * (Num(a, k) * p) * av == -(k * Num(a, k)) * (av * p);
  }

  /** There is only one such x modulo a^vmax. */
  lemma TermUnique(a: nat, vmax: nat, k: nat, x: int, y: int)
    requires Prime(a) && IsTerm(a, vmax, k, x) && IsTerm(a, vmax, k, y)
    requires 0 <= x < Power(a, vmax) && 0 <= y < Power(a, vmax)
    ensures x == y
  {
    hide Num, Den, OddOrd, FactOrd, Factorial, OddFactorial, Power, Divides;
    var av, p, den := Power(a, vmax), Power(a, OddOrd(a, k)), Den(a, k);
    PowerPositive(a, OddOrd(a, k));
    FactorialSplits(a, k);
    DividesSum(av * p, x * OddFactorial(k) - k * Factorial(k) * av, y * OddFactorial(k) - k * Factorial(k) * av);
    assert x * (den * p) - y * (den * p) == (den * (x - y)) * p;
    DividesScaled(av, den * (x - y), p);
    DenCoprime(a, k);
    PowerCoprime(a, vmax, den);
    CoprimeCancels(av, den, x - y);
    CongruentUnique(av, x, y) by { assert Congruent(av, x, y); }
  }

  // ------------------------------------------------------------ the loop body

  /** do { t = t / a; count++; } while (t % a == 0) */
  method StripFactor(t0: nat, a: nat) returns (t: nat, count: nat)
    requires t0 > 0 && a >= 2 && t0 % a == 0
    ensures t == Strip(t0, a) && count == Ord(t0, a)
  {
    t, count := t0, 0;
    while true
      invariant t > 0 && t % a == 0 && Strip(t, a) == Strip(t0, a) && Ord(t0, a) == count + Ord(t, a)
      decreases t
    {
      QuotientSmaller(t, a);
      t := t / a;
      count := count + 1;
      if t % a != 0 { break; }
    }
  }

  /** Multiplying t by f multiplies what it stands for. */
  lemma ScaleTerm(m: nat, t: int, d: int, x: int, f: int, f': int)
    requires m > 0 && Congruent(m, t * d, x) && Congruent(m, f, f')
    ensures Congruent(m, MulMod(t, f, m) * d, x * f')
  {
    TruncModCongruent(t * f, m);
    CongruentBasics(m, d);
    CongruentProduct(m, MulMod(t, f, m), t * f, d, d);
    CongruentProduct(m, t * d, x, f, f');
    assert t * f * d == t * d * f;
    CongruentTransitive(m, MulMod(t, f, m) * d, t * f * d, x * f');
  }

  lemma CoprimeCongruent(m: nat, a: nat, b: nat)
    requires m > 0 && Coprime(m, a) && Congruent(m, a, b)
    ensures Coprime(m, b)
  {
    var s, t := Bezout(m, a);
    var k := Quotient(m, a - b);
    assert (s + t * k) * m + t * b == s * m + t * (k * m + b);
    CoprimeFromBezout(m, b, s + t * k, t);
  }

  /** The contribution of one k with positive balance. */
  method Contribution(a: nat, vmax: nat, av: nat, k: nat, num: nat, den: nat, v: nat) returns (t: int)
    requires Prime(a) && a % 2 == 1 && av > 0 && av == Power(a, vmax) && 1 <= v <= vmax
    requires OddOrd(a, k) - FactOrd(a, k) == v
    requires Congruent(av, num, Num(a, k)) && Congruent(av, Den(a, k), den)
    ensures 0 <= t < av && IsTerm(a, vmax, k, t)
  {
    hide Num, Den, OddOrd, FactOrd, Power, Congruent, Coprime, MulMod, IsTerm;
    ghost var d := Den(a, k);
    ghost var x := Num(a, k) * k;
    PowerAtLeast(a, vmax);
    DenCoprime(a, k);
    PowerCoprime(a, vmax, d);
    CoprimeCongruent(av, d, den);
    NotZero(av, den);
    t := InvMod(den, av);
    InverseExactly(t, den, av);
    CongruentBasics(av, t);
    CongruentProduct(av, t, t, d, den);
    CongruentTransitive(av, t * d, t * den, 1);
    ScaleTerm(av, t, d, 1, num, Num(a, k));
    RemainderBounds(t, num, av);
    t := MulMod(t, num, av);
    CongruentBasics(av, k);
    ScaleTerm(av, t, d, Num(a, k), k, k);
    RemainderBounds(t, k, av);
    t := MulMod(t, k, av);
    var i := v;
    PowerZero(a);
    while i < vmax
      invariant v <= i <= vmax && 0 <= t < av
      invariant Congruent(av, t * d, x * Power(a, i - v))
    {
      CongruentBasics(av, a);
      ScaleTerm(av, t, d, x * Power(a, i - v), a, a);
      OneMore(a, i - v, x);
      RemainderBounds(t, a, av);
      t := MulMod(t, a, av);
      i := i + 1;
    }
    TermFromResidue(a, vmax, k, t, v);
  }

  lemma PowerZero(a: nat)
    ensures Power(a, 0) == 1
  {
  }

  lemma OneMore(a: nat, n: nat, x: int)
    ensures x * Power(a, n) * a == x * Power(a, n + 1)
  {
    assert Power(a, n + 1) == a * Power(a, n);
  }

  lemma PowerAtLeast(a: nat, n: nat)
    requires a >= 2 && n >= 1
    ensures Power(a, n) >= a
  {
    PowerPositive(a, n - 1);
    MulLe(1, Power(a, n - 1), a);
  }

  lemma NotZero(m: nat, x: nat)
    requires m > 1 && Coprime(m, x)
    ensures x > 0
  {
  }

  // ------------------------------------------------------------ the counters kq and kq2

  predicate CountersAt(a: nat, k: nat, kq: int, kq2: int)
    requires a >= 3 && k >= 1
  {
    kq == (k - 1) % a + 1 && 1 <= kq2 <= a + 1 && (2 * k - 1 - kq2) % a == 0
  }

  /** They reach a exactly at the multiples of a. */
  lemma CountersDetect(a: nat, k: nat, kq: int, kq2: int)
    requires a >= 3 && a % 2 == 1 && k >= 1 && CountersAt(a, k, kq, kq2)
    ensures kq >= a <==> k % a == 0
    ensures kq2 == a <==> (2 * k - 1) % a == 0
    ensures CountersAt(a, k + 1, (if kq >= a then 0 else kq) + 1, (if kq2 >= a then kq2 - a else kq2) + 2)
  {
    Residues(a, k);
    DivModBasic(k - 1, a);
    var c := Quotient(a, 2 * k - 1 - kq2);
    if kq2 < a { DivModUnique(2 * k - 1, a, c, kq2); } else { Distribute(c, 1, a); DivModUnique(2 * k - 1, a, c + 1, kq2 - a); }
    Multiple(a, c);
    Distribute(c, 1, a);
    Multiple(a, c + 1);
  }

  function Sum(xs: seq<int>): int {
    if xs == [] then 0 else Sum(xs[..|xs| - 1]) + xs[|xs| - 1]
  }

  /** terms[k-1] is the term for k. */
  predicate AllTerms(a: nat, vmax: nat, terms: seq<int>)
    requires a >= 2
  {
    forall k :: 0 <= k < |terms| ==> 0 <= terms[k] < Power(a, vmax) && IsTerm(a, vmax, k + 1, terms[k])
  }

  /** One more factor, without its powers of a. */
  method Stripped(t0: nat, a: nat, hit: bool) returns (t: nat, count: nat)
    requires t0 > 0 && a >= 2 && (hit <==> t0 % a == 0)
    ensures t == Strip(t0, a) && count == Ord(t0, a)
  {
    t, count := t0, 0;
    if hit { t, count := StripFactor(t0, a); }
  }

  lemma ProductStep(m: nat, x: int, X: int, t: int)
    requires m > 0 && x >= 0 && t >= 0 && Congruent(m, x, X)
    ensures 0 <= MulMod(x, t, m) && Congruent(m, MulMod(x, t, m), X * t)
  {
    RemainderBounds(x, t, m);
    TruncModCongruent(x * t, m);
    CongruentBasics(m, t);
    CongruentProduct(m, x, X, t, t);
    CongruentTransitive(m, MulMod(x, t, m), x * t, X * t);
  }

  lemma CongruentSymmetric(m: nat, a: int, b: int)
    requires m > 0 && Congruent(m, a, b)
    ensures Congruent(m, b, a)
  {
    Multiple(m, 0);
    DividesSum(m, 0, a - b);
  }

  lemma SumStep(m: nat, s: int, terms: seq<int>, t: int)
    requires m > 0 && 0 <= s < m && 0 <= t < m && Congruent(m, s, Sum(terms))
    ensures var r := if s + t >= m then s + t - m else s + t;
            0 <= r < m && Congruent(m, r, Sum(terms + [t]))
  {
    CongruentBasics(m, t);
    CongruentSum(m, s, Sum(terms), t, t);
    assert (terms + [t])[..|terms|] == terms;
    Multiple(m, 1);
    DividesSum(m, s + t - Sum(terms + [t]), m);
  }

  method AddTerm(a: nat, vmax: nat, N: nat, av: nat, k: nat, num: nat, den: nat, v: int, s0: int, ghost terms0: seq<int>)
    returns (s: int, ghost terms: seq<int>)
    requires Prime(a) && a % 2 == 1 && IsLargestPower(a, vmax, 2 * N) && av > 0 && av == Power(a, vmax)
    requires 1 <= k <= N && |terms0| == k - 1 && v == OddOrd(a, k) - FactOrd(a, k)
    requires Congruent(av, num, Num(a, k)) && Congruent(av, den, Den(a, k))
    requires 0 <= s0 < av && Congruent(av, s0, Sum(terms0)) && AllTerms(a, vmax, terms0)
    ensures 0 <= s < av && |terms| == k && Congruent(av, s, Sum(terms)) && AllTerms(a, vmax, terms)
  {
    hide Power, IsTerm, Num, Den, OddOrd, FactOrd, Congruent, Sum;
    BalanceBounds(a, vmax, N, k);
    s := s0;
    if v > 0 {
      CongruentSymmetric(av, den, Den(a, k));
      var t := Contribution(a, vmax, av, k, num, den, v);
      SumStep(av, s, terms0, t);
      s := s + t;
      if s >= av { s := s - av; }
      terms := terms0 + [t];
    } else {
      ZeroTerm(a, vmax, k);
      SumStep(av, s, terms0, 0);
      terms := terms0 + [0];
    }
  }

  /** The residue for one prime: modulo a^vmax it is the sum of all N terms. */
  method Residue(a: nat, vmax: nat, N: nat) returns (s: int, av: nat, ghost terms: seq<int>)
    requires Prime(a) && a % 2 == 1 && a <= 2 * N && IsLargestPower(a, vmax, 2 * N)
    ensures av == Power(a, vmax) && av > 0 && 0 <= s < av
    ensures |terms| == N && AllTerms(a, vmax, terms) && Congruent(av, s, Sum(terms))
  {
    hide Power, IsTerm, Num, Den, OddOrd, FactOrd, Strip, Ord, Congruent, MulMod, CountersAt, Sum;
    av := RaiseTo(a, vmax);
    PowerPositive(a, vmax);
    s, terms := 0, [];
    var num, den, kq, kq2 := 1, 1, 1, 1;
    var v: int := 0;
    StartOfLoop(a, av);
    var k := 1;
    while k <= N
      invariant 1 <= k <= N + 1 && |terms| == k - 1
      invariant CountersAt(a, k, kq, kq2)
      invariant v == OddOrd(a, k - 1) - FactOrd(a, k - 1)
      invariant num >= 0 && Congruent(av, num, Num(a, k - 1))
      invariant den >= 0 && Congruent(av, den, Den(a, k - 1))
      invariant 0 <= s < av && Congruent(av, s, Sum(terms)) && AllTerms(a, vmax, terms)
    {
      CountersDetect(a, k, kq, kq2);
      Unfold(a, k);
      var t, count := Stripped(k, a, kq >= a);
      v := v - count;
      if kq >= a { kq := 0; }
      kq := kq + 1;
      ProductStep(av, num, Num(a, k - 1), t);
      num := MulMod(num, t, av);
      t, count := Stripped(2 * k - 1, a, kq2 == a);
      v := v + count;
      if kq2 >= a { kq2 := kq2 - a; }
      ProductStep(av, den, Den(a, k - 1), t);
      den := MulMod(den, t, av);
      kq2 := kq2 + 2;
      s, terms := AddTerm(a, vmax, N, av, k, num, den, v, s, terms);
      k := k + 1;
    }
  }

  lemma Unfold(a: nat, k: nat)
    requires a >= 2 && k >= 1
    ensures OddOrd(a, k) == OddOrd(a, k - 1) + Ord(2 * k - 1, a) && FactOrd(a, k) == FactOrd(a, k - 1) + Ord(k, a)
    ensures Num(a, k) == Num(a, k - 1) * Strip(k, a) && Den(a, k) == Den(a, k - 1) * Strip(2 * k - 1, a)
  {
  }

  lemma StartOfLoop(a: nat, av: nat)
    requires a >= 3 && av > 0
    ensures CountersAt(a, 1, 1, 1) && OddOrd(a, 0) == FactOrd(a, 0) == 0
    ensures Congruent(av, 1, Num(a, 0)) && Congruent(av, 1, Den(a, 0)) && Congruent(av, 0, Sum([]))
  {
    CongruentBasics(av, 1);
    CongruentBasics(av, 0);
  }

  method RaiseTo(a: nat, vmax: nat) returns (av: nat)
    ensures av == Power(a, vmax)
  {
    av := 1;
    var i := 0;
    while i < vmax
      invariant 0 <= i <= vmax && av == Power(a, i)
    {
      MulLe(0, av, a);
      av := av * a;
      i := i + 1;
    }
  }
}
