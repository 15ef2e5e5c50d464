/** The terms k * k! / (2k-1)!! of the series, and how often an odd prime divides them. */
module PiTerms {
  import opened Arith
  import opened NumberTheory

  lemma QuotientSmaller(t: nat, a: nat)
    requires t > 0 && a >= 2 && t % a == 0
    ensures 0 < t / a < t
  {
    DivModBasic(t, a);
    if t / a <= 0 { MulLe(t / a, 0, a); }
    MulLe(2, a, t / a);
  }

  /** How often a divides t, and what is left. */
  function Ord(t: nat, a: nat): nat
    requires t > 0 && a >= 2
  {
    if t % a == 0 then QuotientSmaller(t, a); 1 + Ord(t / a, a) else 0
  }

  function Strip(t: nat, a: nat): (r: nat)
    requires t > 0 && a >= 2
    ensures r > 0
  {
    if t % a == 0 then QuotientSmaller(t, a); Strip(t / a, a) else t
  }

  lemma {:induction false} StripOrd(t: nat, a: nat)
    requires t > 0 && a >= 2
    ensures t == Strip(t, a) * Power(a, Ord(t, a)) && !Divides(a, Strip(t, a))
  {
    if t % a == 0 {
      QuotientSmaller(t, a);
      StripOrd(t / a, a);
      DivModBasic(t, a);
      var s, p := Strip(t / a, a), Power(a, Ord(t / a, a));
      assert s * p * a == s * (a * p);
    }
  }

  /** 1 * 3 * ... * (2k-1) */
  function OddFactorial(k: nat): (f: nat)
    ensures f > 0
  {
    if k == 0 then 1 else (2 * k - 1) * OddFactorial(k - 1)
  }

  /** The factors a of k! and of (2k-1)!!, counted, and the two products without them. */
  function FactOrd(a: nat, k: nat): nat
    requires a >= 2
  {
    if k == 0 then 0 else FactOrd(a, k - 1) + Ord(k, a)
  }

  function OddOrd(a: nat, k: nat): nat
    requires a >= 2
  {
    if k == 0 then 0 else OddOrd(a, k - 1) + Ord(2 * k - 1, a)
  }

  function Num(a: nat, k: nat): (r: nat)
    requires a >= 2
    ensures r > 0
  {
    if k == 0 then 1 else Num(a, k - 1) * Strip(k, a)
  }

  function Den(a: nat, k: nat): (r: nat)
    requires a >= 2
    ensures r > 0
  {
    if k == 0 then 1 else Den(a, k - 1) * Strip(2 * k - 1, a)
  }

  lemma Regroup(x: int, p: int, s: int, q: int)
    ensures (s * q) * (x * p) == (x * s) * (p * q)
  {
    assert (s * q) * (x * p) == s * (q * (x * p));
    assert q * (x * p) == x * (p * q);
    assert s * (x * (p * q)) == (x * s) * (p * q);
  }

  lemma {:induction false} FactorialSplits(a: nat, k: nat)
    requires a >= 2
    ensures Factorial(k) == Num(a, k) * Power(a, FactOrd(a, k))
    ensures OddFactorial(k) == Den(a, k) * Power(a, OddOrd(a, k))
  {
    if k > 0 {
      FactorialSplits(a, k - 1);
      StripOrd(k, a);
      StripOrd(2 * k - 1, a);
      PowerSum(a, FactOrd(a, k - 1), Ord(k, a));
      PowerSum(a, OddOrd(a, k - 1), Ord(2 * k - 1, a));
      Regroup(Num(a, k - 1), Power(a, FactOrd(a, k - 1)), Strip(k, a), Power(a, Ord(k, a)));
      Regroup(Den(a, k - 1), Power(a, OddOrd(a, k - 1)), Strip(2 * k - 1, a), Power(a, Ord(2 * k - 1, a)));
    }
  }

  /** Taking out every factor a leaves a denominator coprime to a. */
  lemma {:induction false} DenCoprime(a: nat, k: nat)
    requires Prime(a)
    ensures Coprime(a, Den(a, k))
  {
    if k == 0 {
      CoprimeFromBezout(a, 1, 0, 1);
    } else {
      DenCoprime(a, k - 1);
      StripOrd(2 * k - 1, a);
      PrimeCoprime(a, Strip(2 * k - 1, a));
      CoprimeCommutes(a, Den(a, k - 1));
      CoprimeCommutes(a, Strip(2 * k - 1, a));
      CoprimeProduct(Den(a, k - 1), Strip(2 * k - 1, a), a);
      CoprimeCommutes(Den(a, k), a);
    }
  }

  // ------------------------------------------------------------ the exponent balance

  function Remainder(t: int, q: nat): int
    requires q > 0
  {
    t % q
  }

  function Hit(q: nat, t: int): int
    requires q > 0
  {
    if Remainder(t, q) == 0 then 1 else 0
  }

  /** Multiples of q among 1, 3, ..., 2k-1, less those among 1, ..., k. */
  function Excess(q: nat, k: nat): int
    requires q > 0
  {
    if k == 0 then 0 else Excess(q, k - 1) + Hit(q, 2 * k - 1) - Hit(q, k)
  }

  /** Where k and 2k-1 stand modulo an odd q. */
  lemma Residues(q: nat, k: nat)
    requires q >= 3 && q % 2 == 1 && k >= 1
    ensures var r := Remainder(k - 1, q);
            && 0 <= r < q
            && Remainder(k, q) == (if r == q - 1 then 0 else r + 1)
            && Remainder(2 * k - 1, q) == (if 2 * r + 1 < q then 2 * r + 1 else 2 * r + 1 - q)
  {
    var r, m := (k - 1) % q, (k - 1) / q;
    DivModBasic(k - 1, q);
    Distribute(m, 1, q);
    Associate(2, m, q);
    Distribute(2 * m, 1, q);
    if r == q - 1 { DivModUnique(k, q, m + 1, 0); } else { DivModUnique(k, q, m, r + 1); }
    if 2 * r + 1 < q { DivModUnique(2 * k - 1, q, 2 * m, 2 * r + 1); }
    else { DivModUnique(2 * k - 1, q, 2 * m + 1, 2 * r + 1 - q); }
  }

  /** The excess is 1 while k is in the upper half of a period, 0 otherwise. */
  lemma {:induction false} ExcessValue(q: nat, k: nat)
    requires q >= 3 && q % 2 == 1
    ensures Excess(q, k) == if 2 * Remainder(k, q) > q then 1 else 0
  {
    if k == 0 {
      DivModUnique(0, q, 0, 0);
    } else {
      ExcessValue(q, k - 1);
      hide Remainder;
      Residues(q, k);
    }
  }

  function SumExcess(a: nat, j: nat, k: nat): int
    requires a >= 2
  {
    if j == 0 then 0 else PowerPositive(a, j); SumExcess(a, j - 1, k) + Excess(Power(a, j), k)
  }

  /** The number of powers a, ..., a^j that divide t. */
  function Count(a: nat, j: nat, t: int): int
    requires a >= 2
  {
    if j == 0 then 0 else PowerPositive(a, j); Count(a, j - 1, t) + Hit(Power(a, j), t)
  }

  lemma {:induction false} SumExcessBounds(a: nat, j: nat, k: nat)
    requires a >= 3 && a % 2 == 1
    ensures 0 <= SumExcess(a, j, k) <= j
  {
    if j > 0 {
      SumExcessBounds(a, j - 1, k);
      OddPower(a, j);
      ExcessValue(Power(a, j), k);
    }
  }

  lemma {:induction false} OddPower(a: nat, j: nat)
    requires a >= 3 && a % 2 == 1
    ensures Power(a, j) >= 1 && Power(a, j) % 2 == 1 && (j > 0 ==> Power(a, j) >= 3)
  {
    if j > 0 {
      OddPower(a, j - 1);
      MulLe(1, Power(a, j - 1), a);
      OddProduct(a, Power(a, j - 1));
    }
  }

  lemma OddProduct(a: int, b: int)
    requires a % 2 == 1 && b % 2 == 1
    ensures a * b % 2 == 1
  {
    var k, l := a / 2, b / 2;
    assert a == 2 * k + 1 && b == 2 * l + 1;
    assert a * b == 2 * (k * b + l) + 1;
  }

  lemma {:induction false} SumExcessStep(a: nat, j: nat, k: nat)
    requires a >= 2 && k >= 1
    ensures SumExcess(a, j, k) == SumExcess(a, j, k - 1) + Count(a, j, 2 * k - 1) - Count(a, j, k)
  {
    if j > 0 {
      SumExcessStep(a, j - 1, k);
      PowerPositive(a, j);
    }
  }

  /** a^j divides t exactly when j is at most the order of t. */
  lemma {:induction false} PowerDivides(a: nat, j: nat, t: nat)
    requires a >= 2 && t > 0
    ensures Power(a, j) >= 1 && (Divides(Power(a, j), t) <==> j <= Ord(t, a))
  {
    PowerPositive(a, j);
    if j == 0 {
      Multiple(1, t);
    } else {
      PowerPositive(a, j - 1);
      assert Power(a, j) == Power(a, j - 1) * a;
      if t % a == 0 {
        QuotientSmaller(t, a);
        PowerDivides(a, j - 1, t / a);
        DivModBasic(t, a);
        DividesScaled(Power(a, j - 1), t / a, a);
      } else if Divides(Power(a, j), t) {
        Multiple(a, Power(a, j - 1));
        DividesTransitive(a, Power(a, j), t);
      }
    }
  }

  lemma {:induction false} CountIsOrd(a: nat, j: nat, t: nat)
    requires a >= 2 && t > 0
    ensures Count(a, j, t) == if j <= Ord(t, a) then j else Ord(t, a)
  {
    if j > 0 {
      CountIsOrd(a, j - 1, t);
      PowerDivides(a, j, t);
    }
  }

  /** a^vmax is the largest power of a up to the limit. */
  predicate IsLargestPower(a: nat, vmax: nat, limit: nat)
  {
    Power(a, vmax) <= limit < Power(a, vmax + 1)
  }

  lemma {:induction false} PowerMonotone(a: nat, i: nat, j: nat)
    requires a >= 1 && i <= j
    ensures Power(a, i) <= Power(a, j)
  {
    if i < j {
      PowerMonotone(a, i, j - 1);
      PowerPositive(a, j - 1);
      MulLe(1, a, Power(a, j - 1));
    }
  }

  lemma OrdBelow(a: nat, vmax: nat, limit: nat, t: nat)
    requires a >= 2 && IsLargestPower(a, vmax, limit) && 0 < t <= limit
    ensures Ord(t, a) <= vmax
  {
    if Ord(t, a) > vmax {
      PowerDivides(a, vmax + 1, t);
      DivisorIsSmaller(Power(a, vmax + 1), t);
    }
  }

  /** The balance of the factors a of (2k-1)!! against those of k! is never negative and never more than vmax. */
  lemma {:induction false} BalanceBounds(a: nat, vmax: nat, n: nat, k: nat)
    requires a >= 3 && a % 2 == 1 && IsLargestPower(a, vmax, 2 * n) && k <= n
    ensures OddOrd(a, k) - FactOrd(a, k) == SumExcess(a, vmax, k)
    ensures 0 <= OddOrd(a, k) - FactOrd(a, k) <= vmax
  {
    SumExcessBounds(a, vmax, k);
    if k > 0 {
      BalanceBounds(a, vmax, n, k - 1);
      SumExcessStep(a, vmax, k);
      OrdBelow(a, vmax, 2 * n, k);
      OrdBelow(a, vmax, 2 * n, 2 * k - 1);
      CountIsOrd(a, vmax, k);
      CountIsOrd(a, vmax, 2 * k - 1);
    } else {
      NoExcess(a, vmax);
    }
  }

  lemma {:induction false} NoExcess(a: nat, j: nat)
    requires a >= 2
    ensures SumExcess(a, j, 0) == 0
  {
    if j > 0 {
      NoExcess(a, j - 1);
      PowerPositive(a, j);
    }
  }
}
