/** The restoring divider of the execute unit: one clock to load, thirty-two to shift. */
module Divider {
  import opened Arith
  import opened Words

  /** EE_dividend, EE_divisor (63 bits), EE_quotient, EE_quotientMsk, EE_divSign and the two status bits. */
  datatype DivReg = DivReg(
    dividend: nat, divisor: nat, quotient: nat, msk: nat, sign: bool, busy: bool, finished: bool)

  function Neg(a: Word): Word {
    (MODULUS - a) % MODULUS
  }

  predicate Negative(a: Word) {
    a >= 0x8000_0000
  }

  /** funct3[0] marks the unsigned forms: they take the operand as it is. */
  function Magnitude(f3: int, a: Word): Word {
    if f3 % 2 == 0 && Negative(a) then Neg(a) else a
  }

  function SignOut(f3: int, a: Word, b: Word): bool {
    f3 % 2 == 0 && (if f3 / 2 % 2 == 1 then Negative(a) else Negative(a) != Negative(b) && b != 0)
  }

  /** OR with a mask that is zero or one-hot. */
  function OrBit(q: nat, m: nat): nat {
    if m > 0 && q / m % 2 == 0 then q + m else q
  }

  /** The registers loaded on the clock that starts a division. */
  function DivStart(f3: int, a: Word, b: Word): DivReg {
    DivReg(Magnitude(f3, a), Magnitude(f3, b) * 0x8000_0000, 0, 0x8000_0000, SignOut(f3, a, b), true, false)
  }

  /** One clock while EE_divBusy is set. */
  function DivTick(e: DivReg): DivReg {
    var step := e.divisor <= e.dividend;
    DivReg(
      if step then (e.dividend - e.divisor % MODULUS) % MODULUS else e.dividend,
      e.divisor / 2,
      if step then OrBit(e.quotient, e.msk) else e.quotient,
      e.msk / 2, e.sign, e.msk % 2 == 0, e.msk % 2 == 1)
  }

  /** The registers once EE_divBusy has dropped. */
  function Finish(e: DivReg): DivReg
    decreases e.msk
  {
    if e.busy && e.msk > 0 then Finish(DivTick(e)) else e
  }

  /** How many clocks that takes. */
  function Ticks(e: DivReg): nat
    decreases e.msk
  {
    if e.busy && e.msk > 0 then 1 + Ticks(DivTick(e)) else 0
  }

  function Negate(sign: bool, q: nat): Word {
    if sign then Neg(q % MODULUS) else q % MODULUS
  }

  /** The divide half of the M-extension result mux. */
  function DivOut(f3: int, e: DivReg): Word {
    Negate(e.sign, if f3 / 2 % 2 == 1 then e.dividend else e.quotient)
  }

  /** What a DIV, DIVU, REM or REMU instruction finally delivers. */
  function Quotient(f3: int, a: Word, b: Word): Word {
    DivOut(f3, Finish(DivStart(f3, a, b)))
  }

  // ------------------------------------------------------------------ correctness

  /** Truncating division and its remainder, as section 7.2 of the RISC-V Unprivileged ISA defines them. */
  function Trunc(a: int, b: int): int
    requires b != 0
  {
    var q := Abs(a) / Abs(b);
    if (a < 0) != (b < 0) then -q else q
  }

  /** The sign of the remainder is that of the dividend: a == b * Trunc(a, b) + Rem(a, b). */
  function Rem(a: int, b: int): int
    requires b != 0
  {
    a - b * Trunc(a, b)
  }

  function Abs(a: int): nat {
    if a < 0 then -a else a
  }

  function IsaDivide(f3: int, a: Word, b: Word): Word {
    match f3
    case 4 => if b == 0 then Wrap(-1) else Wrap(Trunc(Signed(a), Signed(b)))
    case 5 => if b == 0 then Wrap(-1) else a / b
    case 6 => if b == 0 then a else Wrap(Rem(Signed(a), Signed(b)))
    case _ => if b == 0 then a else a % b
  }

  /** The loop invariant of the divider, j shift clocks after loading operands of magnitude A and B:
      `h` is the part of the quotient that is already known. */
  ghost predicate Partial(e: DivReg, A: nat, B: nat, j: nat, h: nat)
    requires j <= 32
  {
    && e.busy == (j < 32)
    && e.finished == (j == 32)
    && e.msk == (if j < 32 then Pow2(31 - j) else 0)
    && (j < 32 ==> e.divisor == B * Pow2(31 - j))
    && e.quotient == h * Pow2(32 - j)
    && A == e.quotient * B + e.dividend
    && e.quotient + Pow2(32 - j) <= MODULUS
    && (B > 0 ==> e.dividend < B * Pow2(32 - j))
    && (B == 0 ==> e.quotient + Pow2(32 - j) == MODULUS)
  }

  lemma Pow2Table()
    ensures Pow2(31) == 0x8000_0000 && Pow2(32) == MODULUS
  {
    assert Pow2(8) == 256;
    assert Pow2(16) == 65536;
    assert Pow2(24) == 0x100_0000;
    assert Pow2(31) == 0x8000_0000;
  }

  /** Exactly one bit set. */
  predicate OneHot(m: nat) {
    m == 1 || (m > 0 && m % 2 == 0 && OneHot(m / 2))
  }

  lemma {:induction false} Pow2OneHot(n: nat)
    ensures OneHot(Pow2(n))
  {
    if n > 0 { Pow2OneHot(n - 1); }
  }

  lemma MaskOneHot()
    ensures OneHot(0x8000_0000)
  {
    Pow2Table();
    Pow2OneHot(31);
  }

  /** The known part of the quotient is clear where the mask points. */
  lemma ClearBit(h: nat, m: nat)
    requires m > 0
    ensures OrBit(h * (2 * m), m) == (2 * h + 1) * m
  {
    var q := h * (2 * m);
    assert q == (2 * h) * m;
    DivModUnique(q, m, 2 * h, 0);
  }

  /** Subtracting the shifted divisor moves one unit of the mask into the quotient. */
  lemma Subtract(A: nat, B: nat, q: nat, r: nat, h: nat, m: nat)
    requires A == q * B + r && q == h * (2 * m)
    ensures A == (q + m) * B + (r - B * m) && q + m == (2 * h + 1) * m && q == (2 * h) * m
    ensures B * (2 * m) == 2 * (B * m)
  {
    Distribute(q, m, B);
    Distribute(2 * h, 1, m);
  }

  /** One shift clock preserves the invariant. */
  lemma PartialStep(e: DivReg, A: nat, B: nat, j: nat, h: nat) returns (h': nat)
    requires j < 32 && A < MODULUS && Partial(e, A, B, j, h)
    ensures Partial(DivTick(e), A, B, j + 1, h')
  {
    hide Pow2, OrBit;
    var m := Pow2(31 - j);
    HalveMask(j, B);
    Subtract(A, B, e.quotient, e.dividend, h, m);
    MulLe(0, e.quotient, B);
    if e.divisor <= e.dividend {
      h' := 2 * h + 1;
      ClearBit(h, m);
      assert DivTick(e).dividend == e.dividend - B * m;
      assert DivTick(e).quotient == e.quotient + m;
    } else {
      h' := 2 * h;
      assert B > 0;
    }
  }

  lemma HalveMask(j: nat, B: nat)
    requires j < 32
    ensures Pow2(32 - j) == 2 * Pow2(31 - j)
    ensures Pow2(31 - j) % 2 == (if j == 31 then 1 else 0)
    ensures Pow2(31 - j) / 2 == (if j == 31 then 0 else Pow2(30 - j))
    ensures j < 31 ==> B * Pow2(31 - j) / 2 == B * Pow2(30 - j)
  {
    if j < 31 {
      assert Pow2(31 - j) == 2 * Pow2(30 - j);
      assert B * Pow2(31 - j) == 2 * (B * Pow2(30 - j));
    }
  }

  /** From any intermediate state the divider finishes in the remaining clocks, with the whole quotient known. */
  lemma {:induction false} FinishInvariant(e: DivReg, A: nat, B: nat, j: nat, h: nat) returns (h': nat)
    requires j <= 32 && A < MODULUS && Partial(e, A, B, j, h)
    ensures Partial(Finish(e), A, B, 32, h') && Finish(e).sign == e.sign
    ensures Ticks(e) == 32 - j
    decreases 32 - j
  {
    if j == 32 {
      h' := h;
    } else {
      h' := PartialStep(e, A, B, j, h);
      h' := FinishInvariant(DivTick(e), A, B, j + 1, h');
    }
  }

  lemma StartInvariant(f3: int, a: Word, b: Word)
    ensures Partial(DivStart(f3, a, b), Magnitude(f3, a), Magnitude(f3, b), 0, 0)
  {
    Pow2Table();
    var B := Magnitude(f3, b);
    if B > 0 { MulLe(1, B, MODULUS); }
  }

  /** A division is busy for exactly thirty-two clocks after the one that starts it. */
  lemma DivisionLength(f3: int, a: Word, b: Word)
    ensures Ticks(DivStart(f3, a, b)) == 32
  {
    StartInvariant(f3, a, b);
    var h := FinishInvariant(DivStart(f3, a, b), Magnitude(f3, a), Magnitude(f3, b), 0, 0);
  }

  lemma MagnitudeAbs(f3: int, a: Word)
    ensures Magnitude(f3, a) == if f3 % 2 == 0 then Abs(Signed(a)) else a
    ensures Magnitude(f3, a) == 0 <==> a == 0
  {
  }

  lemma SignedRemainder(a: int, b: int)
    requires b != 0
    ensures Rem(a, b) == if a < 0 then -(Abs(a) % Abs(b)) else Abs(a) % Abs(b)
  {
    DivModBasic(Abs(a), Abs(b));
    SignRules(b, Abs(a) / Abs(b));
  }

  /** Quotient or remainder of two magnitudes, as the registers end up when the divisor may be zero. */
  function Unsigned(f3: int, A: nat, B: nat): int {
    if f3 / 2 % 2 == 1 then (if B == 0 then A else A % B) else if B == 0 then MODULUS - 1 else A / B
  }

  lemma FinalQuotient(e: DivReg, A: nat, B: nat, h: nat)
    requires A < MODULUS && Partial(e, A, B, 32, h)
    ensures e.quotient == (if B == 0 then MODULUS - 1 else A / B) && e.quotient < MODULUS
    ensures e.dividend == (if B == 0 then A else A % B) && e.dividend < MODULUS
  {
    assert Pow2(0) == 1;
    if B > 0 {
      DivModUnique(A, B, e.quotient, e.dividend);
    }
  }

  /** The outcome of the thirty-two steps, up to sign. */
  lemma QuotientForm(f3: int, a: Word, b: Word)
    ensures var u := Unsigned(f3, Magnitude(f3, a), Magnitude(f3, b));
            0 <= u < MODULUS && Quotient(f3, a, b) == Wrap(if SignOut(f3, a, b) then -u else u)
  {
    hide Finish, DivStart, Magnitude, Partial, SignOut, Negate, Wrap;
    var A, B := Magnitude(f3, a), Magnitude(f3, b);
    StartInvariant(f3, a, b);
    StartSign(f3, a, b);
    var h := FinishInvariant(DivStart(f3, a, b), A, B, 0, 0);
    var e := Finish(DivStart(f3, a, b));
    FinalQuotient(e, A, B, h);
    NegateIsMinus(e.sign, e.quotient);
    NegateIsMinus(e.sign, e.dividend);
  }

  lemma NegateIsMinus(sign: bool, q: int)
    requires 0 <= q < MODULUS
    ensures Negate(sign, q) == Wrap(if sign then -q else q)
  {
  }

  lemma StartSign(f3: int, a: Word, b: Word)
    ensures DivStart(f3, a, b).sign == SignOut(f3, a, b)
  {
  }

  lemma DivIsIsa(a: Word, b: Word)
    ensures Quotient(4, a, b) == IsaDivide(4, a, b)
  {
    hide Quotient, Magnitude, Wrap;
    QuotientForm(4, a, b);
    MagnitudeAbs(4, a);
    MagnitudeAbs(4, b);
    MinusOne();
  }

  lemma MinusOne()
    ensures Wrap(MODULUS - 1) == Wrap(-1)
  {
  }

  lemma WrapSigned(a: Word)
    ensures Wrap(Signed(a)) == a && Wrap(a) == a
  {
  }

  lemma RemIsIsa(a: Word, b: Word)
    ensures Quotient(6, a, b) == IsaDivide(6, a, b)
  {
    hide Quotient, Magnitude, Wrap, Rem;
    QuotientForm(6, a, b);
    MagnitudeAbs(6, a);
    MagnitudeAbs(6, b);
    WrapSigned(a);
    if b != 0 { SignedRemainder(Signed(a), Signed(b)); }
  }

  lemma UnsignedIsIsa(f3: int, a: Word, b: Word)
    requires f3 == 5 || f3 == 7
    ensures Quotient(f3, a, b) == IsaDivide(f3, a, b)
  {
    hide Quotient, Magnitude;
    QuotientForm(f3, a, b);
    MagnitudeAbs(f3, a);
    MagnitudeAbs(f3, b);
  }

  /** The thirty-two steps compute exactly what the ISA prescribes, division by zero and overflow included. */
  lemma QuotientIsIsa(f3: int, a: Word, b: Word)
    requires 4 <= f3 < 8
    ensures Quotient(f3, a, b) == IsaDivide(f3, a, b)
  {
    hide Quotient, IsaDivide;
    DivIsIsa(a, b);
    RemIsIsa(a, b);
    if f3 == 5 || f3 == 7 { UnsignedIsIsa(f3, a, b); }
  }
}
