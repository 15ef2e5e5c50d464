/** The combinational units of both processors, gate by gate where the gates are clever. */
module Alu {
  import opened Arith
  import opened BitVectors
  import opened Divider
  import opened Words
  import opened Decoder

  // ------------------------------------------------------------ subtraction and comparison

  const MODULUS33: int := 0x2_0000_0000

  /** {1'b0, a} + {1'b1, ~b} + 33'b1 */
  function Minus33(a: Word, b: Word): int {
    (a + (MODULUS + (MODULUS - 1 - b)) + 1) % MODULUS33
  }

  predicate LTU(a: Word, b: Word) {
    Minus33(a, b) >= MODULUS
  }

  predicate LT(a: Word, b: Word) {
    var na, nb := a >= 0x8000_0000, b >= 0x8000_0000;
    if na != nb then na else LTU(a, b)
  }

  predicate EQ(a: Word, b: Word) {
    Minus33(a, b) % MODULUS == 0
  }

  /** One 33-bit subtraction serves all six branch conditions. */
  lemma ComparisonsAreRight(a: Word, b: Word)
    ensures LTU(a, b) <==> a < b
    ensures LT(a, b) <==> Signed(a) < Signed(b)
    ensures EQ(a, b) <==> a == b
    ensures Minus33(a, b) % MODULUS == (a - b) % MODULUS
  {
  }

  predicate Taken(d: Dec, a: Word, b: Word) {
    match d.f3
    case 0 => EQ(a, b)
    case 1 => !EQ(a, b)
    case 4 => LT(a, b)
    case 5 => !LT(a, b)
    case 6 => LTU(a, b)
    case 7 => !LTU(a, b)
    case _ => false
  }

  // ------------------------------------------------------------ shifts

  /** flip32: bit i goes to bit 31 - i. */
  function Flip32(x: Bits): (r: Bits) {
    seq(32, i requires 0 <= i < 32 => x[31 - i])
  }

  /** $signed({sign, x}) >>> s, low 32 bits: copies of the sign shift in from the top. */
  function ShiftIn(sign: bool, x: Bits, s: nat): (r: Bits) {
    seq(32, i requires 0 <= i < 32 => if i + s < 32 then x[i + s] else sign)
  }

  /** x << s, low 32 bits. */
  function LeftBits(x: Bits, s: nat): (r: Bits) {
    seq(32, i requires 0 <= i < 32 => if i < s then false else x[i - s])
  }

  /** The pipeline's single right shifter, used backwards for left shifts. */
  function PipelineLeft(arith: bool, x: Bits, s: nat): Bits {
    Flip32(ShiftIn(arith && x[31], Flip32(x), s))
  }

  /** It is a left shift, unless inst[30] is set, the operand is negative and something is shifted. */
  lemma LeftShiftCorrect(arith: bool, x: Bits, s: nat)
    ensures PipelineLeft(arith, x, s) == LeftBits(x, s) <==> !(arith && x[31] && s != 0)
  {
    var l, r := PipelineLeft(arith, x, s), LeftBits(x, s);
    if arith && x[31] && s != 0 {
      assert l[0] && !r[0];
    }
  }

  /** Shifting by s is shifting by s - 1 and then by one. */
  lemma ShiftSplits(sign: bool, x: Bits, s: nat)
    requires s > 0
    ensures ShiftIn(sign, x, s) == ShiftIn(sign, x, s - 1)[1..] + [sign]
    ensures sign == x[31] ==> ShiftIn(sign, x, s - 1)[31] == sign
    ensures ShiftIn(sign, x, 0) == x
  {
  }

  lemma {:induction false} LogicalShift(x: Bits, s: nat)
    ensures Value(ShiftIn(false, x, s)) == Value(x) / Pow2(s)
  {
    hide ShiftIn, Value, Pow2;
    NoShift(x);
    if s > 0 {
      LogicalShift(x, s - 1);
      ShiftSplits(false, x, s);
      ShiftOnce(ShiftIn(false, x, s - 1), false);
      HalveAgain(Value(x), s);
    }
  }

  lemma {:induction false} ArithmeticShift(x: Bits, s: nat)
    ensures SignedValue(ShiftIn(x[31], x, s)) == SignedValue(x) / Pow2(s)
  {
    hide ShiftIn, SignedValue, Pow2;
    NoShift(x);
    if s > 0 {
      ArithmeticShift(x, s - 1);
      ShiftSplits(x[31], x, s);
      ShiftOnce(ShiftIn(x[31], x, s - 1), x[31]);
      HalveAgain(SignedValue(x), s);
    }
  }

  lemma NoShift(x: Bits)
    ensures ShiftIn(false, x, 0) == x && ShiftIn(x[31], x, 0) == x && Pow2(0) == 1
  {
  }

  lemma HalveAgain(v: int, s: nat)
    requires s > 0
    ensures v / Pow2(s - 1) / 2 == v / Pow2(s)
  {
    Pow2Step(s - 1);
    DivDiv(v, Pow2(s - 1), 2);
    Commute(2, Pow2(s - 1));
  }

  /** Shifting right by s divides by 2^s, rounding down: unsigned with zeros, signed with copies of the sign. */
  lemma RightShiftDivides(x: Bits, s: nat)
    ensures Value(ShiftIn(false, x, s)) == Value(x) / Pow2(s)
    ensures SignedValue(ShiftIn(x[31], x, s)) == SignedValue(x) / Pow2(s)
  {
    LogicalShift(x, s);
    ArithmeticShift(x, s);
  }

  /** Dropping the lowest bit and appending a top bit. */
  lemma ShiftOnce(x: Bits, top: bool)
    ensures !top ==> Value(x[1..] + [top]) == Value(x) / 2
    ensures top == x[31] ==> SignedValue(x[1..] + [top]) == SignedValue(x) / 2
  {
    TopBit(x);
    TopBit(x[1..] + [top]);
    assert (x[1..] + [top])[..31] == x[1..];
    AppendBit(x[1..31], x[31], 30);
    assert x[1..] == x[1..31] + [x[31]];
    assert x[..31][1..] == x[1..31];
    Pow2Table();
    assert Pow2(31) == 2 * Pow2(30);
  }

  /** The top bit weighs 2^31 unsigned and -2^31 signed. */
  lemma TopBit(x: Bits)
    ensures Value(x) == Value(x[..31]) + (if x[31] then 0x8000_0000 else 0)
    ensures SignedValue(x) == Value(x[..31]) - (if x[31] then 0x8000_0000 else 0)
  {
    Pow2Table();
    AppendBit(x[..31], x[31], 31);
    assert x == x[..31] + [x[31]];
  }

  lemma {:induction false} AppendBit(x: seq<bool>, b: bool, n: nat)
    requires |x| == n
    ensures Value(x + [b]) == Value(x) + (if b then Pow2(n) else 0)
  {
    if n > 0 {
      AppendBit(x[1..], b, n - 1);
      assert (x + [b])[1..] == x[1..] + [b];
    } else {
      assert x + [b] == [b];
      assert Value([b][1..]) == 0;
    }
  }

  /** The amount is the low five bits of the second operand. */
  function RightShift(arith: bool, a: Word, b: Word): Word {
    var x := ToBits(a);
    FromBits(ShiftIn(arith && x[31], x, b % 32))
  }

  function LeftShiftPipe(arith: bool, a: Word, b: Word): Word {
    FromBits(PipelineLeft(arith, ToBits(a), b % 32))
  }

  function LeftShiftSeq(a: Word, b: Word): Word {
    FromBits(LeftBits(ToBits(a), b % 32))
  }

  function Bitwise(f: (bool, bool) -> bool, a: Word, b: Word): Word {
    var x, y := ToBits(a), ToBits(b);
    FromBits(seq(32, i requires 0 <= i < 32 => f(x[i], y[i])))
  }

  function Xor(a: Word, b: Word): Word {
    Bitwise((p, q) => p != q, a, b)
  }

  function Or(a: Word, b: Word): Word {
    Bitwise((p, q) => p || q, a, b)
  }

  function And(a: Word, b: Word): Word {
    Bitwise((p, q) => p && q, a, b)
  }

  // ------------------------------------------------------------ the two base ALUs

  /** inst[30], which both processors read as funct7[5]. */
  predicate Bit30(d: Dec) {
    d.f7 / 32 % 2 == 1
  }

  function AddSub(d: Dec, a: Word, b: Word): Word {
    if Bit30(d) && d.op == ALUR then Minus33(a, b) % MODULUS else Add(a, b)
  }

  function Truth(b: bool): Word {
    if b then 1 else 0
  }

  /** E_aluOutBase: DE_funct3_is is one-hot, so exactly one term of the OR is live. */
  function AluPipe(d: Dec, a: Word, b: Word): Word {
    match d.f3
    case 0 => AddSub(d, a, b)
    case 1 => LeftShiftPipe(Bit30(d), a, b)
    case 2 => Truth(LT(a, b))
    case 3 => Truth(LTU(a, b))
    case 4 => Xor(a, b)
    case 5 => RightShift(Bit30(d), a, b)
    case 6 => Or(a, b)
    case _ => And(a, b)
  }

  /** aluOut of the sequential processor. */
  function AluSeq(d: Dec, a: Word, b: Word): Word {
    match d.f3
    case 0 => AddSub(d, a, b)
    case 1 => LeftShiftSeq(a, b)
    case 2 => Truth(LT(a, b))
    case 3 => Truth(LTU(a, b))
    case 4 => Xor(a, b)
    case 5 => RightShift(Bit30(d), a, b)
    case 6 => Or(a, b)
    case _ => And(a, b)
  }

  /** A left shift with inst[30] set that moves a negative operand. */
  predicate OddShift(d: Dec, a: Word, b: Word) {
    d.f3 == 1 && Bit30(d) && a >= 0x8000_0000 && b % 32 != 0
  }

  /** The two base ALUs compute the same result exactly when this is not such a shift. */
  lemma AlusAgree(d: Dec, a: Word, b: Word)
    ensures AluPipe(d, a, b) == AluSeq(d, a, b) <==> !OddShift(d, a, b)
  {
    hide PipelineLeft, LeftBits, ToBits, FromBits, LT, LTU, AddSub, RightShift, Xor, Or, And;
    if d.f3 == 1 {
      var x := ToBits(a);
      LeftShiftCorrect(Bit30(d), x, b % 32);
      SignBit(a);
      if OddShift(d, a, b) { LowestBits(Bit30(d), x, b % 32); }
    }
  }

  lemma SignBit(a: Word)
    ensures ToBits(a)[31] <==> a >= 0x8000_0000
  {
    hide ToBits, Signed;
    WordRoundTrip(a);
    TopBit(ToBits(a));
    Pow2Table();
  }

  /** The two results of such a shift differ already in bit 0. */
  lemma LowestBits(arith: bool, x: Bits, s: nat)
    requires arith && x[31] && 0 < s < 32
    ensures FromBits(PipelineLeft(arith, x, s)) != FromBits(LeftBits(x, s))
  {
    var l, r := PipelineLeft(arith, x, s), LeftBits(x, s);
    assert l[0] && !r[0];
    Parity(l);
    Parity(r);
  }

  lemma Parity(x: Bits)
    ensures FromBits(x) % 2 == 1 <==> x[0]
  {
  }

  // ------------------------------------------------------------ what the base ALU computes

  /** Shifted left by s, with the vacated places filled. */
  function FillLeft(fill: bool, x: Bits, s: nat): Bits {
    seq(32, i requires 0 <= i < 32 => if i < s then fill else x[i - s])
  }

  lemma PipelineLeftFills(arith: bool, x: Bits, s: nat)
    ensures PipelineLeft(arith, x, s) == FillLeft(arith && x[31], x, s)
    ensures LeftBits(x, s) == FillLeft(false, x, s) && FillLeft(arith, x, 0) == x
  {
  }

  /** Shifting left multiplies by 2^s modulo 2^32; ones shifted in add 2^s - 1. */
  lemma {:induction false} FillValue(fill: bool, x: Bits, s: nat)
    requires s < 32
    ensures Value(FillLeft(fill, x, s)) == (Value(x) * Pow2(s) + if fill then Pow2(s) - 1 else 0) % MODULUS
  {
    hide Value, Pow2, FillLeft;
    PipelineLeftFills(fill, x, 0);
    NoShift(x);
    WordValue(x);
    if s > 0 {
      FillValue(fill, x, s - 1);
      FillOnce(fill, x, s);
      Pow2Step(s - 1);
      Associate(Value(x), Pow2(s - 1), 2);
      Commute(Pow2(s - 1), 2);
      var u := Value(x) * Pow2(s - 1) + if fill then Pow2(s - 1) - 1 else 0;
      assert Value(x) * Pow2(s) + (if fill then Pow2(s) - 1 else 0) == 2 * u + if fill then 1 else 0;
      DoubleMod(u, if fill then 1 else 0);
    }
  }

  lemma WordValue(x: Bits)
    ensures 0 <= Value(x) < MODULUS
  {
    Pow2Table();
  }

  lemma DoubleMod(u: int, b: int)
    ensures (2 * (u % MODULUS) + b) % MODULUS == (2 * u + b) % MODULUS
  {
  }

  lemma FillOnce(fill: bool, x: Bits, s: nat)
    requires 0 < s < 32
    ensures Value(FillLeft(fill, x, s)) == (2 * Value(FillLeft(fill, x, s - 1)) + if fill then 1 else 0) % MODULUS
  {
    var y, z := FillLeft(fill, x, s - 1), FillLeft(fill, x, s);
    assert z == [fill] + y[..31];
    assert z[1..] == y[..31];
    Pow2Table();
    TopBit(y);
    hide FillLeft;
    assert Value(z) == (if fill then 1 else 0) + 2 * Value(y[..31]);
  }

  /** The bitwise operations, bit by bit. */
  lemma BitwiseMeans(a: Word, b: Word, k: nat)
    requires k < 32
    ensures BitOf(Xor(a, b), k) == (BitOf(a, k) != BitOf(b, k))
    ensures BitOf(Or(a, b), k) == (BitOf(a, k) || BitOf(b, k))
    ensures BitOf(And(a, b), k) == (BitOf(a, k) && BitOf(b, k))
  {
    hide BitOf, BitsOf, Value;
    BitsAt(a, 32, k);
    BitsAt(b, 32, k);
    var x, y := ToBits(a), ToBits(b);
    ValueAt(seq(32, i requires 0 <= i < 32 => x[i] != y[i]), k);
    ValueAt(seq(32, i requires 0 <= i < 32 => x[i] || y[i]), k);
    ValueAt(seq(32, i requires 0 <= i < 32 => x[i] && y[i]), k);
    SameBits(a, b);
  }

  lemma SameBits(a: Word, b: Word)
    ensures var x, y := ToBits(a), ToBits(b);
            && Xor(a, b) == FromBits(seq(32, i requires 0 <= i < 32 => x[i] != y[i]))
            && Or(a, b) == FromBits(seq(32, i requires 0 <= i < 32 => x[i] || y[i]))
            && And(a, b) == FromBits(seq(32, i requires 0 <= i < 32 => x[i] && y[i]))
  {
    hide BitsOf, Value;
    var x, y := ToBits(a), ToBits(b);
    assert seq(32, i requires 0 <= i < 32 => ((p: bool, q: bool) => p != q)(x[i], y[i])) == seq(32, i requires 0 <= i < 32 => x[i] != y[i]);
    assert seq(32, i requires 0 <= i < 32 => ((p: bool, q: bool) => p || q)(x[i], y[i])) == seq(32, i requires 0 <= i < 32 => x[i] || y[i]);
    assert seq(32, i requires 0 <= i < 32 => ((p: bool, q: bool) => p && q)(x[i], y[i])) == seq(32, i requires 0 <= i < 32 => x[i] && y[i]);
  }

  /** The right shift, as a quotient rounded down. */
  lemma RightShiftMeans(arith: bool, a: Word, b: Word)
    ensures if arith then Signed(RightShift(arith, a, b)) == Signed(a) / Pow2(b % 32)
            else RightShift(arith, a, b) == a / Pow2(b % 32)
  {
    hide ToBits, ShiftIn, Value, Signed, Pow2;
    var x := ToBits(a);
    WordRoundTrip(a);
    RightShiftDivides(x, b % 32);
  }

  /** The left shift of the pipeline, with its ones. */
  lemma LeftShiftMeans(arith: bool, a: Word, b: Word)
    ensures LeftShiftPipe(arith, a, b)
         == (a * Pow2(b % 32) + if arith && a >= 0x8000_0000 then Pow2(b % 32) - 1 else 0) % MODULUS
    ensures LeftShiftSeq(a, b) == (a * Pow2(b % 32)) % MODULUS
  {
    hide ToBits, PipelineLeft, LeftBits, FillLeft, Value, Pow2;
    var x, s := ToBits(a), b % 32;
    WordRoundTrip(a);
    SignBit(a);
    PipelineLeftFills(arith, x, s);
    FillValue(arith && x[31], x, s);
    FillValue(false, x, s);
  }

  /** What the base ALU of the pipeline computes, for every instruction and operands: sums and differences modulo
      2^32, products and quotients by a power of two, comparisons of the signed and unsigned readings, and the three
      bitwise operations. */
  lemma AluMeans(d: Dec, a: Word, b: Word)
    requires 0 <= d.f3 < 8
    ensures var r := AluPipe(d, a, b); var alt := d.f7 / 32 % 2 == 1; var p := Pow2(b % 32);
            match d.f3
            case 0 => r == (if alt && d.op == 12 then a - b else a + b) % 0x1_0000_0000
            case 1 => r == (a * p + if alt && a >= 0x8000_0000 then p - 1 else 0) % 0x1_0000_0000
            case 2 => r == if Signed(a) < Signed(b) then 1 else 0
            case 3 => r == if a < b then 1 else 0
            case 4 => forall k: nat | k < 32 :: BitOf(r, k) == (BitOf(a, k) != BitOf(b, k))
            case 5 => if alt then Signed(r) == Signed(a) / p else r == a / p
            case 6 => forall k: nat | k < 32 :: BitOf(r, k) == (BitOf(a, k) || BitOf(b, k))
            case _ => forall k: nat | k < 32 :: BitOf(r, k) == (BitOf(a, k) && BitOf(b, k))
  {
    hide LeftShiftPipe, RightShift, Xor, Or, And, Minus33, LT, LTU, Pow2, BitOf;
    ComparisonsAreRight(a, b);
    LeftShiftMeans(Bit30(d), a, b);
    RightShiftMeans(Bit30(d), a, b);
    forall k: nat | k < 32
      ensures BitOf(Xor(a, b), k) == (BitOf(a, k) != BitOf(b, k))
      ensures BitOf(Or(a, b), k) == (BitOf(a, k) || BitOf(b, k))
      ensures BitOf(And(a, b), k) == (BitOf(a, k) && BitOf(b, k))
    {
      BitwiseMeans(a, b, k);
    }
  }

  /** The six branch conditions; the two unused encodings never branch. */
  lemma TakenMeans(d: Dec, a: Word, b: Word)
    ensures Taken(d, a, b) <==>
              || (d.f3 == 0 && a == b) || (d.f3 == 1 && a != b)
              || (d.f3 == 4 && Signed(a) < Signed(b)) || (d.f3 == 5 && Signed(a) >= Signed(b))
              || (d.f3 == 6 && a < b) || (d.f3 == 7 && a >= b)
  {
    hide LT, LTU, EQ, Signed;
    ComparisonsAreRight(a, b);
  }

  // ------------------------------------------------------------ multiplication

  const MODULUS64: int := 0x1_0000_0000_0000_0000

  /** A 33-bit operand: sign extended when the opcode asks for it. */
  function MulOperand(signed: bool, a: Word): int {
    if signed then Signed(a) else a
  }

  /** E_aluOutM for MUL (funct3 0), MULH (1), MULHSU (2) and MULHU (3). */
  function MulOut(f3: int, a: Word, b: Word): Word {
    var p := MulOperand(f3 == 1, a) * MulOperand(f3 == 1 || f3 == 2, b);
    if f3 == 0 then p % MODULUS64 % MODULUS else p % MODULUS64 / MODULUS
  }

  /** Upper 32 bits of a product of any sign, as section 7.1 of the RISC-V Unprivileged ISA asks for them. */
  function High(p: int): Word {
    p / MODULUS % MODULUS
  }

  lemma HighOf64(p: int)
    ensures p % MODULUS64 / MODULUS == High(p)
    ensures p % MODULUS64 % MODULUS == p % MODULUS
  {
  }

  lemma MultiplyIsIsa(a: Word, b: Word)
    ensures MulOut(0, a, b) == (a * b) % MODULUS
    ensures MulOut(1, a, b) == High(Signed(a) * Signed(b))
    ensures MulOut(2, a, b) == High(a * Signed(b))
    ensures MulOut(3, a, b) == High(a * b)
  {
    HighOf64(a * b);
    HighOf64(a * Signed(b));
    HighOf64(Signed(a) * Signed(b));
  }

  /** MULHSU multiplies unsigned rs1 by signed rs2, the ISA signed rs1 by unsigned rs2.  The two agree exactly
      when the operand whose partner is negative is the same on both sides. */
  lemma MulhsuAgreement(a: Word, b: Word)
    ensures MulOut(2, a, b) == High(Signed(a) * b) <==>
            (if b >= 0x8000_0000 then a else 0) == (if a >= 0x8000_0000 then b else 0)
  {
    hide High, MODULUS64;
    var k1 := if b >= 0x8000_0000 then a else 0;
    var k2 := if a >= 0x8000_0000 then b else 0;
    HighOf64(a * Signed(b));
    SignedFactor(a, b);
    SignedFactor(b, a);
    HighMinus(a * b, k1);
    HighMinus(a * b, k2);
    DistinctMod(High(a * b), k1, k2);
  }

  lemma SignedFactor(a: Word, b: Word)
    ensures a * Signed(b) == a * b - (if b >= 0x8000_0000 then a else 0) * MODULUS
    ensures Signed(b) * a == a * Signed(b)
  {
    Distribute(b, MODULUS, a);
  }

  lemma DistinctMod(h: Word, k1: Word, k2: Word)
    ensures (h - k1) % MODULUS == (h - k2) % MODULUS <==> k1 == k2
  {
  }

  lemma HighMinus(p: int, k: Word)
    ensures High(p - k * MODULUS) == (High(p) - k) % MODULUS
  {
  }

  /** 2 * -1 (rs1 = 2, rs2 = 0xffffffff) shows the difference. */
  lemma MulhsuDiffers()
    ensures MulOut(2, 2, 0xffff_ffff) == 0xffff_ffff && High(Signed(2) * 0xffff_ffff) == 1
  {
  }
}
