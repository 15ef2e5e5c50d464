/** The instruction formats of the RISC-V Unprivileged ISA (20191213, sections 2.2 and 2.3), and the decoder as their inverse. */
module Encoding {
  import opened Arith
  import opened Words
  import opened Decoder

  /** The fixed fields of a full-width instruction word: opcode bits 6:2, rd, funct3, rs1, rs2 and funct7. */
  datatype Fields = Fields(op: int, rd: int, f3: int, rs1: int, rs2: int, f7: int)

  predicate InRange(f: Fields) {
    0 <= f.op < 32 && 0 <= f.rd < 32 && 0 <= f.f3 < 8 && 0 <= f.rs1 < 32 && 0 <= f.rs2 < 32 && 0 <= f.f7 < 128
  }

  function Layout(f: Fields): (i: Word)
    requires InRange(f)
  {
    3 + 0x4 * f.op + 0x80 * f.rd + 0x1000 * f.f3 + 0x8000 * f.rs1 + 0x10_0000 * f.rs2 + 0x200_0000 * f.f7
  }

  /** Register to register. */
  function RType(op: int, f3: int, f7: int, rd: Reg, rs1: Reg, rs2: Reg): Fields {
    Fields(op, rd, f3, rs1, rs2, f7)
  }

  /** imm[11:0] above rs1. */
  function IType(op: int, f3: int, rd: Reg, rs1: Reg, imm: int): Fields {
    var u := imm % 0x1000;
    Fields(op, rd, f3, rs1, u % 32, u / 32)
  }

  /** imm[11:5] above rs2, imm[4:0] in place of rd. */
  function SType(op: int, f3: int, rs1: Reg, rs2: Reg, imm: int): Fields {
    var u := imm % 0x1000;
    Fields(op, u % 32, f3, rs1, rs2, u / 32)
  }

  /** imm[12|10:5] above rs2, imm[4:1|11] in place of rd. */
  function BType(op: int, f3: int, rs1: Reg, rs2: Reg, off: int): Fields {
    var u := off % 0x2000;
    Fields(op, u / 2 % 16 * 2 + u / 0x800 % 2, f3, rs1, rs2, u / 0x1000 * 64 + u / 32 % 64)
  }

  /** imm[31:12] above rd. */
  function UType(op: int, rd: Reg, imm: int): Fields {
    Fields(op, rd, imm % 8, imm / 8 % 32, imm / 0x100 % 32, imm / 0x2000)
  }

  /** imm[20|10:1|11|19:12] above rd. */
  function JType(op: int, rd: Reg, off: int): Fields {
    var u := off % 0x20_0000;
    var low, high := u / 2 % 0x400, u / 0x1000 % 0x100;
    Fields(op, rd, high % 8, high / 8, low % 16 * 2 + u / 0x800 % 2, u / 0x10_0000 * 64 + low / 16)
  }

  lemma ShortInRange(op: int, f3: int, r: Reg, r': Reg, imm: int)
    requires 0 <= op < 32 && 0 <= f3 < 8
    ensures InRange(IType(op, f3, r, r', imm)) && InRange(SType(op, f3, r, r', imm))
  {
  }

  lemma UpperInRange(op: int, rd: Reg, imm: int)
    requires 0 <= op < 32 && 0 <= imm < 0x10_0000
    ensures InRange(UType(op, rd, imm))
  {
  }

  // ------------------------------------------------------------ decoding undoes encoding

  lemma SliceAt(i: Word, lo: nat, width: nat, high: int, mid: int, low: int)
    requires lo > 0 && width > 0 && i == (high * width + mid) * lo + low && 0 <= mid < width && 0 <= low < lo
    ensures Slice(i, lo, width) == mid && i / lo == high * width + mid
  {
    DivModUnique(i, lo, high * width + mid, low);
    DivModUnique(high * width + mid, width, high, mid);
  }

  lemma DecodeFixed(f: Fields)
    requires InRange(f)
    ensures var i := Layout(f);
            && Slice(i, 4, 32) == f.op && Slice(i, 0x80, 32) == f.rd && Slice(i, 0x1000, 8) == f.f3
            && Slice(i, 0x8000, 32) == f.rs1 && Slice(i, 0x10_0000, 32) == f.rs2 && Slice(i, 0x200_0000, 128) == f.f7
  {
    hide Slice;
    var i := Layout(f);
    var r5, r4 := f.f7, f.f7 * 32 + f.rs2;
    var r3 := r4 * 32 + f.rs1;
    var r2 := r3 * 8 + f.f3;
    var r1 := r2 * 32 + f.rd;
    SliceAt(i, 4, 32, r1, f.op, 3);
    SliceAt(i, 0x80, 32, r2, f.rd, 3 + 4 * f.op);
    SliceAt(i, 0x1000, 8, r3, f.f3, 3 + 4 * f.op + 0x80 * f.rd);
    SliceAt(i, 0x8000, 32, r4, f.rs1, 3 + 4 * f.op + 0x80 * f.rd + 0x1000 * f.f3);
    SliceAt(i, 0x10_0000, 32, r5, f.rs2, 3 + 4 * f.op + 0x80 * f.rd + 0x1000 * f.f3 + 0x8000 * f.rs1);
    SliceAt(i, 0x200_0000, 128, 0, f.f7, 3 + 4 * f.op + 0x80 * f.rd + 0x1000 * f.f3 + 0x8000 * f.rs1 + 0x10_0000 * f.rs2);
  }

  lemma DecodeWide(f: Fields)
    requires InRange(f)
    ensures var i := Layout(f);
            && Slice(i, 0x10_0000, 4096) == f.f7 * 32 + f.rs2 && Slice(i, 0x1000, 256) == f.rs1 * 8 + f.f3
            && i / 0x8000_0000 == f.f7 / 64 && Slice(i, 0x20_0000, 1024) == f.f7 % 64 * 16 + f.rs2 / 2
            && i / 4096 == f.f7 * 0x2000 + f.rs2 * 0x100 + f.rs1 * 8 + f.f3
  {
    hide Slice;
    var i := Layout(f);
    var low12 := 3 + 4 * f.op + 0x80 * f.rd;
    var low20 := low12 + 0x1000 * f.f3 + 0x8000 * f.rs1;
    SliceAt(i, 0x10_0000, 4096, 0, f.f7 * 32 + f.rs2, low20);
    SliceAt(i, 0x1000, 256, f.f7 * 32 + f.rs2, f.rs1 * 8 + f.f3, low12);
    SliceAt(i, 0x20_0000, 1024, f.f7 / 64, f.f7 % 64 * 16 + f.rs2 / 2, low20 + f.rs2 % 2 * 0x10_0000);
    SliceAt(i, 0x8000_0000, 2, 0, f.f7 / 64, low20 + f.rs2 * 0x10_0000 + f.f7 % 64 * 0x200_0000);
  }

  /** Sign extension recovers a number from its low bits. */
  lemma ExtendWraps(v: int, sign: int, imm: int)
    requires sign > 0 && 0 <= v < 2 * sign <= MODULUS && -sign <= imm < sign && v == imm % (2 * sign)
    ensures SignExtend(v, sign) == Wrap(imm)
  {
    if imm >= 0 {
      DivModUnique(imm, 2 * sign, 0, imm);
      DivModUnique(imm, 0x1_0000_0000, 0, imm);
    } else {
      DivModUnique(imm, 2 * sign, -1, imm + 2 * sign);
      DivModUnique(imm, 0x1_0000_0000, -1, imm + 0x1_0000_0000);
    }
  }

  /** The fixed fields come back as they were laid out. */
  lemma FieldsDecoded(f: Fields)
    requires InRange(f)
    ensures var d := Decode(Layout(f));
            && (d.op, d.rd, d.f3, d.rs1, d.rs2, d.f7) == (f.op, f.rd, f.f3, f.rs1, f.rs2, f.f7)
            && d.csr == f.f7 * 32 + f.rs2
  {
    hide SignExtend, Slice, Layout;
    DecodeFixed(f);
    DecodeWide(f);
  }

  lemma ITypeDecoded(op: int, f3: int, rd: Reg, rs1: Reg, imm: int)
    requires 0 <= op < 32 && 0 <= f3 < 8 && -0x800 <= imm < 0x800
    ensures var f := IType(op, f3, rd, rs1, imm); InRange(f) && Decode(Layout(f)).iimm == Wrap(imm)
  {
    hide SignExtend, Slice, Layout;
    var f := IType(op, f3, rd, rs1, imm);
    DecodeWide(f);
    ExtendWraps(imm % 0x1000, 0x800, imm);
  }

  lemma STypeDecoded(op: int, f3: int, rs1: Reg, rs2: Reg, imm: int)
    requires 0 <= op < 32 && 0 <= f3 < 8 && -0x800 <= imm < 0x800
    ensures var f := SType(op, f3, rs1, rs2, imm); InRange(f) && Decode(Layout(f)).simm == Wrap(imm)
  {
    hide SignExtend, Slice, Layout;
    var f := SType(op, f3, rs1, rs2, imm);
    DecodeFixed(f);
    ExtendWraps(imm % 0x1000, 0x800, imm);
  }

  /** The pieces of a branch offset put together. */
  function BranchValue(s: int, e: int, mid: int, low: int): (v: int)
    requires 0 <= s < 2 && 0 <= e < 2 && 0 <= mid < 64 && 0 <= low < 16
    ensures 0 <= v < 0x2000
  {
    s * 4096 + e * 2048 + mid * 32 + low * 2
  }

  lemma BranchBitsOf(f: Fields)
    requires InRange(f)
    ensures 0 <= f.f7 / 64 < 2 && 0 <= f.rd / 2 < 16
    ensures BranchBits(Layout(f)) == BranchValue(f.f7 / 64, f.rd % 2, f.f7 % 64, f.rd / 2)
  {
    hide Slice, Layout;
    DecodeFixed(f);
  }

  /** The pieces of a jump offset put together. */
  function JumpValue(s: int, high: int, e: int, low: int): (v: int)
    requires 0 <= s < 2 && 0 <= high < 0x100 && 0 <= e < 2 && 0 <= low < 0x400
    ensures 0 <= v < 0x20_0000
  {
    s * 0x10_0000 + high * 4096 + e * 2048 + low * 2
  }

  lemma JumpRanges(f: Fields)
    requires InRange(f)
    ensures 0 <= f.f7 / 64 < 2 && 0 <= f.rs1 * 8 + f.f3 < 0x100 && 0 <= f.rs2 % 2 < 2 && 0 <= f.f7 % 64 * 16 + f.rs2 / 2 < 0x400
  {
  }

  lemma JumpBitsOf(f: Fields)
    requires InRange(f)
    ensures 0 <= f.f7 / 64 < 2 && 0 <= f.rs1 * 8 + f.f3 < 0x100 && 0 <= f.f7 % 64 * 16 + f.rs2 / 2 < 0x400
    ensures JumpBits(Layout(f)) == JumpValue(f.f7 / 64, f.rs1 * 8 + f.f3, f.rs2 % 2, f.f7 % 64 * 16 + f.rs2 / 2)
  {
    hide Slice, Layout;
    JumpRanges(f);
    DecodeFixed(f);
    DecodeWide(f);
  }

  lemma BTypeDecoded(op: int, f3: int, rs1: Reg, rs2: Reg, off: int)
    requires 0 <= op < 32 && 0 <= f3 < 8 && -0x1000 <= off < 0x1000 && off % 2 == 0
    ensures var f := BType(op, f3, rs1, rs2, off); InRange(f) && Decode(Layout(f)).bimm == Wrap(off)
  {
    hide SignExtend, Slice, Layout, BranchBits, StoreBits, JumpBits;
    var f, u := BType(op, f3, rs1, rs2, off), off % 0x2000;
    EvenRemainder(off, 0x1000);
    BranchPieces(u);
    BranchFields(u / 2 % 16, u / 0x800 % 2, u / 0x1000, u / 32 % 64);
    BranchBitsOf(f);
    ExtendWraps(u, 0x1000, off);
  }

  lemma EvenRemainder(off: int, half: int)
    requires half > 0 && off % 2 == 0
    ensures off % (2 * half) % 2 == 0 && 0 <= off % (2 * half) < 2 * half
  {
    DivModBasic(off, 2 * half);
    Commute(off / (2 * half), 2 * half);
    Associate(2, half, off / (2 * half));
    assert off % (2 * half) == 2 * (off / 2 - half * (off / (2 * half)));
  }

  lemma BranchPieces(u: int)
    requires 0 <= u < 0x2000 && u % 2 == 0
    ensures u == u / 0x1000 * 4096 + u / 0x800 % 2 * 2048 + u / 32 % 64 * 32 + u / 2 % 16 * 2 && 0 <= u / 0x1000 < 2
  {
    DivModBasic(u / 2, 16);
    DivDiv(u, 2, 16);
    DivModBasic(u / 32, 64);
    DivDiv(u, 32, 64);
    DivModBasic(u / 0x800, 2);
    DivDiv(u, 0x800, 2);
  }

  lemma BranchFields(low: int, bit11: int, sign: int, mid: int)
    requires 0 <= low < 16 && 0 <= bit11 < 2 && 0 <= sign < 2 && 0 <= mid < 64
    ensures (low * 2 + bit11) % 2 == bit11 && (low * 2 + bit11) / 2 == low
    ensures (sign * 64 + mid) / 64 == sign && (sign * 64 + mid) % 64 == mid
  {
    DivModUnique(low * 2 + bit11, 2, low, bit11);
    DivModUnique(sign * 64 + mid, 64, sign, mid);
  }

  lemma UTypeDecoded(op: int, rd: Reg, imm: int)
    requires 0 <= op < 32 && 0 <= imm < 0x10_0000
    ensures var f := UType(op, rd, imm); InRange(f) && Decode(Layout(f)).uimm == imm * 0x1000
  {
    hide SignExtend, Slice, Layout;
    UpperPieces(imm);
    DecodeWide(UType(op, rd, imm));
  }

  lemma UpperPieces(imm: int)
    requires 0 <= imm < 0x10_0000
    ensures imm == imm / 0x2000 * 0x2000 + imm / 0x100 % 32 * 0x100 + imm / 8 % 32 * 8 + imm % 8 && 0 <= imm / 0x2000 < 128
  {
    DivModBasic(imm, 8);
    DivModBasic(imm / 8, 32);
    DivDiv(imm, 8, 32);
    DivModBasic(imm / 0x100, 32);
    DivDiv(imm, 0x100, 32);
  }

  lemma JTypeDecoded(op: int, rd: Reg, off: int)
    requires 0 <= op < 32 && -0x10_0000 <= off < 0x10_0000 && off % 2 == 0
    ensures var f := JType(op, rd, off); InRange(f) && Decode(Layout(f)).jimm == Wrap(off)
  {
    hide SignExtend, Slice, Layout, BranchBits, StoreBits, JumpBits, JumpValue;
    var f, u := JType(op, rd, off), off % 0x20_0000;
    EvenRemainder(off, 0x10_0000);
    JumpPieces(u);
    JumpFields(u / 2 % 0x400, u / 0x800 % 2, u / 0x1000 % 0x100, u / 0x10_0000);
    JumpBitsOf(f);
    ExtendWraps(u, 0x10_0000, off);
  }

  lemma JumpPieces(u: int)
    requires 0 <= u < 0x20_0000 && u % 2 == 0
    ensures 0 <= u / 0x10_0000 < 2
    ensures u == JumpValue(u / 0x10_0000, u / 0x1000 % 0x100, u / 0x800 % 2, u / 2 % 0x400)
  {
    DivModBasic(u / 2, 0x400);
    DivDiv(u, 2, 0x400);
    DivModBasic(u / 0x800, 2);
    DivDiv(u, 0x800, 2);
    DivModBasic(u / 0x1000, 0x100);
    DivDiv(u, 0x1000, 0x100);
  }

  lemma JumpFields(low: int, bit11: int, high: int, sign: int)
    requires 0 <= low < 0x400 && 0 <= bit11 < 2 && 0 <= high < 0x100 && 0 <= sign < 2
    ensures 0 <= high / 8 < 32 && 0 <= low / 16 < 64 && high / 8 * 8 + high % 8 == high && low / 16 * 16 + low % 16 == low
    ensures (low % 16 * 2 + bit11) % 2 == bit11 && (low % 16 * 2 + bit11) / 2 == low % 16
    ensures (sign * 64 + low / 16) / 64 == sign && (sign * 64 + low / 16) % 64 == low / 16
  {
    DivModUnique(low % 16 * 2 + bit11, 2, low % 16, bit11);
    DivModUnique(sign * 64 + low / 16, 64, sign, low / 16);
  }

  // ------------------------------------------------------------ every word is an encoding

  /** Every full-width word is the layout of its own fields, so the encodings above reach every immediate. */
  lemma EveryWordIsLaidOut(i: Word)
    requires i % 4 == 3
    ensures var d := Decode(i); var f := Fields(d.op, d.rd, d.f3, d.rs1, d.rs2, d.f7); InRange(f) && Layout(f) == i
  {
    hide SignExtend;
    WordPieces(i);
  }

  lemma WordPieces(i: Word)
    ensures i == i % 4 + 0x4 * (i / 4 % 32) + 0x80 * (i / 0x80 % 32) + 0x1000 * (i / 0x1000 % 8) + 0x8000 * (i / 0x8000 % 32)
              + 0x10_0000 * (i / 0x10_0000 % 32) + 0x200_0000 * (i / 0x200_0000 % 128)
  {
    DivDiv(i, 4, 32);
    DivDiv(i, 0x80, 32);
    DivDiv(i, 0x1000, 8);
    DivDiv(i, 0x8000, 32);
    DivDiv(i, 0x10_0000, 32);
  }

  lemma Unextend(v: int, sign: int)
    requires sign > 0 && 0 <= v < 2 * sign <= MODULUS
    ensures var s := Signed(SignExtend(v, sign)); -sign <= s < sign && s % (2 * sign) == v
  {
    if v < sign { DivModUnique(v, 2 * sign, 0, v); } else { DivModUnique(v - 2 * sign, 2 * sign, -1, v); }
  }

  /** The fields of a word. */
  function FieldsOf(d: Dec): Fields {
    Fields(d.op, d.rd, d.f3, d.rs1, d.rs2, d.f7)
  }

  /** For every word, encoding its fields again with the immediate the decoder read gives the same word back, in each of
      the five formats that carry an immediate. */
  lemma ImmediatesEncodeBack(i: Word)
    requires i % 4 == 3
    ensures var d := Decode(i); var f := FieldsOf(d);
            && InRange(f) && Layout(f) == i
            && IType(d.op, d.f3, d.rd, d.rs1, Signed(d.iimm)) == f
            && SType(d.op, d.f3, d.rs1, d.rs2, Signed(d.simm)) == f
            && BType(d.op, d.f3, d.rs1, d.rs2, Signed(d.bimm)) == f
            && UType(d.op, d.rd, d.uimm / 0x1000) == f
            && JType(d.op, d.rd, Signed(d.jimm)) == f
  {
    hide IType, SType, BType, UType, JType, Decode, Layout;
    EveryWordIsLaidOut(i);
    var f := FieldsOf(Decode(i));
    ShortEncodesBack(f);
    BranchEncodesBack(f);
    UpperEncodesBack(f);
    JumpEncodesBack(f);
  }

  lemma ShortEncodesBack(f: Fields)
    requires InRange(f)
    ensures var d := Decode(Layout(f)); IType(f.op, f.f3, f.rd, f.rs1, Signed(d.iimm)) == f
    ensures var d := Decode(Layout(f)); SType(f.op, f.f3, f.rs1, f.rs2, Signed(d.simm)) == f
  {
    hide Slice, Layout, SignExtend, Signed;
    DecodeFixed(f);
    DecodeWide(f);
    var a, b := f.f7 * 32 + f.rs2, f.f7 * 32 + f.rd;
    Unextend(a, 0x800);
    Unextend(b, 0x800);
    DivModUnique(a, 32, f.f7, f.rs2);
    DivModUnique(b, 32, f.f7, f.rd);
  }

  lemma BranchEncodesBack(f: Fields)
    requires InRange(f)
    ensures BType(f.op, f.f3, f.rs1, f.rs2, Signed(Decode(Layout(f)).bimm)) == f
  {
    hide Layout, SignExtend, Signed, Slice, StoreBits, BranchBits, JumpBits, BranchValue;
    BranchBitsOf(f);
    Unextend(BranchValue(f.f7 / 64, f.rd % 2, f.f7 % 64, f.rd / 2), 0x1000);
    BranchTakenApart(f.f7 / 64, f.rd % 2, f.f7 % 64, f.rd / 2);
  }

  lemma BranchTakenApart(s: int, e: int, h: int, l: int)
    requires 0 <= s < 2 && 0 <= e < 2 && 0 <= h < 64 && 0 <= l < 16
    ensures var v := BranchValue(s, e, h, l); v / 2 % 16 == l && v / 0x800 % 2 == e && v / 32 % 64 == h && v / 0x1000 == s
  {
    var v := BranchValue(s, e, h, l);
    DivModUnique(v, 2, s * 2048 + e * 1024 + h * 16 + l, 0);
    DivModUnique(s * 2048 + e * 1024 + h * 16 + l, 16, s * 128 + e * 64 + h, l);
    DivModUnique(v, 32, s * 128 + e * 64 + h, l * 2);
    DivModUnique(s * 128 + e * 64 + h, 64, s * 2 + e, h);
    DivModUnique(v, 0x800, s * 2 + e, h * 32 + l * 2);
    DivModUnique(s * 2 + e, 2, s, e);
    DivModUnique(v, 0x1000, s, e * 2048 + h * 32 + l * 2);
  }

  lemma UpperEncodesBack(f: Fields)
    requires InRange(f)
    ensures UType(f.op, f.rd, Decode(Layout(f)).uimm / 0x1000) == f
  {
    hide Slice, Layout, SignExtend;
    DecodeWide(f);
    var v := f.f7 * 0x2000 + f.rs2 * 0x100 + f.rs1 * 8 + f.f3;
    DivModUnique(v * 0x1000, 0x1000, v, 0);
    DivModUnique(v, 8, f.f7 * 0x400 + f.rs2 * 32 + f.rs1, f.f3);
    DivModUnique(f.f7 * 0x400 + f.rs2 * 32 + f.rs1, 32, f.f7 * 32 + f.rs2, f.rs1);
    DivModUnique(v, 0x100, f.f7 * 32 + f.rs2, f.rs1 * 8 + f.f3);
    DivModUnique(f.f7 * 32 + f.rs2, 32, f.f7, f.rs2);
    DivModUnique(v, 0x2000, f.f7, f.rs2 * 0x100 + f.rs1 * 8 + f.f3);
  }

  lemma JumpEncodesBack(f: Fields)
    requires InRange(f)
    ensures JType(f.op, f.rd, Signed(Decode(Layout(f)).jimm)) == f
  {
    hide Layout, SignExtend, Signed, Slice, StoreBits, BranchBits, JumpBits, JumpValue;
    JumpRanges(f);
    JumpBitsOf(f);
    var s, high, e, low := f.f7 / 64, f.rs1 * 8 + f.f3, f.rs2 % 2, f.f7 % 64 * 16 + f.rs2 / 2;
    Unextend(JumpValue(s, high, e, low), 0x10_0000);
    JumpTakenApart(s, high, e, low);
    DivModUnique(high, 8, f.rs1, f.f3);
    DivModUnique(low, 16, f.f7 % 64, f.rs2 / 2);
  }

  lemma JumpTakenApart(s: int, high: int, e: int, low: int)
    requires 0 <= s < 2 && 0 <= high < 0x100 && 0 <= e < 2 && 0 <= low < 0x400
    ensures var v := JumpValue(s, high, e, low);
            v / 2 % 0x400 == low && v / 0x800 % 2 == e && v / 0x1000 % 0x100 == high && v / 0x10_0000 == s
  {
    var v := s * 0x10_0000 + high * 4096 + e * 2048 + low * 2;
    DivModUnique(v, 2, s * 0x8_0000 + high * 2048 + e * 1024 + low, 0);
    DivModUnique(s * 0x8_0000 + high * 2048 + e * 1024 + low, 0x400, s * 0x200 + high * 2 + e, low);
    DivModUnique(v, 0x800, s * 0x200 + high * 2 + e, low * 2);
    DivModUnique(s * 0x200 + high * 2 + e, 2, s * 0x100 + high, e);
    DivModUnique(v, 0x1000, s * 0x100 + high, e * 2048 + low * 2);
    DivModUnique(s * 0x100 + high, 0x100, s, high);
    DivModUnique(v, 0x10_0000, s, high * 4096 + e * 2048 + low * 2);
  }
}
