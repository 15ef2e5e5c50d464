/** Instruction fields and the control flags the pipeline derives from them. */
module Decoder {
  import opened Words

  /** Every field of an instruction word that either processor looks at.  `op` is inst[6:2]. */
  datatype Dec = Dec(
    op: int, rd: Reg, f3: int, rs1: Reg, rs2: Reg, f7: int, csr: int,
    iimm: Word, simm: Word, bimm: Word, uimm: Word, jimm: Word)

  const LUI := 13
  const AUIPC := 5
  const JAL := 27
  const JALR := 25
  const BRANCH := 24
  const LOAD := 0
  const STORE := 8
  const ALUI := 4
  const ALUR := 12
  const SYSTEM := 28

  /** The control bits carried by the DE stage register that some later stage consumes. */
  datatype Flags = Flags(
    isLUI: bool, isAUIPC: bool, isJAL: bool, isJALR: bool, isBranch: bool,
    isLoad: bool, isStore: bool, isALUR: bool, isEBREAK: bool, isCSR: bool,
    isRV32M: bool, isDIV: bool, wbEnable: bool)

  const BUBBLE: Flags := Flags(false, false, false, false, false, false, false,
                               false, false, false, false, false, false)

  function FlagsOf(d: Dec): Flags {
    var m := d.op == ALUR && d.f7 % 2 == 1;
    Flags(d.op == LUI, d.op == AUIPC, d.op == JAL, d.op == JALR, d.op == BRANCH,
          d.op == LOAD, d.op == STORE, d.op == ALUR,
          d.op == SYSTEM && d.f3 == 0 && d.rs2 % 2 == 1 && d.rs2 / 4 % 2 == 0,
          d.op == SYSTEM && d.f3 != 0 && d.f3 != 4,
          m, m && d.f3 >= 4,
          d.op != BRANCH && d.op != STORE)
  }

  predicate ReadsRs1(d: Dec) {
    !(d.op == JAL || d.op == LUI || d.op == AUIPC)
  }

  /** inst[5] set and inst[3:2] clear: STORE, register ALU, BRANCH and SYSTEM. */
  predicate ReadsRs2(d: Dec) {
    d.op / 8 % 2 == 1 && d.op % 4 == 0
  }

  /** Bits [lo, lo + width) of an instruction word, given 2^lo and 2^width. */
  function Slice(i: Word, lo: nat, width: nat): int
    requires lo > 0 && width > 0
  {
    i / lo % width
  }

  /** Sign extension of a field whose sign bit weighs `sign`. */
  function SignExtend(v: int, sign: nat): Word
    requires 0 <= v < 2 * sign <= MODULUS
  {
    if v < sign then v else v + MODULUS - 2 * sign
  }

  /** The bits of the S immediate, in order. */
  function StoreBits(i: Word): (v: int)
    ensures 0 <= v < 0x1000
  {
    Slice(i, 0x200_0000, 128) * 32 + Slice(i, 0x80, 32)
  }

  /** The bits of the B immediate. */
  function BranchBits(i: Word): (v: int)
    ensures 0 <= v < 0x2000
  {
    var f7, rd := Slice(i, 0x200_0000, 128), Slice(i, 0x80, 32);
    f7 / 64 * 4096 + rd % 2 * 2048 + f7 % 64 * 32 + rd / 2 * 2
  }

  /** The bits of the J immediate. */
  function JumpBits(i: Word): (v: int)
    ensures 0 <= v < 0x20_0000
  {
    i / 0x8000_0000 * 0x10_0000 + Slice(i, 0x1000, 256) * 4096
    + Slice(i, 0x10_0000, 32) % 2 * 2048 + Slice(i, 0x20_0000, 1024) * 2
  }

  function Decode(i: Word): Dec {
    Dec(
      Slice(i, 4, 32), Slice(i, 0x80, 32), Slice(i, 0x1000, 8), Slice(i, 0x8000, 32), Slice(i, 0x10_0000, 32),
      Slice(i, 0x200_0000, 128), Slice(i, 0x10_0000, 4096),
      SignExtend(Slice(i, 0x10_0000, 4096), 2048),
      SignExtend(StoreBits(i), 2048),
      SignExtend(BranchBits(i), 4096),
      i / 4096 * 4096,
      SignExtend(JumpBits(i), 0x10_0000))
  }
}
