/** 32-bit words, register files and data memory shared by both processors. */
module Words {
  const MODULUS: int := 0x1_0000_0000

  type Word = x: int | 0 <= x < MODULUS
  type Reg = x: int | 0 <= x < 32

  /** A number modulo 2^32. */
  function Wrap(v: int): Word {
    v % MODULUS
  }

  /** Wrap-around addition of two 32-bit values. */
  function Add(a: Word, b: Word): Word {
    (a + b) % MODULUS
  }

  /** The word with its lowest bit cleared. */
  function Even(a: Word): Word {
    a - a % 2
  }

  /** Two's-complement reading of a word. */
  function Signed(a: Word): int {
    if a < 0x8000_0000 then a else a - MODULUS
  }

  /** The reading is the one value of the right residue between -2^31 and 2^31 - 1. */
  lemma SignedMeans(a: Word)
    ensures -0x8000_0000 <= Signed(a) < 0x8000_0000 && Signed(a) % 0x1_0000_0000 == a
  {
  }

  lemma EvenMeans(a: Word)
    ensures Even(a) % 2 == 0 && Even(a) <= a <= Even(a) + 1
  {
  }

  /** The thirty-two registers; entry 0 is never read nor written. */
  type Regs = r: seq<Word> | |r| == 32 witness seq(32, _ => 0)

  function Read(regs: Regs, i: Reg): Word {
    if i == 0 then 0 else regs[i]
  }

  /** A write port: an enabled write to x0 is dropped. */
  function WriteBack(regs: Regs, enable: bool, rd: Reg, data: Word): (r: Regs) {
    if enable && rd != 0 then regs[rd := data] else regs
  }

  /** A register file with x0 fixed at zero: a write changes one register and no other. */
  lemma ReadAfterWrite(regs: Regs, enable: bool, rd: Reg, data: Word, r: Reg)
    ensures Read(WriteBack(regs, enable, rd, data), r) == if r == 0 then 0 else if enable && r == rd then data else regs[r]
  {
  }

  /** Word number of a byte address. */
  function WordIndex(addr: Word): nat {
    addr / 4
  }

  /** Asynchronous read; outside the array the memory answers an arbitrary word. */
  function ReadMem(mem: seq<Word>, addr: Word, outside: Word): Word {
    if WordIndex(addr) < |mem| then mem[WordIndex(addr)] else outside
  }

  /** Address bit 22 selects the I/O page instead of RAM. */
  predicate IsIO(addr: Word) {
    addr / 0x40_0000 % 2 == 1
  }

  datatype IoWrite = IoWrite(addr: Word, data: Word)
}
