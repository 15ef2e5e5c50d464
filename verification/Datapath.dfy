/** The parts of the machine whose inner working plays no role in pipeline control, and the
    instruction-at-a-time reference machine built on them. */
module Datapath {
  import opened Words
  import opened Decoder
  import opened Divider

  type BhtIndex = x: int | 0 <= x < 4096
  type History = x: int | 0 <= x < 512

  /** Program ROM and combinational units.  The control theorems hold for every choice of them. */
  datatype Core = Core(
    rom: seq<Word>,
    decode: Word -> Dec,
    alu: (Dec, Word, Word) -> Word,          // E_aluOut of everything but a divide, from E_aluIn1 and E_aluIn2
    taken: (Dec, Word, Word) -> bool,        // E_takeBranch, from E_aluIn1 and E_aluIn2
    load: (int, Word, Word) -> Word,         // M_Mdata from funct3, address and memory word
    store: (int, Word, Word, Word) -> Word,  // memory word after a masked write: funct3, address, rs2, old word
    index: (Word, History) -> BhtIndex)      // D_bhtIndex

  predicate InRom(c: Core, pc: Word) {
    WordIndex(pc) < |c.rom|
  }

  function Fetch(c: Core, pc: Word, outside: Word): Word {
    ReadMem(c.rom, pc, outside)
  }

  /** {E_aluPlus[31:1], 1'b0} */
  function JalrTarget(d: Dec, rs1: Word): Word {
    Even(Add(rs1, d.iimm))
  }

  /** E_aluIn2; a multiply is a register operation, so it takes rs2 here as well. */
  function AluIn2(f: Flags, d: Dec, rs2: Word): Word {
    if f.isALUR || f.isBranch then rs2 else d.iimm
  }

  function ExecResult(c: Core, f: Flags, d: Dec, pc: Word, rs1: Word, rs2: Word, divider: DivReg): Word {
    if f.isJAL || f.isJALR then Add(pc, 4)
    else if f.isLUI then d.uimm
    else if f.isAUIPC then Add(pc, d.uimm)
    else if f.isDIV then DivOut(d.f3, divider)
    else c.alu(d, rs1, AluIn2(f, d, rs2))
  }

  function DataAddr(f: Flags, d: Dec, rs1: Word): Word {
    if f.isStore then Add(rs1, d.simm) else Add(rs1, d.iimm)
  }

  function StoreRam(c: Core, mem: seq<Word>, f3: int, addr: Word, data: Word): seq<Word> {
    var i := WordIndex(addr);
    if i < |mem| then mem[i := c.store(f3, addr, data, mem[i])] else mem
  }

  /** What the programmer sees.  `io` is the sequence of words written to the I/O page. */
  datatype Arch = Arch(pc: Word, regs: Regs, mem: seq<Word>, io: seq<IoWrite>)

  function Fetched(c: Core, a: Arch): Dec {
    c.decode(Fetch(c, a.pc, 0))
  }

  function NextPc(c: Core, a: Arch): Word {
    var d := Fetched(c, a);
    var f := FlagsOf(d);
    var rs1, rs2 := Read(a.regs, d.rs1), Read(a.regs, d.rs2);
    if f.isEBREAK then a.pc
    else if f.isJAL then Add(a.pc, d.jimm)
    else if f.isJALR then JalrTarget(d, rs1)
    else if f.isBranch && c.taken(d, rs1, rs2) then Add(a.pc, d.bimm)
    else Add(a.pc, 4)
  }

  /** The value written to rd; `x` answers whatever this instruction reads from outside
      (a CSR, an I/O address, a RAM address beyond the array). */
  function RdValue(c: Core, a: Arch, x: Word): Word {
    var d := Fetched(c, a);
    var f := FlagsOf(d);
    var rs1, rs2 := Read(a.regs, d.rs1), Read(a.regs, d.rs2);
    var addr := DataAddr(f, d, rs1);
    if f.isLoad then (if IsIO(addr) then x else c.load(d.f3, addr, ReadMem(a.mem, addr, x)))
    else if f.isCSR then x
    else ExecResult(c, f, d, a.pc, rs1, rs2, Finish(DivStart(d.f3, rs1, rs2)))
  }

  /** One instruction of the sequential machine. */
  function Step(c: Core, a: Arch, x: Word): Arch {
    var d := Fetched(c, a);
    var f := FlagsOf(d);
    var rs1, rs2 := Read(a.regs, d.rs1), Read(a.regs, d.rs2);
    var addr := DataAddr(f, d, rs1);
    Arch(
      NextPc(c, a),
      WriteBack(a.regs, f.wbEnable, d.rd, RdValue(c, a, x)),
      if f.isStore && !IsIO(addr) then StoreRam(c, a.mem, d.f3, addr, rs2) else a.mem,
      if f.isStore && IsIO(addr) then a.io + [IoWrite(addr, rs2)] else a.io)
  }

  /** The state before instruction n; `ext(k)` is what the outside answers to instruction k. */
  function Ref(c: Core, a0: Arch, ext: nat -> Word, n: nat): Arch {
    if n == 0 then a0 else Step(c, Ref(c, a0, ext, n - 1), ext(n - 1))
  }
}
