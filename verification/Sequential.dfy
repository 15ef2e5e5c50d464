/** The multi-cycle processor of archive/Seq: fetch, wait, execute, and a fourth state for loads. */
module Sequential {
  import opened Words
  import opened Decoder
  import opened Alu
  import opened Lanes

  datatype Phase = FetchInstr | WaitInstr | Execute | WaitData

  /** Processor registers, the output register of the synchronous RAM, the RAM and the I/O log. */
  datatype SeqState = SeqState(
    pc: Word, instr: Word, rs1: Word, rs2: Word, regs: Regs, phase: Phase, halt: bool,
    ramOut: Word, mem: seq<Word>, io: seq<IoWrite>)

  const ROM_WORDS: int := 16384

  type Rom = r: seq<Word> | |r| == ROM_WORDS witness seq(ROM_WORDS, _ => 0)

  // ------------------------------------------------------------ wires

  /** All seven opcode bits are compared. */
  predicate Is(instr: Word, op: int) {
    instr % 128 == 4 * op + 3
  }

  predicate SeqEbreak(instr: Word) {
    var d := Decode(instr);
    Is(instr, SYSTEM) && d.f3 == 0 && d.iimm == 1
  }

  predicate SeqCsr(instr: Word) {
    var d := Decode(instr);
    Is(instr, SYSTEM) && d.f3 != 0 && d.f3 != 4
  }

  function In2(s: SeqState): Word {
    if Is(s.instr, ALUR) || Is(s.instr, BRANCH) then s.rs2 else Decode(s.instr).iimm
  }

  /** aluOut; the subtract line is gated with the full ALUR opcode. */
  function SeqAlu(s: SeqState): Word {
    var d := Decode(s.instr);
    if d.f3 == 0 then
      if Bit30(d) && Is(s.instr, ALUR) then Minus33(s.rs1, In2(s)) % MODULUS else Add(s.rs1, In2(s))
    else AluSeq(d, s.rs1, In2(s))
  }

  function LoadStoreAddr(s: SeqState): Word {
    var d := Decode(s.instr);
    Add(s.rs1, if Is(s.instr, STORE) then d.simm else d.iimm)
  }

  /** instr[3] picks the J immediate, then instr[4] the U immediate, else the B immediate. */
  function PCplusImm(s: SeqState): Word {
    var d := Decode(s.instr);
    Add(s.pc, if d.op / 2 % 2 == 1 then d.jimm else if d.op / 4 % 2 == 1 then d.uimm else d.bimm)
  }

  function SeqNextPC(s: SeqState): Word {
    var d := Decode(s.instr);
    if (Is(s.instr, BRANCH) && Taken(d, s.rs1, In2(s))) || Is(s.instr, JAL) then PCplusImm(s)
    else if Is(s.instr, JALR) then Even(Add(s.rs1, In2(s)))
    else Add(s.pc, 4)
  }

  /** `x` is what the outside world answers: a CSR, an I/O read, or RAM beyond the array. */
  function WriteBackData(s: SeqState, x: Word): Word {
    var d := Decode(s.instr);
    var i := s.instr;
    if Is(i, JAL) || Is(i, JALR) then Add(s.pc, 4)
    else if Is(i, LUI) then d.uimm
    else if Is(i, AUIPC) then PCplusImm(s)
    else if Is(i, LOAD) then
      LoadWord(d.f3, LoadStoreAddr(s), if IsIO(LoadStoreAddr(s)) then x else s.ramOut)
    else if SeqCsr(i) then x
    else SeqAlu(s)
  }

  predicate WriteBackEn(s: SeqState) {
    || (s.phase == Execute && !Is(s.instr, BRANCH) && !Is(s.instr, STORE))
    || s.phase == WaitData
  }

  // ------------------------------------------------------------ one clock edge

  function SeqRegs(s: SeqState, x: Word): Regs {
    WriteBack(s.regs, WriteBackEn(s), Decode(s.instr).rd, WriteBackData(s, x))
  }

  function SeqRam(s: SeqState): seq<Word> {
    var addr := LoadStoreAddr(s);
    var i := WordIndex(addr);
    if s.phase == Execute && Is(s.instr, STORE) && !IsIO(addr) && i < |s.mem|
    then s.mem[i := StoreWord(Decode(s.instr).f3, addr, s.rs2, s.mem[i])]
    else s.mem
  }

  /** The I/O page sees the lane-replicated data. */
  function SeqIo(s: SeqState): seq<IoWrite> {
    var addr := LoadStoreAddr(s);
    if s.phase == Execute && Is(s.instr, STORE) && IsIO(addr)
    then s.io + [IoWrite(addr, StoreData(addr, s.rs2))]
    else s.io
  }

  function SeqRamOut(s: SeqState, x: Word): Word {
    var addr := LoadStoreAddr(s);
    if s.phase == Execute && Is(s.instr, LOAD) && !IsIO(addr) then ReadMem(s.mem, addr, x) else s.ramOut
  }

  /** The asynchronous reset, and every clock edge while it is held. */
  function SeqReset(s: SeqState): SeqState {
    s.(pc := 0, phase := FetchInstr)
  }

  function SeqNext(rom: Rom, s: SeqState, x: Word): SeqState {
    var t := s.(regs := SeqRegs(s, x), ramOut := SeqRamOut(s, x), mem := SeqRam(s), io := SeqIo(s));
    match s.phase
    case FetchInstr => t.(instr := rom[WordIndex(s.pc) % ROM_WORDS], phase := WaitInstr)
    case WaitInstr =>
      var d := Decode(s.instr);
      t.(rs1 := Read(s.regs, d.rs1), rs2 := Read(s.regs, d.rs2), phase := Execute)
    case Execute =>
      t.(pc := if SeqEbreak(s.instr) then s.pc else SeqNextPC(s),
         halt := s.halt || SeqEbreak(s.instr),
         phase := if Is(s.instr, LOAD) then WaitData else FetchInstr)
    case WaitData => t.(phase := FetchInstr)
  }
}
