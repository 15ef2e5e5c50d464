/** The five-stage pipeline of archive/pipeline, one clock at a time. */
module Pipeline {
  import opened Words
  import opened Decoder
  import opened Divider
  import opened Datapath

  // -------------------------------------------------------------- stage registers

  datatype FetchReg = FetchReg(pc: Word, fdPc: Word, fdInstr: Word, fdNop: bool)

  datatype Ras = Ras(r0: Word, r1: Word, r2: Word, r3: Word)

  type Counter = x: int | 0 <= x < 4
  type Bht = b: seq<Counter> | |b| == 4096 witness seq(4096, _ => 0)

  datatype DecodeReg = DecodeReg(
    pc: Word, nop: bool, f: Flags, d: Dec, predictBranch: bool, bhtIndex: BhtIndex, predictRA: Word)

  datatype ExecReg = ExecReg(
    pc: Word, nop: bool, isLoad: bool, isStore: bool, isCSR: bool, rd: Reg, csr: int, f3: int,
    rs2: Word, result: Word, addr: Word, mdata: Word,
    correctPC: bool, pcCorrection: Word, wbEnable: bool)

  datatype MemReg = MemReg(pc: Word, nop: bool, rd: Reg, data: Word, wbEnable: bool)

  /** Everything that changes at a clock edge: the processor, its register file, its data memory
      and the log of I/O writes. */
  datatype State = State(
    fe: FetchReg, ras: Ras, bht: Bht, hist: History, de: DecodeReg, ee: DivReg, em: ExecReg, mw: MemReg,
    regs: Regs, mem: seq<Word>, io: seq<IoWrite>)

  /** What the surroundings drive during one clock: reset, and the words read from outside the
      instruction array, outside the data array, from the I/O page and from the CSR file. */
  datatype Input = Input(reset: bool, imem: Word, dmem: Word, ioRead: Word, csrRead: Word)

  // -------------------------------------------------------------- execute stage wires

  function Forward(em: ExecReg, mw: MemReg, regs: Regs, r: Reg): Word {
    if em.wbEnable && em.rd == r then em.result
    else if mw.wbEnable && mw.rd == r then mw.data
    else Read(regs, r)
  }

  function ERs1(s: State): Word {
    Forward(s.em, s.mw, s.regs, s.de.d.rs1)
  }

  function ERs2(s: State): Word {
    Forward(s.em, s.mw, s.regs, s.de.d.rs2)
  }

  predicate AluBusy(s: State) {
    s.ee.busy || (s.de.f.isDIV && !s.ee.finished)
  }

  predicate TakeBranch(c: Core, s: State) {
    c.taken(s.de.d, ERs1(s), ERs2(s))
  }

  predicate CorrectPC(c: Core, s: State) {
    || (s.de.f.isJALR && s.de.predictRA != JalrTarget(s.de.d, ERs1(s)))
    || (s.de.f.isBranch && TakeBranch(c, s) != s.de.predictBranch)
  }

  function PCCorrection(s: State): Word {
    if s.de.f.isBranch then Add(s.de.pc, if s.de.predictBranch then 4 else s.de.d.bimm)
    else JalrTarget(s.de.d, ERs1(s))
  }

  // -------------------------------------------------------------- decode stage wires

  function D(c: Core, s: State): Dec {
    c.decode(s.fe.fdInstr)
  }

  /** `&&` binds tighter than `||` in the source: the store-load term ignores FD_nop. */
  predicate DataHazard(c: Core, s: State) {
    var d := D(c, s);
    var hit := (ReadsRs1(d) && d.rs1 == s.de.d.rd) || (ReadsRs2(d) && d.rs2 == s.de.d.rd);
    || (!s.fe.fdNop && (s.de.f.isLoad || s.de.f.isCSR) && hit)
    || (d.op == LOAD && s.de.f.isStore)
  }

  predicate Halt(s: State, i: Input) {
    !i.reset && s.de.f.isEBREAK
  }

  /** F_stall and D_stall. */
  predicate Stall(c: Core, s: State, i: Input) {
    AluBusy(s) || DataHazard(c, s) || Halt(s, i)
  }

  predicate PredictBranch(c: Core, s: State) {
    s.bht[c.index(s.fe.fdPc, s.hist)] >= 2
  }

  predicate PredictPC(c: Core, s: State) {
    var d := D(c, s);
    !s.fe.fdNop && (d.op == JAL || d.op == JALR || (d.op == BRANCH && PredictBranch(c, s)))
  }

  function PCPrediction(c: Core, s: State): Word {
    var d := D(c, s);
    if d.op == JALR then s.ras.r0 else Add(s.fe.fdPc, if d.op == JAL then d.jimm else d.bimm)
  }

  function FetchPC(c: Core, s: State): Word {
    if PredictPC(c, s) then PCPrediction(c, s)
    else if s.em.correctPC then s.em.pcCorrection
    else s.fe.pc
  }

  // -------------------------------------------------------------- memory stage wires

  function MWbData(c: Core, em: ExecReg, ioRead: Word, csrRead: Word): Word {
    if em.isLoad then (if IsIO(em.addr) then ioRead else c.load(em.f3, em.addr, em.mdata))
    else if em.isCSR then csrRead
    else em.result
  }

  // -------------------------------------------------------------- one clock edge

  function NextFetch(c: Core, s: State, i: Input): FetchReg {
    var go := !Stall(c, s, i);
    var target := FetchPC(c, s);
    FetchReg(
      if i.reset then 0 else if go then Add(target, 4) else s.fe.pc,
      if go then target else s.fe.fdPc,
      if go then Fetch(c, target, i.imem) else s.fe.fdInstr,
      CorrectPC(c, s) || i.reset)
  }

  function RasStep(r: Ras, d: Dec, pc: Word): Ras {
    if (d.op == JAL || d.op == JALR) && d.rd == 1 then Ras(Add(pc, 4), r.r0, r.r1, r.r2)
    else if d.op == JALR && d.rd == 0 && (d.rs1 == 1 || d.rs1 == 5) then Ras(r.r1, r.r2, r.r3, r.r3)
    else r
  }

  function NextRas(c: Core, s: State, i: Input): Ras {
    if !Stall(c, s, i) && !s.fe.fdNop && !CorrectPC(c, s) then RasStep(s.ras, D(c, s), s.fe.fdPc) else s.ras
  }

  function NextDecode(c: Core, s: State, i: Input): DecodeReg {
    var go := !Stall(c, s, i);
    var latched :=
      if go then
        DecodeReg(s.fe.fdPc, false, FlagsOf(D(c, s)), D(c, s), PredictBranch(c, s),
                  c.index(s.fe.fdPc, s.hist), s.ras.r0)
      else s.de;
    if CorrectPC(c, s) || DataHazard(c, s) || s.fe.fdNop then latched.(f := BUBBLE, nop := true) else latched
  }

  function NextDivider(c: Core, s: State): DivReg {
    var e := s.ee;
    if e.busy then DivTick(e)
    else
      var loaded := DivStart(s.de.d.f3, ERs1(s), ERs2(s));
      var start := s.de.f.isDIV && !DataHazard(c, s) && !e.finished;
      loaded.(msk := if start then 0x8000_0000 else e.msk, busy := start, finished := e.msk % 2 == 1)
  }

  /** The two-bit counter saturates towards the outcome. */
  function Saturate(counter: Counter, taken: bool): Counter {
    if taken then (if counter == 3 then 3 else counter + 1) else if counter == 0 then 0 else counter - 1
  }

  /** A branch leaving the execute stage. */
  predicate Resolve(s: State) {
    !AluBusy(s) && s.de.f.isBranch
  }

  function NextHist(c: Core, s: State): History {
    if Resolve(s) then (if TakeBranch(c, s) then 256 else 0) + s.hist / 2 else s.hist
  }

  function NextBht(c: Core, s: State): Bht {
    if Resolve(s) then s.bht[s.de.bhtIndex := Saturate(s.bht[s.de.bhtIndex], TakeBranch(c, s))] else s.bht
  }

  function NextExec(c: Core, s: State, i: Input): ExecReg {
    var f, d := s.de.f, s.de.d;
    var addr := DataAddr(f, d, ERs1(s));
    if AluBusy(s) then
      s.em.(nop := true, isLoad := false, isStore := false, isCSR := false, correctPC := false, wbEnable := false)
    else
      ExecReg(s.de.pc, s.de.nop, f.isLoad, f.isStore, f.isCSR, d.rd, d.csr, d.f3,
              ERs2(s), ExecResult(c, f, d, s.de.pc, ERs1(s), ERs2(s), s.ee),
              addr, ReadMem(s.mem, addr, i.dmem),
              CorrectPC(c, s), PCCorrection(s), f.wbEnable && d.rd != 0)
  }

  function NextMem(c: Core, s: State, i: Input): MemReg {
    MemReg(s.em.pc, s.em.nop, s.em.rd, MWbData(c, s.em, i.ioRead, i.csrRead), s.em.wbEnable)
  }

  function NextRegs(s: State, i: Input): Regs {
    if i.reset then seq(32, _ => 0) else WriteBack(s.regs, s.mw.wbEnable, s.mw.rd, s.mw.data)
  }

  function NextRam(c: Core, s: State): seq<Word> {
    if s.em.isStore && !IsIO(s.em.addr) then StoreRam(c, s.mem, s.em.f3, s.em.addr, s.em.rs2) else s.mem
  }

  function NextIo(s: State): seq<IoWrite> {
    if s.em.isStore && IsIO(s.em.addr) then s.io + [IoWrite(s.em.addr, s.em.rs2)] else s.io
  }

  /** All non-blocking assignments read the old state. */
  function Next(c: Core, s: State, i: Input): State {
    State(NextFetch(c, s, i), NextRas(c, s, i), NextBht(c, s), NextHist(c, s), NextDecode(c, s, i),
          NextDivider(c, s), NextExec(c, s, i), NextMem(c, s, i), NextRegs(s, i), NextRam(c, s), NextIo(s))
  }
}
