/** The two processors as hardware: registers, arrays, and one method per clock edge. */
module Hardware {
  import opened Words
  import opened Decoder
  import opened Divider
  import opened Datapath
  import opened Lanes
  import opened Pipeline
  import Refinement
  import opened Runs
  import opened Sequential

  /** The pipelined processor with its register file and data memory. */
  class Processor {
    const c: Core
    var fe: FetchReg
    var ras: Ras
    var bht: Bht
    var hist: History
    var de: DecodeReg
    var ee: DivReg
    var em: ExecReg
    var mw: MemReg
    const registers: array<Word>
    const dataMem: array<Word>
    var io: seq<IoWrite>

    /** Power-up: only EE_divBusy and EE_divFinished are initialised; everything else holds what it is given. */
    constructor (c: Core, s: State)
      requires !s.ee.busy && !s.ee.finished
      ensures Valid() && Snapshot() == s && this.c == c && fresh(registers) && fresh(dataMem)
    {
      this.c := c;
      fe, ras, bht, hist, de, ee, em, mw, io := s.fe, s.ras, s.bht, s.hist, s.de, s.ee, s.em, s.mw, s.io;
      var r := new Word[32](k requires 0 <= k < 32 => s.regs[k]);
      var d := new Word[|s.mem|](k requires 0 <= k < |s.mem| => s.mem[k]);
      registers, dataMem := r, d;
      new;
      assert registers[..] == s.regs;
      assert dataMem[..] == s.mem;
    }

    ghost predicate Valid()
      reads this
    {
      registers != dataMem && registers.Length == 32
    }

    /** What the wires can see before the edge. */
    function Snapshot(): State
      requires registers.Length == 32
      reads this, registers, dataMem
    {
      State(fe, ras, bht, hist, de, ee, em, mw, registers[..], dataMem[..], io)
    }

    /** One rising clock edge: every block reads the snapshot, later assignments to a register win. */
    method Clock(i: Input)
      requires Valid()
      modifies this, registers, dataMem
      ensures Valid() && Snapshot() == Next(c, old(Snapshot()), i)
    {
      hide NextFetch, NextRas, NextDecode, NextDivider, NextHist, NextBht, NextExec, NextRegs, NextRam, MWbData;
      var s := Snapshot();
      FetchEdge(s, i);
      RasEdge(s, i);
      DecodeEdge(s, i);
      DividerEdge(s);
      BranchEdge(s);
      ExecuteEdge(s, i);
      mw := MemReg(s.em.pc, s.em.nop, s.em.rd, MWbData(c, s.em, i.ioRead, i.csrRead), s.em.wbEnable);
      RegisterFileEdge(s, i);
      MemoryEdge(s);
      if s.em.isStore && IsIO(s.em.addr) {
        io := io + [IoWrite(s.em.addr, s.em.rs2)];
      }
    }

    method FetchEdge(s: State, i: Input)
      requires fe == s.fe
      modifies this`fe
      ensures fe == NextFetch(c, s, i)
    {
      if !Stall(c, s, i) {
        var target := FetchPC(c, s);
        fe := fe.(fdInstr := Fetch(c, target, i.imem));
        fe := fe.(fdPc := target);
        fe := fe.(pc := Add(target, 4));
      }
      fe := fe.(fdNop := CorrectPC(c, s) || i.reset);
      if i.reset {
        fe := fe.(pc := 0);
      }
    }

    method RasEdge(s: State, i: Input)
      requires ras == s.ras
      modifies this`ras
      ensures ras == NextRas(c, s, i)
    {
      if !Stall(c, s, i) && !s.fe.fdNop && !CorrectPC(c, s) {
        var d := D(c, s);
        if (d.op == JAL || d.op == JALR) && d.rd == 1 {
          ras := Ras(Add(s.fe.fdPc, 4), s.ras.r0, s.ras.r1, s.ras.r2);
        }
        if d.op == JALR && d.rd == 0 && (d.rs1 == 1 || d.rs1 == 5) {
          ras := ras.(r0 := s.ras.r1, r1 := s.ras.r2, r2 := s.ras.r3);
        }
      }
    }

    method DecodeEdge(s: State, i: Input)
      requires de == s.de
      modifies this`de
      ensures de == NextDecode(c, s, i)
    {
      var d := D(c, s);
      if !Stall(c, s, i) {
        de := DecodeReg(s.fe.fdPc, false, FlagsOf(d), d, PredictBranch(c, s), c.index(s.fe.fdPc, s.hist), s.ras.r0);
      }
      if CorrectPC(c, s) || DataHazard(c, s) || s.fe.fdNop {
        de := de.(f := BUBBLE, nop := true);
      }
    }

    method DividerEdge(s: State)
      requires ee == s.ee
      modifies this`ee
      ensures ee == NextDivider(c, s)
    {
      var a, b := ERs1(s), ERs2(s);
      var f3 := s.de.d.f3;
      if !s.ee.busy {
        if s.de.f.isDIV && !DataHazard(c, s) && !s.ee.finished {
          ee := ee.(msk := 0x8000_0000, busy := true);
        }
        ee := ee.(dividend := Magnitude(f3, a), divisor := Magnitude(f3, b) * 0x8000_0000,
                  quotient := 0, sign := SignOut(f3, a, b));
      } else {
        if s.ee.divisor <= s.ee.dividend {
          ee := ee.(dividend := (s.ee.dividend - s.ee.divisor % MODULUS) % MODULUS,
                    quotient := OrBit(s.ee.quotient, s.ee.msk));
        }
        ee := ee.(divisor := s.ee.divisor / 2, msk := s.ee.msk / 2, busy := s.ee.msk % 2 == 0);
      }
      ee := ee.(finished := s.ee.msk % 2 == 1);
    }

    method BranchEdge(s: State)
      requires hist == s.hist && bht == s.bht
      modifies this`hist, this`bht
      ensures hist == NextHist(c, s) && bht == NextBht(c, s)
    {
      if !AluBusy(s) && s.de.f.isBranch {
        var taken := TakeBranch(c, s);
        var old_ := s.bht[s.de.bhtIndex];
        hist := (if taken then 256 else 0) + s.hist / 2;
        bht := bht[s.de.bhtIndex :=
          if !taken && old_ == 0 then 0
          else if !taken && old_ == 1 then 0
          else if !taken && old_ == 2 then 1
          else if !taken then 2
          else if old_ == 0 then 1
          else if old_ == 1 then 2
          else 3];
      }
    }

    method ExecuteEdge(s: State, i: Input)
      requires em == s.em
      modifies this`em
      ensures em == NextExec(c, s, i)
    {
      var f, d := s.de.f, s.de.d;
      if !AluBusy(s) {
        var addr := DataAddr(f, d, ERs1(s));
        em := ExecReg(s.de.pc, s.de.nop, f.isLoad, f.isStore, f.isCSR, d.rd, d.csr, d.f3, ERs2(s),
                      ExecResult(c, f, d, s.de.pc, ERs1(s), ERs2(s), s.ee), addr, ReadMem(s.mem, addr, i.dmem),
                      CorrectPC(c, s), PCCorrection(s), f.wbEnable && d.rd != 0);
      }
      if AluBusy(s) {
        em := em.(nop := true, isLoad := false, isStore := false, isCSR := false, correctPC := false, wbEnable := false);
      }
    }

    /** Thirty-one registers are written by number; x0 has no flip-flops. */
    method RegisterFileEdge(s: State, i: Input)
      requires registers.Length == 32 && registers[..] == s.regs && registers != dataMem
      modifies registers
      ensures registers[..] == NextRegs(s, i)
    {
      var rdId := if s.mw.wbEnable then s.mw.rd else 0;
      if i.reset {
        for k := 0 to 32
          invariant forall j | 0 <= j < k :: registers[j] == 0
        {
          registers[k] := 0;
        }
      } else if rdId != 0 {
        registers[rdId] := s.mw.data;
      }
      assert registers[..] == NextRegs(s, i);
    }

    method MemoryEdge(s: State)
      requires dataMem[..] == s.mem && registers != dataMem
      modifies dataMem
      ensures dataMem[..] == NextRam(c, s)
    {
      var k := WordIndex(s.em.addr);
      if s.em.isStore && !IsIO(s.em.addr) && k < dataMem.Length {
        dataMem[k] := c.store(s.em.f3, s.em.addr, s.em.rs2, dataMem[k]);
      }
    }
  }

  /** Clocking a booted processor t times leaves in its register file and data memory what the
      sequential machine has computed. */
  method Execute(p: Processor, w: World, t: nat) returns (retired: nat, stored: nat)
    requires p.Valid() && Booted(p.Snapshot()) && StaysInRom(p.c, w, p.Snapshot(), t)
    modifies p, p.registers, p.dataMem
    ensures p.Valid() && retired <= stored <= t
    ensures p.registers[..] == old(Spec(p.c, w, p.Snapshot(), retired)).regs
    ensures p.dataMem[..] == old(Spec(p.c, w, p.Snapshot(), stored)).mem
    ensures p.io == old(Spec(p.c, w, p.Snapshot(), stored)).io
  {
    hide Next, Spec, Booted, StaysInRom, AluBusy, InputAt;
    ghost var s0 := p.Snapshot();
    var issued := 0;
    retired := 0;
    for k := 0 to t
      invariant p.Valid()
      invariant Sim(p.Snapshot(), issued, retired) == Run(p.c, w, s0, k)
    {
      var s := p.Snapshot();
      p.Clock(InputAt(w, k, issued));
      if Refinement.Issue(s) { issued := issued + 1; }
      if !s.mw.nop { retired := retired + 1; }
    }
    PipelineRefines(p.c, w, s0, t);
    stored := issued - Bit(!p.em.nop);
  }

  /** The sequential processor with its RAM. */
  class SequentialProcessor {
    const rom: Rom
    var pc: Word
    var instr: Word
    var rs1: Word
    var rs2: Word
    var phase: Phase
    var halt: bool
    var ramOut: Word
    const registers: array<Word>
    const ram: array<Word>
    var io: seq<IoWrite>

    constructor (rom: Rom, s: SeqState)
      ensures Valid() && Snapshot() == s && this.rom == rom && fresh(registers) && fresh(ram)
    {
      this.rom := rom;
      pc, instr, rs1, rs2, phase, halt := s.pc, s.instr, s.rs1, s.rs2, s.phase, s.halt;
      ramOut, io := s.ramOut, s.io;
      var r := new Word[32](k requires 0 <= k < 32 => s.regs[k]);
      var d := new Word[|s.mem|](k requires 0 <= k < |s.mem| => s.mem[k]);
      registers, ram := r, d;
      new;
      assert registers[..] == s.regs;
      assert ram[..] == s.mem;
    }

    ghost predicate Valid()
      reads this
    {
      registers != ram && registers.Length == 32
    }

    function Snapshot(): SeqState
      requires registers.Length == 32
      reads this, registers, ram
    {
      SeqState(pc, instr, rs1, rs2, registers[..], phase, halt, ramOut, ram[..], io)
    }

    /** posedge reset, or a clock edge with reset high: the memory strobes are off in the fetch state. */
    method Reset()
      requires Valid()
      modifies this
      ensures Valid() && Snapshot() == SeqReset(old(Snapshot()))
    {
      pc := 0;
      phase := FetchInstr;
    }

    method Clock(x: Word)
      requires Valid()
      modifies this, registers, ram
      ensures Valid() && Snapshot() == SeqNext(rom, old(Snapshot()), x)
    {
      hide Decode, WriteBackData, LoadStoreAddr, StoreWord, StoreData, SeqNextPC, SeqEbreak, Is;
      var s := Snapshot();
      var d := Decode(s.instr);
      var addr := LoadStoreAddr(s);
      if WriteBackEn(s) && d.rd != 0 {
        registers[d.rd] := WriteBackData(s, x);
      }
      assert registers[..] == SeqRegs(s, x);
      if s.phase == Execute && Is(s.instr, LOAD) && !IsIO(addr) {
        ramOut := ReadMem(s.mem, addr, x);
      }
      if s.phase == Execute && Is(s.instr, STORE) {
        if IsIO(addr) {
          io := io + [IoWrite(addr, StoreData(addr, s.rs2))];
        } else if WordIndex(addr) < ram.Length {
          ram[WordIndex(addr)] := StoreWord(d.f3, addr, s.rs2, ram[WordIndex(addr)]);
        }
      }
      assert ram[..] == SeqRam(s);
      match s.phase {
        case FetchInstr =>
          instr := rom[WordIndex(pc) % ROM_WORDS];
          phase := WaitInstr;
        case WaitInstr =>
          rs1 := Read(s.regs, d.rs1);
          rs2 := Read(s.regs, d.rs2);
          phase := Execute;
        case Execute =>
          if !SeqEbreak(s.instr) {
            pc := SeqNextPC(s);
          } else {
            halt := true;
          }
          phase := if Is(s.instr, LOAD) then WaitData else FetchInstr;
        case WaitData =>
          phase := FetchInstr;
      }
    }
  }
}
