/** The dual-output read controllers of src/Extern/spiFlash.v; `spiFlash` is the one with eight bytes,
    `dspiFlash` the one with thirty-two and a byte count input. */
module SpiController {
  /** Most significant bit first. */
  type Word32 = b: seq<bool> | |b| == 32 witness seq(32, _ => false)

  /** Bits 31 down to 0 of {8'h3B, raddr_i}. */
  function MsbFirst(v: nat, n: nat): (b: seq<bool>)
    ensures |b| == n
  {
    if n == 0 then [] else MsbFirst(v / 2, n - 1) + [v % 2 == 1]
  }

  const COMMAND: nat := 0x3B

  function Request(addr: nat): Word32 {
    MsbFirst(COMMAND, 8) + MsbFirst(addr, 24)
  }

  /** spiCs_o, snd_count, snd_data, wait_count, rcv_count, rcv_byteCount and rcv_data. */
  datatype Ctl = Ctl(cs: bool, snd: nat, sndData: Word32, wait: nat, rcv: nat, byteCount: nat, data: seq<int>)

  /** `count` is numBytes_i, the constant 8 in `spiFlash`; miso and mosi are the two data lines. */
  datatype CtlIn = CtlIn(reset: bool, strobe: bool, addr: nat, count: nat, miso: bool, mosi: bool)

  function Bit(b: bool): int {
    if b then 1 else 0
  }

  /** {d[5:0], miso, mosi} */
  function ShiftPair(d: int, miso: bool, mosi: bool): int {
    d % 64 * 4 + 2 * Bit(miso) + Bit(mosi)
  }

  predicate CtlBusy(c: Ctl) {
    c.snd != 0 || c.wait != 0 || c.rcv != 0
  }

  function Captured(c: Ctl, i: CtlIn): seq<int> {
    if 1 <= c.rcv <= |c.data| then c.data[c.rcv - 1 := ShiftPair(c.data[c.rcv - 1], i.miso, i.mosi)] else c.data
  }

  function CtlNext(c: Ctl, i: CtlIn): Ctl {
    if i.reset then Ctl(true, 0, seq(32, _ => false), 0, 0, c.byteCount, c.data)
    else if i.strobe then c.(cs := false, sndData := Request(i.addr), snd := 32)
    else
      Ctl(!CtlBusy(c) || c.cs,
          if c.snd != 0 then c.snd - 1 else 0,
          if c.snd != 0 then c.sndData[1..] + [true] else c.sndData,
          if c.wait != 0 then c.wait - 1 else if c.snd == 1 then 8 else 0,
          if c.rcv != 0 && c.byteCount == 0 then c.rcv - 1 else if c.wait == 1 then i.count else c.rcv,
          if c.rcv != 0 then (c.byteCount + 3) % 4 else if c.wait == 1 then 3 else c.byteCount,
          Captured(c, i))
  }

  predicate MosiOut(c: Ctl) {
    c.snd != 0 && c.sndData[0]
  }

  /** The same registers, updated in place at each clock edge. */
  class FlashController {
    var cs: bool
    var snd: nat
    var sndData: Word32
    var wait: nat
    var rcv: nat
    var byteCount: nat
    const data: array<int>

    constructor (entries: nat)
      ensures fresh(data) && data.Length == entries && cs && snd == 0 && wait == 0 && rcv == 0 && byteCount == 0
    {
      cs, snd, sndData, wait, rcv, byteCount := true, 0, seq(32, _ => false), 0, 0, 0;
      data := new int[entries];
    }

    function Snapshot(): Ctl
      reads this, data
    {
      Ctl(cs, snd, sndData, wait, rcv, byteCount, data[..])
    }

    method Clock(i: CtlIn)
      modifies this, data
      ensures Snapshot() == CtlNext(old(Snapshot()), i)
    {
      hide Request, ShiftPair;
      var c := Snapshot();
      if i.reset {
        cs, sndData, snd, wait, rcv := true, seq(32, _ => false), 0, 0, 0;
      } else if i.strobe {
        cs, sndData, snd := false, Request(i.addr), 32;
      } else {
        SendEdge(c);
        WaitEdge(c, i);
        if c.rcv != 0 { ReceiveEdge(c, i); }
        if !CtlBusy(c) { cs := true; }
      }
    }

    method SendEdge(c: Ctl)
      requires c == Snapshot()
      modifies this`snd, this`sndData, this`wait
      ensures snd == (if c.snd != 0 then c.snd - 1 else 0) && wait == (if c.snd == 1 then 8 else c.wait)
      ensures sndData == (if c.snd != 0 then c.sndData[1..] + [true] else c.sndData)
    {
      if c.snd != 0 {
        if c.snd == 1 { wait := 8; }
        snd := c.snd - 1;
        sndData := c.sndData[1..] + [true];
      }
    }

    method WaitEdge(c: Ctl, i: CtlIn)
      requires rcv == c.rcv && byteCount == c.byteCount
      modifies this`wait, this`rcv, this`byteCount
      ensures wait == (if c.wait != 0 then c.wait - 1 else old(wait))
      ensures rcv == (if c.wait == 1 then i.count else c.rcv) && byteCount == (if c.wait == 1 then 3 else c.byteCount)
    {
      if c.wait != 0 {
        if c.wait == 1 { rcv, byteCount := i.count, 3; }
        wait := c.wait - 1;
      }
    }

    method ReceiveEdge(c: Ctl, i: CtlIn)
      requires c.rcv != 0 && data[..] == c.data
      modifies this`rcv, this`byteCount, data
      ensures rcv == (if c.byteCount == 0 then c.rcv - 1 else old(rcv)) && byteCount == (c.byteCount + 3) % 4
      ensures data[..] == Captured(c, i)
    {
      hide ShiftPair;
      byteCount := (c.byteCount + 3) % 4;
      if c.byteCount == 0 {
        byteCount := 3;
        rcv := c.rcv - 1;
      }
      if c.rcv <= data.Length {
        data[c.rcv - 1] := ShiftPair(c.data[c.rcv - 1], i.miso, i.mosi);
      }
    }
  }
}

/** The flash side, tb/peripherals/spiflash.cpp: one call per half clock. */
module FlashChip {
  import opened SpiController

  datatype Stage = ChipIdle | ReadCommand | ReadAddress | Dummy | Send
  datatype Mode = Single | DualOut | OtherMode

  /** m_state, m_mode, m_last_sck, m_command, m_address, m_count, m_data and m_dataMask. */
  datatype Chip = Chip(stage: Stage, mode: Mode, last: bool, command: nat, addr: nat, count: nat, data: int, mask: nat)

  function ModeOf(command: nat): Mode {
    if command == 0x3B then DualOut else if command == 0x6B || command == 0xBB || command == 0xEB then OtherMode else Single
  }

  predicate Masked(data: int, mask: nat) {
    mask > 0 && data / mask % 2 == 1
  }

  /** One byte of flash; beyond the end the value is not defined by the source. */
  function ByteAt(mem: seq<int>, a: nat): int {
    if a < |mem| then mem[a] else 255
  }

  /** Rising clock edge: collect the command and the address. */
  function Rise(f: Chip, dat: bool): Chip {
    var g := if f.stage == ChipIdle then f.(stage := ReadCommand, command := 0, addr := 0) else f;
    var h := match g.stage
      case ReadCommand =>
        var command := g.command * 2 + Bit(dat);
        if g.count == 7 then g.(command := command, stage := ReadAddress, mode := ModeOf(command))
        else g.(command := command)
      case ReadAddress =>
        g.(addr := g.addr * 2 + Bit(dat), stage := if g.count == 31 then Dummy else ReadAddress)
      case Dummy => if g.count == 39 then g.(stage := Send) else g
      case _ => g;
    h.(count := g.count + 1, last := true)
  }

  /** Falling clock edge: the new state and the bits put on miso and mosi. */
  function Fall(f: Chip, mem: seq<int>): (Chip, bool, bool) {
    if f.stage == Send && f.mode != OtherMode then
      var refill := f.count % (if f.mode == Single then 8 else 4) == 0;
      var g := if refill then f.(data := ByteAt(mem, f.addr), mask := 128, addr := f.addr + 1) else f;
      if f.mode == Single then (g.(mask := g.mask / 2, last := false), Masked(g.data, g.mask), false)
      else (g.(mask := g.mask / 2 / 2, last := false), Masked(g.data, g.mask), Masked(g.data, g.mask / 2))
    else (f.(last := false), false, false)
  }

  function Call(f: Chip, mem: seq<int>, csn: bool, sck: bool, dat: bool): (Chip, bool, bool) {
    if csn then (f.(last := true, count := 0, stage := ChipIdle), dat, false)
    else if sck && !f.last then (Rise(f, dat), false, false)
    else if !sck && f.last then Fall(f, mem)
    else (f.(last := sck), false, false)
  }

  class FlashModel {
    const mem: seq<int>
    var stage: Stage
    var mode: Mode
    var last: bool
    var command: nat
    var addr: nat
    var count: nat
    var data: int
    var mask: nat

    constructor (mem: seq<int>)
      ensures this.mem == mem && stage == ChipIdle && mode == Single && last
    {
      this.mem := mem;
      stage, mode, last := ChipIdle, Single, true;
      command, addr, count, data, mask := 0, 0, 0, 0, 0;
    }

    function Snapshot(): Chip
      reads this
    {
      Chip(stage, mode, last, command, addr, count, data, mask)
    }

    method Operate(csn: bool, sck: bool, dat: bool) returns (miso: bool, mosi: bool)
      modifies this
      ensures (Snapshot(), miso, mosi) == Call(old(Snapshot()), mem, csn, sck, dat)
    {
      hide Rise, Fall;
      miso, mosi := false, false;
      if csn {
        last, count, stage := true, 0, ChipIdle;
        miso := dat;
      } else if sck && !last {
        RisingEdge(dat);
      } else if !sck && last {
        miso, mosi := FallingEdge();
      } else {
        last := sck;
      }
    }

    method RisingEdge(dat: bool)
      modifies this
      ensures Snapshot() == Rise(old(Snapshot()), dat)
    {
      if stage == ChipIdle {
        stage, command, addr := ReadCommand, 0, 0;
      }
      if stage == ReadCommand {
        command := command * 2 + Bit(dat);
        if count == 7 {
          stage, mode := ReadAddress, ModeOf(command);
        }
      } else if stage == ReadAddress {
        addr := addr * 2 + Bit(dat);
        if count == 31 { stage := Dummy; }
      } else if stage == Dummy {
        if count == 39 { stage := Send; }
      }
      count, last := count + 1, true;
    }

    method FallingEdge() returns (miso: bool, mosi: bool)
      modifies this
      ensures (Snapshot(), miso, mosi) == Fall(old(Snapshot()), mem)
    {
      miso, mosi := false, false;
      if stage == Send && mode == Single {
        if count % 8 == 0 {
          data, mask, addr := ByteAt(mem, addr), 128, addr + 1;
        }
        miso := Masked(data, mask);
        mask := mask / 2;
      } else if stage == Send && mode == DualOut {
        if count % 4 == 0 {
          data, mask, addr := ByteAt(mem, addr), 128, addr + 1;
        }
        miso := Masked(data, mask);
        mask := mask / 2;
        mosi := Masked(data, mask);
        mask := mask / 2;
      }
      last := false;
    }
  }
}

/** Controller and flash on the test bench: tb/simMain.cpp:119-126. */
module SpiLink {
  import opened Arith
  import opened SpiController
  import opened FlashChip

  datatype Bench = Bench(ctl: Ctl, chip: Chip, miso: bool, mosi: bool)

  /** What the processor asks of the controller on one clock. */
  datatype Ask = Ask(strobe: bool, addr: nat, count: nat)

  /** Rising edge of the clock, a call of the flash with sck low, its answer onto the data lines, falling edge of the
      clock, and a second call with sck following it. */
  function BenchTick(b: Bench, mem: seq<int>, a: Ask): Bench {
    var c := CtlNext(b.ctl, CtlIn(false, a.strobe, a.addr, a.count, b.miso, b.mosi));
    var low := Call(b.chip, mem, c.cs, false, MosiOut(c));
    var high := Call(low.0, mem, c.cs, !c.cs, MosiOut(c));
    Bench(c, high.0, low.1, low.2)
  }

  /** The bench with its two devices, updated in place. */
  class TestBench {
    const ctl: FlashController
    const flash: FlashModel
    var miso: bool
    var mosi: bool

    constructor (ctl: FlashController, flash: FlashModel)
      ensures this.ctl == ctl && this.flash == flash && !miso && !mosi
    {
      this.ctl, this.flash, miso, mosi := ctl, flash, false, false;
    }

    function Snapshot(): Bench
      reads this, ctl, ctl.data, flash
    {
      Bench(ctl.Snapshot(), flash.Snapshot(), miso, mosi)
    }

    method Tick(a: Ask)
      modifies this, ctl, ctl.data, flash
      ensures Snapshot() == BenchTick(old(Snapshot()), flash.mem, a)
    {
      hide CtlNext, Call, MosiOut;
      ctl.Clock(CtlIn(false, a.strobe, a.addr, a.count, miso, mosi));
      var csn, dat := ctl.cs, MosiOut(ctl.Snapshot());
      miso, mosi := flash.Operate(csn, false, dat);
      var _, _ := flash.Operate(csn, !csn, dat);
    }
  }

  /** How far a transfer has come: k bits after the first, waiting, or r bit pairs into byte i. */
  datatype Phase = Ready | Sending(k: nat) | Waiting(w: nat) | Receiving(i: nat, r: nat)

  function Advance(p: Phase, n: nat): Phase {
    match p
    case Ready => Ready
    case Sending(k) => if k < 31 then Sending(k + 1) else Waiting(0)
    case Waiting(w) => if w < 7 then Waiting(w + 1) else Receiving(0, 0)
    case Receiving(i, r) => if i >= n then Ready else if r < 3 then Receiving(i, r + 1) else Receiving(i + 1, 0)
  }

  predicate PhaseOk(p: Phase, n: nat) {
    match p
    case Ready => true
    case Sending(k) => k < 32
    case Waiting(w) => w < 8
    case Receiving(i, r) => i <= n && r < 4 && (i == n ==> r == 0)
  }

  /** The number whose bits are x, most significant first. */
  function Fold(x: seq<bool>): (v: nat) {
    if x == [] then 0 else 2 * Fold(x[..|x| - 1]) + Bit(x[|x| - 1])
  }

  /** The flash contents are bytes. */
  predicate Bytes(mem: seq<int>) {
    forall k :: 0 <= k < |mem| ==> 0 <= mem[k] < 256
  }

  /** Transfer of n bytes from addr. */
  datatype Job = Job(addr: nat, n: nat)

  /** The request fits in the address, in the receive buffer and in the flash, counting the byte the flash side
      fetches beyond the last. */
  predicate JobOk(j: Job, mem: seq<int>, entries: nat) {
    Bytes(mem) && j.addr + j.n < |mem| && |mem| <= 0x100_0000 && j.n <= entries
  }

  /** Entries from `low` up hold their bytes of flash: the first byte read is in the highest entry used. */
  predicate Landed(data: seq<int>, mem: seq<int>, j: Job, low: nat)
    requires j.n <= |data| && j.addr + j.n < |mem|
  {
    forall m :: low <= m < j.n ==> data[m] == mem[j.addr + j.n - 1 - m]
  }

  /** The controller in each phase; `was` is the receive buffer before the transfer. */
  predicate CtlAt(c: Ctl, mem: seq<int>, j: Job, p: Phase, was: seq<int>)
    requires JobOk(j, mem, |was|)
  {
    && PhaseOk(p, j.n) && |c.data| == |was|
    && c.cs == p.Ready?
    && c.snd == (if p.Sending? then 32 - p.k else 0)
    && c.wait == (if p.Waiting? then 8 - p.w else 0)
    && c.rcv == (if p.Receiving? then j.n - p.i else 0)
    && (p.Sending? ==> c.sndData[..32 - p.k] == Request(j.addr)[p.k..])
    && (p.Receiving? ==> c.byteCount == 3 - p.r)
    && (forall m :: (if p.Ready? || p.Receiving? then j.n else 0) <= m < |was| ==> c.data[m] == was[m])
    && (p.Ready? ==> Landed(c.data, mem, j, 0))
    && (p.Receiving? ==>
          && Landed(c.data, mem, j, j.n - p.i)
          && (p.i < j.n ==> c.data[j.n - 1 - p.i] % Pow2(2 * p.r) == mem[j.addr + p.i] / Pow2(2 * (4 - p.r))))
  }

  /** The flash in each phase. */
  predicate ChipAt(f: Chip, mem: seq<int>, j: Job, p: Phase)
    requires j.addr + j.n < |mem|
  {
    && PhaseOk(p, j.n) && f.last
    && match p
       case Ready => f.stage == ChipIdle && f.count == 0
       case Sending(k) =>
         && f.count == k + 1
         && f.stage == (if k < 7 then ReadCommand else if k < 31 then ReadAddress else Dummy)
         && (if k <= 7 then f.command == Fold(Request(j.addr)[..k + 1]) && f.addr == 0
             else f.addr == Fold(Request(j.addr)[8..k + 1]))
         && (k >= 7 ==> f.mode == DualOut)
       case Waiting(w) =>
         f.count == 33 + w && f.stage == (if w < 7 then Dummy else Send) && f.addr == j.addr && f.mode == DualOut
       case Receiving(i, r) =>
         && f.count == 41 + 4 * i + r && f.stage == Send && f.mode == DualOut
         && f.addr == j.addr + i + 1 && f.data == mem[j.addr + i]
         && f.mask == (match r case 0 => 32 case 1 => 8 case 2 => 2 case _ => 0)
  }

  /** The two data lines while receiving: the next pair of the byte. */
  predicate LinesAt(b: Bench, mem: seq<int>, j: Job, p: Phase)
    requires j.addr + j.n < |mem|
  {
    p.Receiving? && p.i <= j.n && p.r < 4 ==>
      2 * Bit(b.miso) + Bit(b.mosi) == mem[j.addr + p.i] / Pow2(2 * (3 - p.r)) % 4
  }

  ghost predicate BenchAt(b: Bench, mem: seq<int>, j: Job, p: Phase, was: seq<int>)
    requires JobOk(j, mem, |was|)
  {
    CtlAt(b.ctl, mem, j, p, was) && ChipAt(b.chip, mem, j, p) && LinesAt(b, mem, j, p)
  }

  // ------------------------------------------------------------ the controller, phase by phase

  /** No reset, no strobe; the byte count is read when waiting ends. */
  predicate Undisturbed(i: CtlIn, j: Job, p: Phase) {
    !i.reset && !i.strobe && (p == Waiting(7) ==> i.count == j.n)
  }

  lemma CtlSends(c: Ctl, mem: seq<int>, j: Job, p: Phase, was: seq<int>, i: CtlIn)
    requires JobOk(j, mem, |was|) && CtlAt(c, mem, j, p, was) && Undisturbed(i, j, p) && !p.Receiving?
    ensures CtlAt(CtlNext(c, i), mem, j, Advance(p, j.n), was)
  {
    hide Request, ShiftPair, Pow2;
    if p.Sending? && p.k < 31 {
      assert (c.sndData[1..] + [true])[..31 - p.k] == c.sndData[..32 - p.k][1..];
    }
    if p == Waiting(7) && j.n > 0 {
      FirstPair(mem[j.addr], c.data[j.n - 1]);
    }
  }

  /** Shifting in the next pair of a byte. */
  lemma PairShift(d: int, b: int, r: nat, miso: bool, mosi: bool)
    requires 0 <= b < 256 && r < 4 && d % Pow2(2 * r) == b / Pow2(2 * (4 - r))
    requires 2 * Bit(miso) + Bit(mosi) == b / Pow2(2 * (3 - r)) % 4
    ensures ShiftPair(d, miso, mosi) % Pow2(2 * (r + 1)) == b / Pow2(2 * (3 - r))
    ensures r == 3 ==> ShiftPair(d, miso, mosi) == b
  {
    hide Bit, Pow2;
    var pair := 2 * Bit(miso) + Bit(mosi);
    assert ShiftPair(d, miso, mosi) == d % 64 * 4 + pair;
    hide ShiftPair;
    Powers();
    if r == 0 {
      LeadingPair(d, b, pair);
    } else if r == 1 {
      SecondPair(d, b, pair);
    } else if r == 2 {
      ThirdPair(d, b, pair);
    } else {
      LastPair(d, b, pair);
    }
  }

  lemma LeadingPair(d: int, b: int, pair: int)
    requires 0 <= b < 256 && pair == b / 64 % 4
    ensures (d % 64 * 4 + pair) % 4 == b / 64
  {
    DivModUnique(d % 64 * 4 + pair, 4, d % 64, pair);
  }

  lemma LastPair(d: int, b: int, pair: int)
    requires 0 <= b < 256 && d % 64 == b / 4 && pair == b / 1 % 4
    ensures d % 64 * 4 + pair == b && (d % 64 * 4 + pair) % 256 == b / 1
  {
  }

  /** Remainders by a divisor of 64 may be taken after the remainder by 64. */
  lemma NarrowMod(d: int, m: nat, k: nat)
    requires m > 0 && m * k == 64
    ensures d % 64 % m == d % m
  {
    var q, e := d / 64, d % 64;
    DivModBasic(d, 64);
    DivModBasic(e, m);
    assert q * 64 == (q * k) * m;
    Distribute(q * k, e / m, m);
    DivModUnique(d, m, q * k + e / m, e % m);
  }

  lemma SecondPair(d: int, b: int, pair: int)
    requires 0 <= b < 256 && d % 4 == b / 64 && pair == b / 16 % 4
    ensures (d % 64 * 4 + pair) % 16 == b / 16
  {
    NarrowMod(d, 4, 16);
    var e := d % 64;
    DivModBasic(e, 4);
    assert 4 * (b / 64) + pair == b / 16;
    DivModUnique(e * 4 + pair, 16, e / 4, b / 16);
  }

  lemma ThirdPair(d: int, b: int, pair: int)
    requires 0 <= b < 256 && d % 16 == b / 16 && pair == b / 4 % 4
    ensures (d % 64 * 4 + pair) % 64 == b / 4
  {
    NarrowMod(d, 16, 4);
    var e := d % 64;
    DivModBasic(e, 16);
    assert 4 * (b / 16) + pair == b / 4;
    DivModUnique(e * 4 + pair, 64, e / 16, b / 4);
  }

  lemma Powers()
    ensures Pow2(0) == 1 && Pow2(2) == 4 && Pow2(4) == 16 && Pow2(6) == 64 && Pow2(8) == 256
  {
  }

  lemma CtlReceives(c: Ctl, mem: seq<int>, j: Job, p: Phase, was: seq<int>, i: CtlIn)
    requires JobOk(j, mem, |was|) && CtlAt(c, mem, j, p, was) && Undisturbed(i, j, p) && p.Receiving?
    requires 2 * Bit(i.miso) + Bit(i.mosi) == mem[j.addr + p.i] / Pow2(2 * (3 - p.r)) % 4
    ensures CtlAt(CtlNext(c, i), mem, j, Advance(p, j.n), was)
  {
    if p.i == j.n {
      CtlFinishes(c, mem, j, p, was, i);
    } else {
      CtlTakesPair(c, mem, j, p, was, i);
    }
  }

  /** The clock after the last pair. */
  lemma CtlFinishes(c: Ctl, mem: seq<int>, j: Job, p: Phase, was: seq<int>, i: CtlIn)
    requires JobOk(j, mem, |was|) && CtlAt(c, mem, j, p, was) && Undisturbed(i, j, p) && p.Receiving? && p.i == j.n
    ensures CtlAt(CtlNext(c, i), mem, j, Advance(p, j.n), was)
  {
    hide Request, ShiftPair, Pow2, Bytes;
  }

  /** A clock that takes a pair of bits. */
  lemma CtlTakesPair(c: Ctl, mem: seq<int>, j: Job, p: Phase, was: seq<int>, i: CtlIn)
    requires JobOk(j, mem, |was|) && CtlAt(c, mem, j, p, was) && Undisturbed(i, j, p) && p.Receiving? && p.i < j.n
    requires 2 * Bit(i.miso) + Bit(i.mosi) == mem[j.addr + p.i] / Pow2(2 * (3 - p.r)) % 4
    ensures CtlAt(CtlNext(c, i), mem, j, Advance(p, j.n), was)
  {
    hide Request, ShiftPair, Pow2, Landed;
    var k := j.n - 1 - p.i;
    var data := CtlNext(c, i).data;
    PairShift(c.data[k], mem[j.addr + p.i], p.r, i.miso, i.mosi);
    assert data == c.data[k := ShiftPair(c.data[k], i.miso, i.mosi)];
    LandedElsewhere(c.data, mem, j, k, data[k]);
    if p.r == 3 {
      LandsByte(data, mem, j, k);
      if k > 0 { FirstPair(mem[j.addr + p.i + 1], data[k - 1]); }
    }
  }

  /** Writing below the bytes that have landed leaves them alone. */
  lemma LandedElsewhere(data: seq<int>, mem: seq<int>, j: Job, k: nat, d: int)
    requires j.n <= |data| && j.addr + j.n < |mem| && k < j.n && Landed(data, mem, j, k + 1)
    ensures Landed(data[k := d], mem, j, k + 1)
  {
  }

  lemma LandsByte(data: seq<int>, mem: seq<int>, j: Job, k: nat)
    requires j.n <= |data| && j.addr + j.n < |mem| && k < j.n && Landed(data, mem, j, k + 1)
    requires data[k] == mem[j.addr + j.n - 1 - k]
    ensures Landed(data, mem, j, k)
  {
  }

  lemma FirstPair(b: int, d: int)
    requires 0 <= b < 256
    ensures d % Pow2(0) == b / Pow2(8)
  {
  }

  lemma CtlStarts(c: Ctl, mem: seq<int>, j: Job, i: CtlIn)
    requires !i.reset && i.strobe && i.addr == j.addr && c.cs && !CtlBusy(c)
    requires JobOk(j, mem, |c.data|)
    ensures CtlAt(CtlNext(c, i), mem, j, Sending(0), c.data)
  {
    hide Request;
  }

  // ------------------------------------------------------------ the flash, phase by phase

  lemma FoldStep(x: seq<bool>, k: nat, low: nat)
    requires low <= k < |x|
    ensures Fold(x[low..k + 1]) == 2 * Fold(x[low..k]) + Bit(x[k])
  {
    var y := x[low..k + 1];
    assert y[..|y| - 1] == x[low..k];
  }

  lemma {:induction false} FoldMsbFirst(v: nat, n: nat)
    requires v < Pow2(n)
    ensures Fold(MsbFirst(v, n)) == v
  {
    hide Pow2, Fold;
    if n > 0 {
      Pow2Step(n - 1);
      FoldMsbFirst(v / 2, n - 1);
      var x := MsbFirst(v, n);
      hide MsbFirst;
      FoldLast(MsbFirst(v / 2, n - 1), v % 2 == 1);
      assert x == MsbFirst(v / 2, n - 1) + [v % 2 == 1];
    } else {
      EmptyFold(MsbFirst(v, n));
      NoBits();
    }
  }

  lemma FoldLast(x: seq<bool>, b: bool)
    ensures Fold(x + [b]) == 2 * Fold(x) + Bit(b)
  {
    assert (x + [b])[..|x|] == x;
  }

  lemma NoBits()
    ensures Pow2(0) == 1
  {
  }

  /** Read from the wire, the request is the dual-output read command and the address. */
  lemma RequestFolds(addr: nat)
    requires addr < 0x100_0000
    ensures Fold(Request(addr)[..8]) == COMMAND && Fold(Request(addr)[8..]) == addr
  {
    hide MsbFirst, Fold;
    assert Request(addr)[..8] == MsbFirst(COMMAND, 8) && Request(addr)[8..] == MsbFirst(addr, 24);
    PowersOfTwo(8, 24);
    FoldMsbFirst(COMMAND, 8);
    FoldMsbFirst(addr, 24);
  }

  lemma PowersOfTwo(a: nat, b: nat)
    requires a == 8 && b == 24
    ensures Pow2(a) == 256 && Pow2(b) == 0x100_0000
  {
    assert Pow2(b - a - 8) == 256 && Pow2(a + 8) == 256 * Pow2(a);
    assert Pow2(b) == 256 * Pow2(b - 8);
  }

  /** The two calls of one clock. */
  function TwoCalls(f: Chip, mem: seq<int>, cs: bool, dat: bool): (Chip, bool, bool) {
    var low := Call(f, mem, cs, false, dat);
    (Call(low.0, mem, cs, !cs, dat).0, low.1, low.2)
  }

  /** The first eight bits make the command. */
  lemma ChipTakesCommand(f: Chip, mem: seq<int>, j: Job, p: Phase, dat: bool)
    requires j.addr + j.n < |mem| <= 0x100_0000 && ChipAt(f, mem, j, p)
    requires (p.Ready? && dat == Request(j.addr)[0]) || (p.Sending? && p.k < 7 && dat == Request(j.addr)[p.k + 1])
    ensures ChipAt(TwoCalls(f, mem, false, dat).0, mem, j, if p.Ready? then Sending(0) else Advance(p, j.n))
  {
    hide Request, MsbFirst, Fold;
    var k := if p.Ready? then 0 else p.k + 1;
    FoldStep(Request(j.addr), k, 0);
    assert Request(j.addr)[0..k] == Request(j.addr)[..k] && Request(j.addr)[0..k + 1] == Request(j.addr)[..k + 1];
    EmptyFold(Request(j.addr)[..0]);
    RequestFolds(j.addr);
  }

  lemma EmptyFold(x: seq<bool>)
    requires x == []
    ensures Fold(x) == 0
  {
  }

  /** The next twenty-four make the address; eight clocks are skipped. */
  lemma ChipTakesAddress(f: Chip, mem: seq<int>, j: Job, p: Phase, dat: bool)
    requires j.addr + j.n < |mem| <= 0x100_0000 && ChipAt(f, mem, j, p)
    requires (p.Sending? && 7 <= p.k && (p.k < 31 ==> dat == Request(j.addr)[p.k + 1])) || (p.Waiting? && p.w < 7)
    ensures ChipAt(TwoCalls(f, mem, false, dat).0, mem, j, Advance(p, j.n))
  {
    hide Request, MsbFirst, Fold;
    if p.Sending? && p.k < 31 { FoldStep(Request(j.addr), p.k + 1, 8); }
    EmptyFold(Request(j.addr)[8..8]);
    RequestFolds(j.addr);
    assert Request(j.addr)[8..32] == Request(j.addr)[8..];
  }

  /** Two neighbouring bits of a byte. */
  lemma PairOfBits(b: int, r: nat)
    requires 0 <= b < 256 && r < 4
    ensures var mask := match r case 0 => 128 case 1 => 32 case 2 => 8 case _ => 2;
            2 * Bit(Masked(b, mask)) + Bit(Masked(b, mask / 2)) == b / Pow2(2 * (3 - r)) % 4
  {
    hide Masked, Bit, Pow2;
    Powers();
    match r {
      case 0 => HighLow(b, 64);
      case 1 => HighLow(b, 16);
      case 2 => HighLow(b, 4);
      case _ => HighLow(b, 1);
    }
  }

  lemma HighLow(b: int, m: nat)
    requires 0 <= b < 256 && m > 0
    ensures 2 * Bit(Masked(b, 2 * m)) + Bit(Masked(b, m)) == b / m % 4
  {
    Commute(m, 2);
    DivDiv(b, m, 2);
    TwoBits(b / m, b / (2 * m));
  }

  lemma TwoBits(q: int, h: int)
    requires h == q / 2
    ensures 2 * Bit(h % 2 == 1) + Bit(q % 2 == 1) == q % 4
  {
  }

  /** The chip after a clock in which it answered with pair r of byte i. */
  lemma ChipAdvances(f: Chip, mem: seq<int>, j: Job, p: Phase, dat: bool)
    requires j.addr + j.n < |mem| && ChipAt(f, mem, j, p) && (p == Waiting(7) || (p.Receiving? && p.i < j.n))
    ensures var r := TwoCalls(f, mem, false, dat); var q := Advance(p, j.n);
            && ChipAt(r.0, mem, j, q) && q.Receiving? && q.i <= j.n && q.r < 4
            && var mask := match q.r case 0 => 128 case 1 => 32 case 2 => 8 case _ => 2;
               r.1 == Masked(mem[j.addr + q.i], mask) && r.2 == Masked(mem[j.addr + q.i], mask / 2)
  {
    hide Request, MsbFirst, Fold, Masked;
  }

  /** Each falling edge then answers with the next pair of bits. */
  lemma ChipSends(f: Chip, mem: seq<int>, j: Job, p: Phase, dat: bool)
    requires Bytes(mem) && j.addr + j.n < |mem| <= 0x100_0000 && ChipAt(f, mem, j, p)
    requires p == Waiting(7) || (p.Receiving? && p.i < j.n)
    ensures var r := TwoCalls(f, mem, false, dat); var q := Advance(p, j.n);
            && ChipAt(r.0, mem, j, q) && q.Receiving?
            && 2 * Bit(r.1) + Bit(r.2) == mem[j.addr + q.i] / Pow2(2 * (3 - q.r)) % 4
  {
    hide ChipAt, TwoCalls, Masked, Pow2, Bit;
    ChipAdvances(f, mem, j, p, dat);
    var q := Advance(p, j.n);
    PairOfBits(mem[j.addr + q.i], q.r);
  }

  // ------------------------------------------------------------ both sides, clock by clock

  lemma BitOnWire(c: Ctl, mem: seq<int>, j: Job, p: Phase, was: seq<int>)
    requires JobOk(j, mem, |was|) && CtlAt(c, mem, j, p, was) && p.Sending?
    ensures MosiOut(c) == Request(j.addr)[p.k]
  {
    hide Request;
    assert c.sndData[..32 - p.k][0] == c.sndData[0];
  }

  /** A clock of a transfer. */
  lemma TransferTick(b: Bench, mem: seq<int>, a: Ask, j: Job, p: Phase, was: seq<int>)
    requires JobOk(j, mem, |was|) && BenchAt(b, mem, j, p, was) && !p.Ready?
    requires !a.strobe && (p == Waiting(7) ==> a.count == j.n)
    ensures BenchAt(BenchTick(b, mem, a), mem, j, Advance(p, j.n), was)
  {
    hide CtlAt, ChipAt, CtlNext, Call, MosiOut, Bit, Pow2, Request;
    var i := CtlIn(false, false, a.addr, a.count, b.miso, b.mosi);
    var c := CtlNext(b.ctl, i);
    var q := Advance(p, j.n);
    PhaseIsOk(b, mem, j, p);
    if p.Receiving? { CtlReceives(b.ctl, mem, j, p, was, i); } else { CtlSends(b.ctl, mem, j, p, was, i); }
    CsInPhase(c, mem, j, q, was);
    if q.Ready? {
      ChipDeselects(b.chip, mem, j, MosiOut(c));
    } else if q.Receiving? {
      ChipSends(b.chip, mem, j, p, MosiOut(c));
    } else {
      if q.Sending? { BitOnWire(c, mem, j, q, was); }
      if p.Sending? && p.k < 7 { ChipTakesCommand(b.chip, mem, j, p, MosiOut(c)); }
      else { ChipTakesAddress(b.chip, mem, j, p, MosiOut(c)); }
    }
  }

  lemma PhaseIsOk(b: Bench, mem: seq<int>, j: Job, p: Phase)
    requires j.addr + j.n < |mem| && ChipAt(b.chip, mem, j, p)
    ensures PhaseOk(p, j.n)
  {
  }

  lemma CsInPhase(c: Ctl, mem: seq<int>, j: Job, p: Phase, was: seq<int>)
    requires JobOk(j, mem, |was|) && CtlAt(c, mem, j, p, was)
    ensures c.cs == p.Ready? && |c.data| == |was| && (p.Ready? ==> !CtlBusy(c))
  {
  }

  lemma ChipDeselects(f: Chip, mem: seq<int>, j: Job, dat: bool)
    requires j.addr + j.n < |mem|
    ensures ChipAt(TwoCalls(f, mem, true, dat).0, mem, j, Ready)
  {
  }

  /** The clock that starts a transfer. */
  lemma StartTick(b: Bench, mem: seq<int>, a: Ask, j0: Job, was: seq<int>, j: Job)
    requires JobOk(j0, mem, |was|) && BenchAt(b, mem, j0, Ready, was)
    requires a.strobe && j.addr == a.addr && JobOk(j, mem, |was|)
    ensures |b.ctl.data| == |was| && BenchAt(BenchTick(b, mem, a), mem, j, Sending(0), b.ctl.data)
  {
    hide CtlAt, CtlNext, Call, MosiOut, Bit, Pow2, Request;
    var i := CtlIn(false, true, a.addr, a.count, b.miso, b.mosi);
    CsInPhase(b.ctl, mem, j0, Ready, was);
    CtlStarts(b.ctl, mem, j, i);
    var c := CtlNext(b.ctl, i);
    CsInPhase(c, mem, j, Sending(0), b.ctl.data);
    BitOnWire(c, mem, j, Sending(0), b.ctl.data);
    ChipTakesCommand(b.chip, mem, j, Ready, MosiOut(c));
  }

  /** A clock without a request changes nothing but the idle data lines. */
  lemma IdleTick(b: Bench, mem: seq<int>, a: Ask, j: Job, was: seq<int>)
    requires JobOk(j, mem, |was|) && BenchAt(b, mem, j, Ready, was) && !a.strobe
    ensures BenchAt(BenchTick(b, mem, a), mem, j, Ready, was) && BenchTick(b, mem, a).ctl == b.ctl
  {
    hide Landed;
  }

  // ------------------------------------------------------------ whole runs

  function BenchRun(b0: Bench, mem: seq<int>, asks: nat -> Ask, t: nat): Bench {
    if t == 0 then b0 else BenchTick(BenchRun(b0, mem, asks, t - 1), mem, asks(t - 1))
  }

  /** The transfer asked for at clock t; the byte count is read forty clocks later. */
  function JobAt(asks: nat -> Ask, t: nat): Job {
    Job(asks(t).addr, asks(t + 40).count)
  }

  /** Both sides idle. */
  ghost predicate Quiescent(b: Bench, mem: seq<int>) {
    Bytes(mem) && 0 < |mem| <= 0x100_0000 && BenchAt(b, mem, Job(0, 0), Ready, b.ctl.data)
  }

  /** Requests come only while rbusy_o is low and stay inside the flash and the buffer. */
  ghost predicate Polite(b0: Bench, mem: seq<int>, asks: nat -> Ask) {
    forall t: nat :: asks(t).strobe ==>
      BenchRun(b0, mem, asks, t).ctl.cs && JobOk(JobAt(asks, t), mem, |b0.ctl.data|)
  }

  /** The phase k clocks after a request. */
  function PhaseAfter(n: nat, k: nat): Phase
    requires k >= 1
  {
    if k <= 32 then Sending(k - 1)
    else if k <= 40 then Waiting(k - 33)
    else if k <= 41 + 4 * n then Receiving((k - 41) / 4, (k - 41) % 4)
    else Ready
  }

  lemma PhaseAfterStep(n: nat, k: nat)
    requires k >= 1
    ensures PhaseAfter(n, k + 1) == Advance(PhaseAfter(n, k), n)
    ensures PhaseAfter(n, k) == Waiting(7) ==> k == 40
    ensures PhaseAfter(n, k) == Ready <==> k >= 42 + 4 * n
  {
  }

  /** At every clock the bench is somewhere in the latest transfer, or has not started one (s = -1). */
  lemma {:induction false} Latest(b0: Bench, mem: seq<int>, asks: nat -> Ask, t: nat) returns (s: int)
    requires Quiescent(b0, mem) && Polite(b0, mem, asks)
    ensures -1 <= s < t
    ensures if s < 0 then BenchRun(b0, mem, asks, t).ctl.data == b0.ctl.data && Quiescent(BenchRun(b0, mem, asks, t), mem)
            else asks(s).strobe && |BenchRun(b0, mem, asks, s).ctl.data| == |b0.ctl.data|
                 && JobOk(JobAt(asks, s), mem, |b0.ctl.data|)
                 && BenchAt(BenchRun(b0, mem, asks, t), mem, JobAt(asks, s), PhaseAfter(asks(s + 40).count, t - s),
                            BenchRun(b0, mem, asks, s).ctl.data)
  {
    hide CtlAt, ChipAt, LinesAt, BenchTick, Bytes, PhaseAfter;
    if t == 0 {
      s := -1;
    } else {
      s := Latest(b0, mem, asks, t - 1);
      var b := BenchRun(b0, mem, asks, t - 1);
      var j0 := if s < 0 then Job(0, 0) else JobAt(asks, s);
      var was := if s < 0 then b.ctl.data else BenchRun(b0, mem, asks, s).ctl.data;
      var p := if s < 0 then Ready else PhaseAfter(j0.n, t - 1 - s);
      CsInPhase(b.ctl, mem, j0, p, was);
      if s >= 0 { PhaseAfterStep(j0.n, t - 1 - s); }
      if asks(t - 1).strobe {
        StartTick(b, mem, asks(t - 1), j0, was, JobAt(asks, t - 1));
        s := t - 1;
        assert PhaseAfter(asks(s + 40).count, 1) == Sending(0) by { FirstPhase(asks(s + 40).count); }
      } else if p.Ready? {
        IdleTick(b, mem, asks(t - 1), j0, was);
      } else {
        TransferTick(b, mem, asks(t - 1), j0, p, was);
      }
    }
  }

  lemma FirstPhase(n: nat)
    ensures PhaseAfter(n, 1) == Sending(0)
  {
  }

  /** From its request on, a transfer goes through its phases undisturbed. */
  lemma {:induction false} Transfer(b0: Bench, mem: seq<int>, asks: nat -> Ask, t: nat, k: nat)
    requires Quiescent(b0, mem) && Polite(b0, mem, asks) && asks(t).strobe
    requires 1 <= k <= 42 + 4 * JobAt(asks, t).n
    ensures JobOk(JobAt(asks, t), mem, |b0.ctl.data|) && |BenchRun(b0, mem, asks, t).ctl.data| == |b0.ctl.data|
    ensures BenchAt(BenchRun(b0, mem, asks, t + k), mem, JobAt(asks, t), PhaseAfter(JobAt(asks, t).n, k),
                    BenchRun(b0, mem, asks, t).ctl.data)
  {
    hide CtlAt, ChipAt, LinesAt, BenchTick, Bytes, PhaseAfter;
    var j := JobAt(asks, t);
    if k == 1 {
      var s := Latest(b0, mem, asks, t);
      var b := BenchRun(b0, mem, asks, t);
      if s < 0 {
        StartTick(b, mem, asks(t), Job(0, 0), b.ctl.data, j);
      } else {
        var was, p := BenchRun(b0, mem, asks, s).ctl.data, PhaseAfter(JobAt(asks, s).n, t - s);
        CsInPhase(b.ctl, mem, JobAt(asks, s), p, was);
        StartTick(b, mem, asks(t), JobAt(asks, s), was, j);
      }
      FirstPhase(j.n);
    } else {
      Transfer(b0, mem, asks, t, k - 1);
      var b, p, was := BenchRun(b0, mem, asks, t + k - 1), PhaseAfter(j.n, k - 1), BenchRun(b0, mem, asks, t).ctl.data;
      CsInPhase(b.ctl, mem, j, p, was);
      PhaseAfterStep(j.n, k - 1);
      TransferTick(b, mem, asks(t + k - 1), j, p, was);
    }
  }

  /** {data[0], data[1], ...} as a number. */
  function Concat(data: seq<int>): int {
    if data == [] then 0 else Concat(data[..|data| - 1]) * 256 + data[|data| - 1]
  }

  function LittleEndian(x: seq<int>): int {
    if x == [] then 0 else x[0] + 256 * LittleEndian(x[1..])
  }

  lemma {:induction false} ReversedIsLittleEndian(data: seq<int>, x: seq<int>)
    requires |data| == |x| && forall m :: 0 <= m < |data| ==> data[m] == x[|x| - 1 - m]
    ensures Concat(data) == LittleEndian(x)
  {
    if x != [] {
      ReversedIsLittleEndian(data[..|data| - 1], x[1..]);
    }
  }

  /** A finished transfer: the n entries in use, read as the number the output bus shows, are the n bytes of flash
      from the requested address in little-endian order, and no other entry of the buffer has changed. */
  predicate Delivered(c: Ctl, mem: seq<int>, j: Job, was: seq<int>) {
    && c.cs && j.addr + j.n <= |mem| && j.n <= |was| && |c.data| == |was|
    && Concat(c.data[..j.n]) == LittleEndian(mem[j.addr..j.addr + j.n]) && c.data[j.n..] == was[j.n..]
  }

  /** For every flash contents, every stream of requests that respects rbusy_o, and every one of those requests: the
      controller is busy for exactly 41 + 4n clocks, and when busy falls the bytes have been delivered. */
  lemma EveryReadIsRight(b0: Bench, mem: seq<int>, asks: nat -> Ask, t: nat, u: nat)
    requires Quiescent(b0, mem) && Polite(b0, mem, asks) && asks(t).strobe
    ensures var end := t + 42 + 4 * JobAt(asks, t).n;
            && (t < u < end ==> !BenchRun(b0, mem, asks, u).ctl.cs)
            && (u == end ==> Delivered(BenchRun(b0, mem, asks, u).ctl, mem, JobAt(asks, t), BenchRun(b0, mem, asks, t).ctl.data))
  {
    hide CtlAt, ChipAt, LinesAt, BenchTick, Bytes, PhaseAfter, Quiescent, Polite, Concat, LittleEndian, BenchRun;
    var j := JobAt(asks, t);
    var was := BenchRun(b0, mem, asks, t).ctl.data;
    if t < u <= t + 42 + 4 * j.n {
      Transfer(b0, mem, asks, t, u - t);
      PhaseAfterStep(j.n, u - t);
      var c := BenchRun(b0, mem, asks, t + (u - t)).ctl;
      CsInPhase(c, mem, j, PhaseAfter(j.n, u - t), was);
      if u == t + 42 + 4 * j.n {
        WhenReady(c, mem, j, was);
        ReversedIsLittleEndian(c.data[..j.n], mem[j.addr..j.addr + j.n]);
      }
    }
  }

  lemma WhenReady(c: Ctl, mem: seq<int>, j: Job, was: seq<int>)
    requires JobOk(j, mem, |was|) && CtlAt(c, mem, j, Ready, was)
    ensures |c.data| == |was| && c.cs && c.data[j.n..] == was[j.n..]
    ensures forall m :: 0 <= m < j.n ==> c.data[m] == mem[j.addr + j.n - 1 - m]
  {
  }

  /** Between requests the bytes stay on the output bus. */
  lemma DataStays(b0: Bench, mem: seq<int>, asks: nat -> Ask, t: nat)
    requires Quiescent(b0, mem) && Polite(b0, mem, asks)
    requires BenchRun(b0, mem, asks, t).ctl.cs && !asks(t).strobe
    ensures BenchRun(b0, mem, asks, t + 1).ctl == BenchRun(b0, mem, asks, t).ctl
  {
    hide CtlAt, ChipAt, LinesAt, BenchTick, Bytes, PhaseAfter;
    var s := Latest(b0, mem, asks, t);
    var b := BenchRun(b0, mem, asks, t);
    if s < 0 {
      IdleTick(b, mem, asks(t), Job(0, 0), b.ctl.data);
    } else {
      var j, was := JobAt(asks, s), BenchRun(b0, mem, asks, s).ctl.data;
      CsInPhase(b.ctl, mem, j, PhaseAfter(j.n, t - s), was);
      IdleTick(b, mem, asks(t), j, was);
    }
  }

  /** The eight-byte controller: 73 clocks, and rdata_o is the little-endian 64-bit word at the address. */
  lemma SpiFlashReadsDoubleWord(b0: Bench, mem: seq<int>, asks: nat -> Ask, t: nat)
    requires Quiescent(b0, mem) && Polite(b0, mem, asks) && asks(t).strobe
    requires |b0.ctl.data| == 8 && forall k: nat :: asks(k).count == 8
    ensures !BenchRun(b0, mem, asks, t + 73).ctl.cs
    ensures var done := BenchRun(b0, mem, asks, t + 74).ctl; var a := asks(t).addr;
            done.cs && a + 8 <= |mem| && Concat(done.data) == LittleEndian(mem[a..a + 8])
  {
    hide BenchRun, Quiescent, Polite, Concat, LittleEndian;
    EveryReadIsRight(b0, mem, asks, t, t + 73);
    EveryReadIsRight(b0, mem, asks, t, t + 74);
    SameLength(b0, mem, asks, t);
    var data := BenchRun(b0, mem, asks, t + 74).ctl.data;
    assert data[..8] == data;
  }

  lemma SameLength(b0: Bench, mem: seq<int>, asks: nat -> Ask, t: nat)
    requires Quiescent(b0, mem) && Polite(b0, mem, asks) && asks(t).strobe
    ensures |BenchRun(b0, mem, asks, t).ctl.data| == |b0.ctl.data|
  {
    hide BenchRun, Quiescent, Polite;
    Transfer(b0, mem, asks, t, 1);
  }
}

/** The flash on its own: what it answers to any bits sent to it, in both the single-output and the dual-output mode. */
module FlashReads {
  import opened Arith
  import opened SpiController
  import opened FlashChip
  import opened SpiLink

  /** The chip, selected, after a clock for each bit of x, and what it put on the data lines in the last of them. */
  function Shifted(f: Chip, mem: seq<int>, x: seq<bool>): (Chip, bool, bool) {
    if x == [] then (f, false, false)
    else TwoCalls(Shifted(f, mem, x[..|x| - 1]).0, mem, false, x[|x| - 1])
  }

  predicate Deselected(f: Chip) {
    f.stage == ChipIdle && f.last && f.count == 0
  }

  /** The command, the address and eight idle clocks. */
  predicate Collecting(f: Chip, x: seq<bool>)
    requires 0 < |x| <= 40
  {
    && f.last && f.count == |x|
    && f.stage == (if |x| < 8 then ReadCommand else if |x| < 32 then ReadAddress else if |x| < 40 then Dummy else Send)
    && (if |x| < 8 then f.command == Fold(x) && f.addr == 0
        else f.mode == ModeOf(Fold(x[..8])) && f.addr == Fold(if |x| < 32 then x[8..] else x[8..32]))
  }

  lemma CollectTick(f: Chip, mem: seq<int>, x: seq<bool>, dat: bool)
    requires if x == [] then Deselected(f) else |x| < 40 && Collecting(f, x)
    ensures var r := TwoCalls(f, mem, false, dat); Collecting(r.0, x + [dat]) && !r.1 && !r.2
  {
    hide Fold, ModeOf;
    var y := x + [dat];
    EmptyFold([]);
    if |x| < 8 {
      FoldLast(x, dat);
      if |x| == 7 { assert y[..8] == y && y[8..] == []; }
    } else {
      assert y[..8] == x[..8];
      if |x| < 32 {
        FoldLast(x[8..], dat);
        assert y[8..] == x[8..] + [dat];
        if |x| == 31 { assert y[8..32] == y[8..]; }
      } else {
        assert y[8..32] == x[8..32];
      }
    }
  }

  lemma {:induction false} Collects(f: Chip, mem: seq<int>, x: seq<bool>)
    requires Deselected(f) && 0 < |x| <= 40
    ensures var r := Shifted(f, mem, x); Collecting(r.0, x) && !r.1 && !r.2
  {
    hide Collecting, TwoCalls, Deselected;
    var w := x[..|x| - 1];
    if w != [] { Collects(f, mem, w); }
    CollectTick(Shifted(f, mem, w).0, mem, w, x[|x| - 1]);
    assert x == w + [x[|x| - 1]];
  }

  /** Clocks for a byte. */
  function ByteClocks(m: Mode): (n: nat)
    ensures n > 0
  {
    if m == DualOut then 4 else 8
  }

  /** The weight of the first bit sent in clock c of a byte. */
  function Weight(m: Mode, c: nat): nat {
    match (if m == DualOut then 2 * c else c)
    case 0 => 128 case 1 => 64 case 2 => 32 case 3 => 16 case 4 => 8 case 5 => 4 case 6 => 2 case 7 => 1 case _ => 0
  }

  /** The chip k clocks after its first answer. */
  predicate Answering(f: Chip, mem: seq<int>, m: Mode, a: nat, k: nat) {
    && f.last && f.stage == Send && f.mode == m && f.count == 41 + k
    && var n := ByteClocks(m);
       f.data == ByteAt(mem, a + k / n) && f.addr == a + k / n + 1 && f.mask == Weight(m, k % n) / (if m == DualOut then 4 else 2)
  }

  /** The bits of the byte on the lines: one, or two with the higher on miso. */
  predicate Shows(r: (Chip, bool, bool), b: int, m: Mode, c: nat)
    requires c < ByteClocks(m)
  {
    if m == DualOut then r.1 == BitOf(b, 7 - 2 * c) && r.2 == BitOf(b, 6 - 2 * c)
    else r.1 == BitOf(b, 7 - c) && !r.2
  }

  lemma WeightIsPower(c: nat, b: int)
    requires c < 8
    ensures Masked(b, Weight(Single, c)) == BitOf(b, 7 - c)
    ensures c < 4 ==> Masked(b, Weight(DualOut, c)) == BitOf(b, 7 - 2 * c)
    ensures c < 4 ==> Masked(b, Weight(DualOut, c) / 2) == BitOf(b, 6 - 2 * c)
  {
    assert Pow2(0) == 1 && Pow2(1) == 2 && Pow2(2) == 4 && Pow2(3) == 8 && Pow2(4) == 16 && Pow2(5) == 32;
    assert Pow2(6) == 64 && Pow2(7) == 2 * Pow2(6);
    hide Pow2;
  }

  /** Where the next clock stands in its byte. */
  lemma NextClock(k: nat, m: Mode)
    requires k > 0
    ensures var n := ByteClocks(m);
            && k % n < n && ((40 + k) % n == 0 <==> k % n == 0)
            && (if k % n == 0 then k / n == (k - 1) / n + 1 else k / n == (k - 1) / n && k % n == (k - 1) % n + 1)
  {
  }

  /** Within a byte the mask is left at the weight of the next clock. */
  lemma NextWeight(m: Mode, c: nat)
    requires 0 < c < ByteClocks(m)
    ensures Weight(m, c) == Weight(m, c - 1) / (if m == DualOut then 4 else 2)
  {
  }

  lemma FirstClock(m: Mode)
    ensures 0 / ByteClocks(m) == 0 && 0 % ByteClocks(m) == 0 && 40 % ByteClocks(m) == 0 && Weight(m, 0) == 128
  {
  }

  /** A clock of the chip while it sends. */
  lemma AnswerFields(f: Chip, mem: seq<int>, m: Mode, dat: bool)
    requires f.last && f.stage == Send && f.mode == m && m != OtherMode
    ensures var r := TwoCalls(f, mem, false, dat);
            var refill := f.count % ByteClocks(m) == 0;
            var mask := if refill then 128 else f.mask;
            var data := if refill then ByteAt(mem, f.addr) else f.data;
            && r.0 == f.(count := f.count + 1, data := data, addr := if refill then f.addr + 1 else f.addr,
                         mask := if m == DualOut then mask / 2 / 2 else mask / 2)
            && r.1 == Masked(data, mask) && r.2 == (m == DualOut && Masked(data, mask / 2))
  {
    hide Masked, ByteAt;
  }

  lemma AnswerTick(f: Chip, mem: seq<int>, m: Mode, a: nat, k: nat, dat: bool)
    requires m != OtherMode
    requires if k == 0 then f.last && f.stage == Send && f.mode == m && f.count == 40 && f.addr == a
             else Answering(f, mem, m, a, k - 1)
    ensures var r := TwoCalls(f, mem, false, dat);
            var n := ByteClocks(m);
            && Answering(r.0, mem, m, a, k)
            && r.1 == Masked(ByteAt(mem, a + k / n), Weight(m, k % n))
            && r.2 == (m == DualOut && Masked(ByteAt(mem, a + k / n), Weight(m, k % n) / 2))
  {
    hide Masked, ByteAt, Weight, ByteClocks;
    FirstClock(m);
    if k > 0 {
      NextClock(k, m);
      if k % ByteClocks(m) > 0 { NextWeight(m, k % ByteClocks(m)); }
    }
    AnswerFields(f, mem, m, dat);
  }

  lemma Collected(f: Chip, x: seq<bool>)
    requires |x| == 40 && Collecting(f, x)
    ensures f.last && f.stage == Send && f.mode == ModeOf(Fold(x[..8])) && f.count == 40 && f.addr == Fold(x[8..32])
  {
  }

  lemma {:induction false} Answers(f: Chip, mem: seq<int>, x: seq<bool>)
    requires Deselected(f) && |x| > 40 && ModeOf(Fold(x[..8])) != OtherMode
    ensures var r, m, k := Shifted(f, mem, x), ModeOf(Fold(x[..8])), |x| - 41;
            && Answering(r.0, mem, m, Fold(x[8..32]), k)
            && r.1 == Masked(ByteAt(mem, Fold(x[8..32]) + k / ByteClocks(m)), Weight(m, k % ByteClocks(m)))
            && r.2 == (m == DualOut && Masked(ByteAt(mem, Fold(x[8..32]) + k / ByteClocks(m)), Weight(m, k % ByteClocks(m)) / 2))
  {
    hide Collecting, TwoCalls, Deselected, Answering, ModeOf, Fold, Masked, Weight, ByteAt;
    var w := x[..|x| - 1];
    assert w[..8] == x[..8] && w[8..32] == x[8..32];
    if |w| == 40 {
      Collects(f, mem, w);
      Collected(Shifted(f, mem, w).0, w);
    } else {
      Answers(f, mem, w);
    }
    AnswerTick(Shifted(f, mem, w).0, mem, ModeOf(Fold(x[..8])), Fold(x[8..32]), |x| - 41, x[|x| - 1]);
  }

  lemma SilentTick(f: Chip, mem: seq<int>, dat: bool)
    requires f.last && f.stage == Send && f.mode == OtherMode
    ensures var r := TwoCalls(f, mem, false, dat);
            r.0.last && r.0.stage == Send && r.0.mode == OtherMode && !r.1 && !r.2
  {
  }

  /** The modes with two or four address bits a clock are recognised, but never answer. */
  lemma {:induction false} StaysSilent(f: Chip, mem: seq<int>, x: seq<bool>)
    requires Deselected(f) && |x| > 40 && ModeOf(Fold(x[..8])) == OtherMode
    ensures var r := Shifted(f, mem, x);
            r.0.last && r.0.stage == Send && r.0.mode == OtherMode && !r.1 && !r.2
  {
    hide Collecting, TwoCalls, Deselected, ModeOf, Fold;
    var w := x[..|x| - 1];
    assert w[..8] == x[..8];
    if |w| == 40 {
      Collects(f, mem, w);
      Collected(Shifted(f, mem, w).0, w);
    } else {
      StaysSilent(f, mem, w);
    }
    SilentTick(Shifted(f, mem, w).0, mem, x[|x| - 1]);
  }

  /** Forty clocks of silence; then, for the address in the bits 8 to 31 sent and whatever is sent meanwhile, the bytes
      of flash from there on, most significant bit first: in pairs for the command 0x3B, not at all for 0x6B, 0xBB and
      0xEB, and bit by bit for every other command. */
  lemma FlashAnswers(f: Chip, mem: seq<int>, x: seq<bool>)
    requires Deselected(f) && x != []
    ensures var r := Shifted(f, mem, x);
            if |x| <= 40 then !r.1 && !r.2
            else
              var command, a, k := Fold(x[..8]), Fold(x[8..32]), |x| - 41;
              if command == 0x3B then Shows(r, ByteAt(mem, a + k / 4), DualOut, k % 4)
              else if command == 0x6B || command == 0xBB || command == 0xEB then !r.1 && !r.2
              else Shows(r, ByteAt(mem, a + k / 8), Single, k % 8)
  {
    hide Collecting, TwoCalls, Deselected, Answering, Fold, Masked, Weight, ByteAt, BitOf;
    if |x| <= 40 {
      Collects(f, mem, x);
    } else {
      var m, k := ModeOf(Fold(x[..8])), |x| - 41;
      if m != OtherMode {
        Answers(f, mem, x);
        WeightIsPower(k % ByteClocks(m), ByteAt(mem, Fold(x[8..32]) + k / ByteClocks(m)));
      } else {
        StaysSilent(f, mem, x);
      }
    }
  }

  /** One clock of the bench with reset held. */
  function ResetTick(b: Bench, mem: seq<int>): Bench {
    var c := CtlNext(b.ctl, CtlIn(true, false, 0, 0, b.miso, b.mosi));
    var r := TwoCalls(b.chip, mem, c.cs, MosiOut(c));
    Bench(c, r.0, r.1, r.2)
  }

  /** From any state of either side, one clock of reset makes the bench ready for its first request. */
  lemma ResetQuiets(b: Bench, mem: seq<int>)
    requires Bytes(mem) && 0 < |mem| <= 0x100_0000
    ensures Quiescent(ResetTick(b, mem), mem)
  {
  }
}
