/** The serial transmitter of src/Extern/txuart.v, register by register. */
module TxUart {
  const BIT_SEVEN: int := 7
  const PARITY: int := 8
  const STOP: int := 9
  const SECOND_STOP: int := 10
  const BREAK: int := 14
  const IDLE: int := 15

  const COUNTER: int := 0x1000_0000

  /** The fields of i_setup.  `dataBits` is 0 for eight data bits up to 3 for five. */
  datatype Setup = Setup(
    softFlow: bool, dataBits: int, dblStop: bool, useParity: bool, fixedParity: bool, parityBit: bool, baud: nat)

  const INITIAL_SETUP: Setup := Setup(false, 0, false, false, false, false, 868)

  /** r_setup, state, lcl_data, o_uart_tx, calc_parity, r_busy, baud_counter, zero_baud_counter,
      last_state and the three clear-to-send registers. */
  datatype Tx = Tx(
    setup: Setup, state: int, data: int, line: bool, parity: bool, busy: bool,
    baud: int, zero: bool, lastState: bool, qCts: bool, qqCts: bool, ckCts: bool)

  datatype TxIn = TxIn(reset: bool, setup: Setup, brk: bool, wr: bool, data: int, ctsN: bool)

  predicate Accepts(t: Tx, i: TxIn) {
    i.wr && !t.busy
  }

  function TxState(t: Tx, i: TxIn): (int, bool) {
    if i.reset then (IDLE, true)
    else if i.brk then (BREAK, true)
    else if !t.zero then (t.state, true)
    else if t.state == BREAK then (IDLE, !t.ckCts)
    else if t.state == IDLE then
      if Accepts(t, i) then (i.setup.dataBits, true) else (IDLE, !t.ckCts)
    else if t.state < 8 then
      (if t.state == BIT_SEVEN then (if t.setup.useParity then PARITY else STOP) else t.state + 1, true)
    else if t.state == PARITY then (STOP, true)
    else if t.state == STOP then (if t.setup.dblStop then SECOND_STOP else IDLE, true)
    else (IDLE, true)
  }

  function TxLine(t: Tx, i: TxIn): bool {
    if i.reset then true
    else if i.brk || Accepts(t, i) then false
    else if t.zero then
      if t.state < 8 then t.data % 2 == 1 else if t.state == PARITY then t.parity else true
    else t.line
  }

  function TxParity(t: Tx, i: TxIn): bool {
    if !t.busy then i.setup.parityBit
    else if t.setup.fixedParity then t.setup.parityBit
    else if t.zero then
      if t.state < 8 then t.parity != (t.data % 2 == 1)
      else if t.state == IDLE then t.setup.parityBit
      else t.parity
    else t.parity
  }

  /** baud_counter and zero_baud_counter. */
  function TxBaud(t: Tx, i: TxIn): (int, bool) {
    if i.reset then (INITIAL_SETUP.baud * 16 % COUNTER, false)
    else if i.brk then (t.setup.baud * 16 % COUNTER, false)
    else if !t.zero then ((t.baud - 1) % COUNTER, t.baud == 1)
    else if t.state == BREAK then (0, true)
    else if t.state == IDLE then
      if Accepts(t, i) then ((i.setup.baud - 1) % COUNTER, false) else (0, true)
    else if t.lastState then ((t.setup.baud - 2) % COUNTER, t.baud == 1)
    else ((t.setup.baud - 1) % COUNTER, t.baud == 1)
  }

  function TxNext(t: Tx, i: TxIn): Tx {
    Tx(
      if !t.busy then i.setup else t.setup,
      TxState(t, i).0,
      if !t.busy then i.data else if t.zero then t.data / 2 else t.data,
      TxLine(t, i), TxParity(t, i), TxState(t, i).1,
      TxBaud(t, i).0, TxBaud(t, i).1,
      !i.reset && t.state == (if t.setup.dblStop then SECOND_STOP else STOP),
      i.reset || i.ctsN, i.reset || t.qCts, !i.reset && (!t.qqCts || t.setup.softFlow))
  }


  /** Setup and shift register. */
  datatype ShiftRegs = ShiftRegs(setup: Setup, data: int)

  /** State and busy flag. */
  datatype ControlRegs = ControlRegs(state: int, busy: bool)

  /** Line and running parity. */
  datatype WireRegs = WireRegs(line: bool, parity: bool)

  /** Baud counter and its zero flag. */
  datatype BaudRegs = BaudRegs(count: int, zero: bool)

  /** The clear-to-send synchroniser. */
  datatype CtsRegs = CtsRegs(q: bool, qq: bool, ck: bool)

  /** The registers at power-up; only the synchroniser has no initial value. */
  function PowerUp(cts: CtsRegs): Tx {
    Tx(INITIAL_SETUP, IDLE, 255, true, false, true, 5, false, false, cts.q, cts.qq, cts.ck)
  }

  function TxRun(t: Tx, ins: nat -> TxIn, n: nat): Tx {
    if n == 0 then t else TxNext(TxRun(t, ins, n - 1), ins(n - 1))
  }

  /** The same registers, one group for each clocked block, updated in place at each edge. */
  class Transmitter {
    var shift: ShiftRegs
    var control: ControlRegs
    var wire: WireRegs
    var baud: BaudRegs
    var lastState: bool
    var cts: CtsRegs

    /** The values the source gives its registers at power-up. */
    constructor (cts: CtsRegs)
      ensures Snapshot() == PowerUp(cts)
    {
      shift, control, wire := ShiftRegs(INITIAL_SETUP, 255), ControlRegs(IDLE, true), WireRegs(true, false);
      baud, lastState, this.cts := BaudRegs(5, false), false, cts;
    }

    function Snapshot(): Tx
      reads this
    {
      Tx(shift.setup, control.state, shift.data, wire.line, wire.parity, control.busy, baud.count, baud.zero,
         lastState, cts.q, cts.qq, cts.ck)
    }

    method Clock(i: TxIn)
      modifies this
      ensures Snapshot() == TxNext(old(Snapshot()), i)
    {
      hide TxState, TxBaud, TxLine, TxParity, Accepts;
      var t := Snapshot();
      CtsEdge(t, i);
      StateEdge(t, i);
      ShiftEdge(t, i);
      LineEdge(t, i);
      BaudEdge(t, i);
      LastStateEdge(t, i);
    }

    method LastStateEdge(t: Tx, i: TxIn)
      modifies this`lastState
      ensures lastState == (!i.reset && t.state == (if t.setup.dblStop then SECOND_STOP else STOP))
    {
      if i.reset {
        lastState := false;
      } else if t.setup.dblStop {
        lastState := t.state == SECOND_STOP;
      } else {
        lastState := t.state == STOP;
      }
    }

    method CtsEdge(t: Tx, i: TxIn)
      modifies this`cts
      ensures cts == CtsRegs(i.reset || i.ctsN, i.reset || t.qCts, !i.reset && (!t.qqCts || t.setup.softFlow))
    {
      if i.reset {
        cts := CtsRegs(true, true, false);
      } else {
        cts := CtsRegs(i.ctsN, t.qCts, !t.qqCts || t.setup.softFlow);
      }
    }

    method StateEdge(t: Tx, i: TxIn)
      requires control == ControlRegs(t.state, t.busy)
      modifies this`control
      ensures control == ControlRegs(TxState(t, i).0, TxState(t, i).1)
    {
      var state, busy := t.state, t.busy;
      if i.reset {
        busy, state := true, IDLE;
      } else if i.brk {
        busy, state := true, BREAK;
      } else if !t.zero {
        busy := true;
      } else if t.state == BREAK {
        busy, state := !t.ckCts, IDLE;
      } else if t.state == IDLE {
        if i.wr && !t.busy {
          busy, state := true, i.setup.dataBits;
        } else {
          busy := !t.ckCts;
        }
      } else {
        busy := true;
        if t.state < 8 {
          state := if t.state == BIT_SEVEN then (if t.setup.useParity then PARITY else STOP) else t.state + 1;
        } else if t.state == PARITY {
          state := STOP;
        } else if t.state == STOP && t.setup.dblStop {
          state := SECOND_STOP;
        } else {
          state := IDLE;
        }
      }
      control := ControlRegs(state, busy);
    }

    method ShiftEdge(t: Tx, i: TxIn)
      requires shift == ShiftRegs(t.setup, t.data)
      modifies this`shift
      ensures shift == ShiftRegs(if !t.busy then i.setup else t.setup, if !t.busy then i.data else if t.zero then t.data / 2 else t.data)
    {
      if !t.busy {
        shift := ShiftRegs(i.setup, i.data);
      } else if t.zero {
        shift := shift.(data := t.data / 2);
      }
    }

    method LineEdge(t: Tx, i: TxIn)
      requires wire == WireRegs(t.line, t.parity)
      modifies this`wire
      ensures wire == WireRegs(TxLine(t, i), TxParity(t, i))
    {
      var line, parity := t.line, t.parity;
      if i.reset {
        line := true;
      } else if i.brk || (i.wr && !t.busy) {
        line := false;
      } else if t.zero {
        line := if t.state < 8 then t.data % 2 == 1 else if t.state == PARITY then t.parity else true;
      }
      if !t.busy {
        parity := i.setup.parityBit;
      } else if t.setup.fixedParity {
        parity := t.setup.parityBit;
      } else if t.zero {
        if t.state < 8 {
          parity := t.parity != (t.data % 2 == 1);
        } else if t.state == IDLE {
          parity := t.setup.parityBit;
        }
      }
      wire := WireRegs(line, parity);
    }

    method BaudEdge(t: Tx, i: TxIn)
      modifies this`baud
      ensures baud == BaudRegs(TxBaud(t, i).0, TxBaud(t, i).1)
    {
      var count, zero;
      if i.reset {
        count, zero := INITIAL_SETUP.baud * 16 % COUNTER, false;
      } else if i.brk {
        count, zero := t.setup.baud * 16 % COUNTER, false;
      } else {
        zero := t.baud == 1;
        if !t.zero {
          count := (t.baud - 1) % COUNTER;
        } else if t.state == BREAK {
          count, zero := 0, true;
        } else if t.state == IDLE {
          count, zero := 0, true;
          if i.wr && !t.busy {
            count, zero := (i.setup.baud - 1) % COUNTER, false;
          }
        } else if t.lastState {
          count := (t.setup.baud - 2) % COUNTER;
        } else {
          count := (t.setup.baud - 1) % COUNTER;
        }
      }
      baud := BaudRegs(count, zero);
    }
  }
}

/** What the transmitter puts on the line, for every clock of a frame. */
module TxFrames {
  import opened Arith
  import opened TxUart

  /** Where a transmitter stands: idle, or r clocks into bit j (start bit 0) of the frame for word d. */
  datatype Phase = Rest | Frame(d: int, j: nat, r: nat)

  /** Five to eight data bits, any parity, one or two stop bits, at least three clocks per baud. */
  predicate Plain(s: Setup) {
    0 <= s.dataBits < 4 && 3 <= s.baud < 0x100_0000
  }

  function Bits(s: Setup): nat
    requires Plain(s)
  {
    8 - s.dataBits
  }

  function ParityBits(s: Setup): nat {
    if s.useParity then 1 else 0
  }

  /** Start bit, data bits, perhaps a parity bit, and one or two stop bits. */
  function FrameBits(s: Setup): nat
    requires Plain(s)
  {
    Bits(s) + ParityBits(s) + (if s.dblStop then 3 else 2)
  }

  predicate InFrame(s: Setup, p: Phase)
    requires Plain(s)
  {
    p.Frame? ==>
      && 0 <= p.d < 256 && p.j < FrameBits(s)
      && p.r < (if p.j == FrameBits(s) - 1 then s.baud - 1 else s.baud)
  }

  /** Exclusive-or of the first n bits. */
  predicate OddOnes(d: int, n: nat) {
    n > 0 && OddOnes(d, n - 1) != BitOf(d, n - 1)
  }

  /** calc_parity once n data bits have been sent: the fixed value, or the parity of the bits on top of the setup bit. */
  predicate RunningParity(s: Setup, d: int, n: nat) {
    if s.fixedParity then s.parityBit else s.parityBit != OddOnes(d, n)
  }

  /** One more bit of a word. */
  lemma ModNextBit(d: int, n: nat)
    requires d >= 0
    ensures d % Pow2(n + 1) == d % Pow2(n) + (if BitOf(d, n) then Pow2(n) else 0)
  {
    var q := d / Pow2(n);
    DivModBasic(d, Pow2(n));
    DivModBasic(q, 2);
    assert d == q / 2 * Pow2(n + 1) + (q % 2 * Pow2(n) + d % Pow2(n)) by {
      Distribute(q / 2 * 2, q % 2, Pow2(n));
      assert q / 2 * 2 * Pow2(n) == q / 2 * Pow2(n + 1);
    }
    DivModUnique(d, Pow2(n + 1), q / 2, q % 2 * Pow2(n) + d % Pow2(n));
  }

  /** The level the protocol prescribes. */
  predicate Level(s: Setup, p: Phase)
    requires Plain(s)
  {
    match p
    case Rest => true
    case Frame(d, j, r) =>
      if j == 0 then false
      else if j <= Bits(s) then BitOf(d, j - 1)
      else j > Bits(s) + ParityBits(s) || RunningParity(s, d, Bits(s))
  }

  /** The phase one clock later; the last bit is a clock short because acceptance takes one. */
  function NextPhase(s: Setup, p: Phase, accept: bool, d: int): Phase
    requires Plain(s)
  {
    match p
    case Rest => if accept then Frame(d, 0, 0) else Rest
    case Frame(w, j, r) =>
      if j == FrameBits(s) - 1 then (if r + 2 < s.baud then Frame(w, j, r + 1) else Rest)
      else if r + 1 < s.baud then Frame(w, j, r + 1)
      else Frame(w, j + 1, 0)
  }

  function StateAt(s: Setup, j: nat): int
    requires Plain(s)
  {
    var k := j - Bits(s) - ParityBits(s);
    if j < Bits(s) then s.dataBits + j
    else if k < 0 then PARITY
    else if k == 0 then STOP
    else if k == 1 && s.dblStop then SECOND_STOP
    else IDLE
  }

  lemma StateInFrame(s: Setup, m: nat)
    requires Plain(s) && m < FrameBits(s) - 1
    ensures 0 <= StateAt(s, m) <= SECOND_STOP
    ensures StateAt(s, m) < PARITY <==> m < Bits(s)
    ensures StateAt(s, m) == PARITY <==> s.useParity && m == Bits(s)
    ensures StateAt(s, m) == STOP <==> m == Bits(s) + ParityBits(s)
    ensures StateAt(s, m) == SECOND_STOP <==> m == Bits(s) + ParityBits(s) + 1
  {
  }

  /** The state after the bit. */
  function Advanced(s: Setup, state: int): int {
    if state < BIT_SEVEN then state + 1
    else if state == BIT_SEVEN then (if s.useParity then PARITY else STOP)
    else if state == PARITY then STOP
    else if state == STOP && s.dblStop then SECOND_STOP
    else IDLE
  }

  lemma StateAdvances(s: Setup, m: nat)
    requires Plain(s) && m < FrameBits(s) - 1
    ensures StateAt(s, m + 1) == Advanced(s, StateAt(s, m))
  {
  }

  /** The registers of the transmitter in each phase. */
  predicate TxAt(t: Tx, s: Setup, p: Phase)
    requires Plain(s)
  {
    && InFrame(s, p)
    && t.line == Level(s, p)
    && match p
       case Rest => t.state == IDLE && t.zero && t.baud == 0
       case Frame(d, j, r) =>
         && t.busy && t.setup == s
         && t.state == StateAt(s, j)
         && (j <= Bits(s) ==> t.data == d / Pow2(j) && t.parity == RunningParity(s, d, j))
         && (r > 0 ==> t.lastState == (t.state == (if s.dblStop then SECOND_STOP else STOP)))
         && (if j < FrameBits(s) - 1 then t.baud == s.baud - 1 - r && t.zero == (r == s.baud - 1)
             else t.baud == s.baud - 2 - r && t.zero == (r == s.baud - 2))
  }

  predicate Quiet(i: TxIn, s: Setup) {
    !i.reset && !i.brk && i.setup == s && 0 <= i.data < 256
  }

  lemma HalveByte(d: int, j: nat)
    requires 0 <= d
    ensures d / Pow2(j) / 2 == d / Pow2(j + 1)
  {
    DivDiv(d, Pow2(j), 2);
  }

  lemma TxIdleTick(t: Tx, s: Setup, i: TxIn)
    requires Plain(s) && TxAt(t, s, Rest) && Quiet(i, s)
    ensures TxAt(TxNext(t, i), s, NextPhase(s, Rest, Accepts(t, i), i.data))
  {
    assert Pow2(0) == 1 && !OddOnes(i.data, 0);
    if Accepts(t, i) {
      assert TxLine(t, i) == false && TxState(t, i) == (s.dataBits, true);
      assert TxBaud(t, i) == (s.baud - 1, false) && TxParity(t, i) == s.parityBit;
    }
  }

  /** A clock inside a bit: only the baud counter moves. */
  lemma TxHoldTick(t: Tx, s: Setup, p: Phase, i: TxIn)
    requires Plain(s) && p.Frame? && TxAt(t, s, p) && !t.zero && Quiet(i, s)
    ensures TxAt(TxNext(t, i), s, NextPhase(s, p, Accepts(t, i), i.data))
  {
    hide BitOf, StateAt, OddOnes;
  }

  /** The registers after the clock that ends a bit. */
  lemma TxBitRegisters(t: Tx, s: Setup, i: TxIn)
    requires Plain(s) && t.zero && t.busy && t.setup == s && Quiet(i, s)
    requires t.baud == 0 && (0 <= t.state <= SECOND_STOP || t.state == IDLE)
    ensures var n := TxNext(t, i);
            && n.setup == s && n.data == t.data / 2 && (t.state < IDLE ==> n.busy)
            && n.state == (if t.state == IDLE then IDLE else Advanced(s, t.state))
            && n.line == (if t.state < 8 then t.data % 2 == 1 else t.state != PARITY || t.parity)
            && (t.state < 8 ==> n.parity == if s.fixedParity then s.parityBit else t.parity != (t.data % 2 == 1))
            && n.lastState == (t.state == (if s.dblStop then SECOND_STOP else STOP))
            && (n.baud, n.zero) == (if t.state == IDLE then (0, true) else if t.lastState then (s.baud - 2, false) else (s.baud - 1, false))
  {
  }

  /** The clock that ends a bit. */
  lemma TxBitTick(t: Tx, s: Setup, p: Phase, i: TxIn)
    requires Plain(s) && p.Frame? && TxAt(t, s, p) && t.zero && Quiet(i, s)
    ensures TxAt(TxNext(t, i), s, NextPhase(s, p, Accepts(t, i), i.data))
  {
    hide TxNext, StateAt, OddOnes;
    HalveByte(p.d, p.j);
    if p.j == FrameBits(s) - 1 {
      LastState(s);
    } else {
      StateInFrame(s, p.j);
      StateAdvances(s, p.j);
      if p.j < Bits(s) { OneMoreBit(s, p.d, p.j); }
    }
    TxBitRegisters(t, s, i);
  }

  lemma LastState(s: Setup)
    requires Plain(s)
    ensures StateAt(s, FrameBits(s) - 1) == IDLE
  {
  }

  lemma OneMoreBit(s: Setup, d: int, n: nat)
    ensures RunningParity(s, d, n + 1) == if s.fixedParity then s.parityBit else RunningParity(s, d, n) != BitOf(d, n)
  {
  }

  /** Bit by bit, clock by clock, the line follows the protocol. */
  lemma TxTick(t: Tx, s: Setup, p: Phase, i: TxIn)
    requires Plain(s) && TxAt(t, s, p) && Quiet(i, s)
    ensures TxAt(TxNext(t, i), s, NextPhase(s, p, Accepts(t, i), i.data))
    ensures p.Frame? ==> !Accepts(t, i)
  {
    hide TxNext, NextPhase;
    if p.Rest? { TxIdleTick(t, s, i); } else if t.zero { TxBitTick(t, s, p, i); } else { TxHoldTick(t, s, p, i); }
  }
}

/** The receiver of tb/peripherals/uart.cpp and its round trip with the transmitter. */
module UartSim {
  import opened Arith
  import opened TxUart
  import opened TxFrames

  datatype Sim = Sim(receiving: bool, baud: int, last: bool, bits: nat, data: int)

  /** rx_data |= rxd << i, where bit i is still clear. */
  function Deposit(data: int, bit: bool, i: nat): int {
    if bit && data / Pow2(i) % 2 == 0 then data + Pow2(i) else data
  }

  /** One sample; the second component is what it prints. */
  function Sample(m: Sim, clocksPerBaud: nat, rxd: bool): (Sim, seq<int>) {
    if !m.receiving then
      if !rxd && m.last then (Sim(true, clocksPerBaud / 2, rxd, 0, 0), [])
      else (m.(last := rxd), [])
    else if m.baud == 0 then
      var data := if m.bits == 0 || m.bits == 9 then m.data else Deposit(m.data, rxd, m.bits - 1);
      (Sim(m.bits != 9, clocksPerBaud - 1, rxd, m.bits + 1, data), if m.bits == 9 then [m.data] else [])
    else (m.(baud := m.baud - 1, last := rxd), [])
  }

  class Receiver {
    const bauds: nat
    var receiving: bool
    var baud: int
    var last: bool
    var bits: nat
    var data: int
    var printed: seq<int>

    constructor (clocksPerBaud: nat)
      ensures bauds == clocksPerBaud && Snapshot() == Sim(false, 0, true, 0, 0) && printed == []
    {
      bauds := clocksPerBaud;
      receiving, baud, last, bits, data, printed := false, 0, true, 0, 0, [];
    }

    function Snapshot(): Sim
      reads this
    {
      Sim(receiving, baud, last, bits, data)
    }

    method Call(rxd: bool)
      modifies this
      ensures Snapshot() == Sample(old(Snapshot()), bauds, rxd).0
      ensures printed == old(printed) + Sample(old(Snapshot()), bauds, rxd).1
    {
      if !receiving {
        if !rxd && last {
          receiving := true;
          baud := bauds / 2;
          bits := 0;
          data := 0;
        }
      } else {
        if baud == 0 {
          if bits == 0 {
            // start bit
          } else if bits == 9 {
            printed := printed + [data];
            receiving := false;
          } else {
            data := Deposit(data, rxd, bits - 1);
          }
          baud := bauds - 1;
          bits := bits + 1;
        } else {
          baud := baud - 1;
        }
      }
      last := rxd;
    }
  }

  /** Eight data bits, one stop bit, no parity. */
  predicate EightNOne(s: Setup) {
    Plain(s) && s.dataBits == 0 && !s.useParity && !s.dblStop
  }

  /** The sampling point: half a bit and one clock after each bit begins. */
  function Offset(s: Setup): nat {
    s.baud / 2 + 1
  }

  /** Bits sampled so far. */
  function Sampled(s: Setup, j: nat, r: nat): nat {
    if r >= Offset(s) then j + 1 else j
  }

  /** The receiver's registers for each phase of the transmitter. */
  predicate SimAt(m: Sim, s: Setup, p: Phase)
    requires EightNOne(s)
  {
    && m.last == Level(s, p)
    && match p
       case Rest => !m.receiving
       case Frame(d, j, r) =>
         var n := Sampled(s, j, r);
         if n == 10 then !m.receiving
         else
           && m.receiving && m.bits == n
           && m.data == d % Pow2(if n == 0 then 0 else n - 1)
           && m.baud == (if r < Offset(s) then Offset(s) - 1 - r else s.baud - 1 - (r - Offset(s)))
  }

  /** Transmitter, receiver, the bytes accepted and the bytes printed. */
  datatype Link = Link(tx: Tx, rx: Sim, accepted: seq<int>, printed: seq<int>)

  /** One tick of the test bench: a clock edge, then a sample of the line. */
  function LinkTick(l: Link, i: TxIn, clocksPerBaud: nat): Link {
    var t := TxNext(l.tx, i);
    var r := Sample(l.rx, clocksPerBaud, t.line);
    Link(t, r.0, if Accepts(l.tx, i) then l.accepted + [i.data] else l.accepted, l.printed + r.1)
  }

  /** The byte on the line that has not been printed yet. */
  function Pending(s: Setup, p: Phase): seq<int> {
    if p.Frame? && Sampled(s, p.j, p.r) < 10 then [p.d] else []
  }

  ghost predicate LinkInv(l: Link, s: Setup, p: Phase)
    requires EightNOne(s)
  {
    TxAt(l.tx, s, p) && SimAt(l.rx, s, p) && l.accepted == l.printed + Pending(s, p)
  }

  lemma DepositBit(d: int, n: nat)
    requires d >= 0
    ensures Deposit(d % Pow2(n), BitOf(d, n), n) == d % Pow2(n + 1)
  {
    ModNextBit(d, n);
    DivModBasic(d, Pow2(n));
    DivModUnique(d % Pow2(n), Pow2(n), 0, d % Pow2(n));
  }

  lemma SmallByte(d: int)
    requires 0 <= d < 256
    ensures d % Pow2(8) == d
  {
    assert Pow2(8) == 256;
  }

  /** What one sample must achieve. */
  predicate SampledWell(m: Sim, s: Setup, p: Phase, n: Phase, w: int)
    requires EightNOne(s)
  {
    var r := Sample(m, s.baud, Level(s, n));
    SimAt(r.0, s, n) && r.1 + Pending(s, n) == (if p.Rest? && n.Frame? then [w] else Pending(s, p))
  }

  lemma SampleAtRest(m: Sim, s: Setup, accept: bool, w: int)
    requires EightNOne(s) && SimAt(m, s, Rest) && 0 <= w < 256
    ensures SampledWell(m, s, Rest, NextPhase(s, Rest, accept, w), w)
  {
    assert Pow2(0) == 1;
  }

  lemma SampleBetween(m: Sim, s: Setup, p: Phase, accept: bool, w: int)
    requires EightNOne(s) && p.Frame? && InFrame(s, p) && SimAt(m, s, p)
    requires m.receiving ==> m.baud > 0
    ensures SampledWell(m, s, p, NextPhase(s, p, accept, w), w)
  {
    hide Pow2, BitOf;
  }

  lemma SampleInBit(m: Sim, s: Setup, p: Phase, accept: bool, w: int)
    requires EightNOne(s) && p.Frame? && InFrame(s, p) && SimAt(m, s, p)
    requires m.receiving && m.baud == 0
    ensures SampledWell(m, s, p, NextPhase(s, p, accept, w), w)
  {
    hide Deposit, BitOf;
    assert Pow2(0) == 1;
    SmallByte(p.d);
    if 1 <= p.j { DepositBit(p.d, p.j - 1); }
    assert p.r == Offset(s) - 1 && Sampled(s, p.j, p.r) == p.j;
  }

  /** One sample of the receiver against the phase the line has just entered. */
  lemma SampleTick(m: Sim, s: Setup, p: Phase, accept: bool, w: int)
    requires EightNOne(s) && InFrame(s, p) && SimAt(m, s, p) && 0 <= w < 256
    ensures SampledWell(m, s, p, NextPhase(s, p, accept, w), w)
  {
    hide SimAt, SampledWell;
    if p.Rest? { SampleAtRest(m, s, accept, w); }
    else if m.receiving && m.baud == 0 { SampleInBit(m, s, p, accept, w); }
    else { BaudNonNegative(m, s, p); SampleBetween(m, s, p, accept, w); }
  }

  lemma BaudNonNegative(m: Sim, s: Setup, p: Phase)
    requires EightNOne(s) && InFrame(s, p) && SimAt(m, s, p)
    ensures m.receiving ==> m.baud >= 0
  {
  }

  /** One tick of the bench keeps the two sides aligned and loses, repeats or reorders nothing. */
  lemma LinkStep(l: Link, s: Setup, p: Phase, i: TxIn)
    requires EightNOne(s) && LinkInv(l, s, p) && Quiet(i, s)
    ensures LinkInv(LinkTick(l, i, s.baud), s, NextPhase(s, p, Accepts(l.tx, i), i.data))
  {
    hide TxNext, Sample, SimAt, Level;
    TxTick(l.tx, s, p, i);
    SampleTick(l.rx, s, p, Accepts(l.tx, i), i.data);
    var n := NextPhase(s, p, Accepts(l.tx, i), i.data);
    var r := Sample(l.rx, s.baud, Level(s, n));
    assert (l.printed + r.1) + Pending(s, n) == l.printed + (r.1 + Pending(s, n));
  }

  function LinkRun(l0: Link, ins: nat -> TxIn, clocksPerBaud: nat, n: nat): Link {
    if n == 0 then l0 else LinkTick(LinkRun(l0, ins, clocksPerBaud, n - 1), ins(n - 1), clocksPerBaud)
  }

  /** Line idle on both sides, nothing sent yet. */
  predicate Fresh(l: Link) {
    && l.tx.state == IDLE && l.tx.zero && l.tx.baud == 0 && l.tx.line
    && !l.rx.receiving && l.rx.last
    && l.accepted == [] && l.printed == []
  }

  lemma {:induction false} LinkRunInv(l0: Link, s: Setup, ins: nat -> TxIn, n: nat) returns (p: Phase)
    requires EightNOne(s) && Fresh(l0) && forall k: nat :: Quiet(ins(k), s)
    ensures LinkInv(LinkRun(l0, ins, s.baud, n), s, p)
  {
    hide LinkTick, Quiet;
    if n == 0 {
      p := Rest;
    } else {
      p := LinkRunInv(l0, s, ins, n - 1);
      var l := LinkRun(l0, ins, s.baud, n - 1);
      LinkStep(l, s, p, ins(n - 1));
      p := NextPhase(s, p, Accepts(l.tx, ins(n - 1)), ins(n - 1).data);
    }
  }

  /** For every stream of write requests and clear-to-send levels, and at least three clocks per baud: what has been
      printed is exactly what was accepted, in order and once each, but for the one byte still on the line; and
      whenever the transmitter is ready for another byte, nothing is outstanding. */
  lemma PrintsWhatWasAccepted(l0: Link, s: Setup, ins: nat -> TxIn, n: nat)
    requires EightNOne(s) && Fresh(l0) && forall k: nat :: Quiet(ins(k), s)
    ensures var l := LinkRun(l0, ins, s.baud, n);
            && (l.printed == l.accepted || (l.accepted != [] && l.printed == l.accepted[..|l.accepted| - 1]))
            && (!l.tx.busy ==> l.printed == l.accepted)
  {
    hide LinkRun, Quiet, SimAt;
    var p := LinkRunInv(l0, s, ins, n);
  }

  /** The main loop of the bench: a clock of the processor side, then a sample of its line. */
  method Bench(t: Transmitter, r: Receiver, s: Setup, ins: nat -> TxIn, n: nat) returns (accepted: seq<int>)
    requires EightNOne(s) && r.bauds == s.baud && forall k: nat :: Quiet(ins(k), s)
    requires Fresh(Link(t.Snapshot(), r.Snapshot(), [], r.printed))
    modifies t, r
    ensures r.printed == accepted || (accepted != [] && r.printed == accepted[..|accepted| - 1])
    ensures !t.control.busy ==> r.printed == accepted
  {
    hide TxNext, Sample, Fresh, Quiet, EightNOne;
    accepted := [];
    ghost var l0 := Link(t.Snapshot(), r.Snapshot(), [], r.printed);
    for k := 0 to n
      invariant Link(t.Snapshot(), r.Snapshot(), accepted, r.printed) == LinkRun(l0, ins, s.baud, k)
    {
      if Accepts(t.Snapshot(), ins(k)) { accepted := accepted + [ins(k).data]; }
      t.Clock(ins(k));
      r.Call(t.wire.line);
    }
    PrintsWhatWasAccepted(l0, s, ins, n);
  }

  /** The phase n clocks after a byte was offered to an idle transmitter. */
  function PhaseAfter(s: Setup, d: int, n: nat): Phase
    requires EightNOne(s) && n >= 1
  {
    if n >= 10 * s.baud then Rest else Frame(d, (n - 1) / s.baud, (n - 1) % s.baud)
  }

  lemma PhaseAfterStep(s: Setup, d: int, n: nat, accept: bool, w: int)
    requires EightNOne(s) && 2 <= n <= 10 * s.baud
    ensures PhaseAfter(s, d, n - 1).Frame?
    ensures NextPhase(s, PhaseAfter(s, d, n - 1), accept, w) == PhaseAfter(s, d, n)
  {
    NextDivMod(n - 2, s.baud);
    var e := n - 1;
    DivModBasic(e, s.baud);
    if e == 10 * s.baud - 1 {
      Distribute(10, 1, s.baud);
      DivModUnique(e, s.baud, 9, s.baud - 1);
    } else if e / s.baud >= 10 {
      MulLe(10, e / s.baud, s.baud);
    } else if e / s.baud == 9 {
      assert e % s.baud < s.baud - 1;
    }
  }

  /** A frame occupies the transmitter for exactly ten bit times: it is busy until then, and then at rest,
      whatever is asked of it meanwhile. */
  lemma {:induction false} FrameLastsTenBits(t: Tx, s: Setup, ins: nat -> TxIn, n: nat)
    requires EightNOne(s) && TxAt(t, s, Rest) && forall k: nat :: Quiet(ins(k), s)
    requires Accepts(t, ins(0)) && 1 <= n <= 10 * s.baud
    ensures TxAt(TxRun(t, ins, n), s, PhaseAfter(s, ins(0).data, n))
    ensures n < 10 * s.baud ==> TxRun(t, ins, n).busy
  {
    hide TxNext, NextPhase, Quiet, PhaseAfter;
    assert Quiet(ins(n - 1), s);
    if n == 1 {
      assert TxRun(t, ins, 0) == t;
      TxTick(t, s, Rest, ins(0));
      FirstPhase(s, ins(0).data);
    } else {
      FrameLastsTenBits(t, s, ins, n - 1);
      var u := TxRun(t, ins, n - 1);
      PhaseAfterStep(s, ins(0).data, n, Accepts(u, ins(n - 1)), ins(n - 1).data);
      TxTick(u, s, PhaseAfter(s, ins(0).data, n - 1), ins(n - 1));
    }
    BusyInFrame(TxRun(t, ins, n), s, PhaseAfter(s, ins(0).data, n));
    PhaseIsFrame(s, ins(0).data, n);
  }

  lemma FirstPhase(s: Setup, d: int)
    requires EightNOne(s)
    ensures NextPhase(s, Rest, true, d) == PhaseAfter(s, d, 1)
  {
    DivModUnique(0, s.baud, 0, 0);
  }

  lemma BusyInFrame(t: Tx, s: Setup, p: Phase)
    requires Plain(s) && TxAt(t, s, p)
    ensures p.Frame? ==> t.busy
  {
  }

  lemma PhaseIsFrame(s: Setup, d: int, n: nat)
    requires EightNOne(s) && n >= 1
    ensures PhaseAfter(s, d, n).Frame? <==> n < 10 * s.baud
  {
  }
}

/** What power-up, reset, break and flow control do to the transmitter, over whole runs. */
module TxSignals {
  import opened TxUart
  import opened TxFrames

  /** Five clocks after power-up, without reset or break, the transmitter is at rest. */
  lemma TransmitterWakesUp(cts: CtsRegs, s: Setup, ins: nat -> TxIn)
    requires Plain(s) && forall k: nat :: Quiet(ins(k), s)
    ensures TxAt(TxRun(PowerUp(cts), ins, 5), s, Rest)
  {
    hide TxParity;
  }

  /** Waiting in `state` with the line at `level` and c clocks to count. */
  predicate Counting(t: Tx, state: int, level: bool, setup: Setup, c: int) {
    && t.state == state && t.line == level && t.busy && t.setup == setup
    && t.baud == c
  }

  lemma CountTick(t: Tx, i: TxIn, state: int, level: bool, c: int)
    requires !i.reset && !i.brk && 0 < c < COUNTER && !t.zero && (state == IDLE || state == BREAK)
    requires Counting(t, state, level, t.setup, c)
    ensures Counting(TxNext(t, i), state, level, t.setup, c - 1) && TxNext(t, i).zero == (c == 1)
  {
  }

  /** The clocks after a reset or a break: the line stays, nothing is accepted, until the counter is empty. */
  lemma {:induction false} CountDown(t: Tx, ins: nat -> TxIn, state: int, level: bool, from: nat, c: nat, n: nat)
    requires forall k: nat :: k >= from ==> !ins(k).reset && !ins(k).brk
    requires 0 < c < COUNTER && n <= c && (state == IDLE || state == BREAK)
    requires var u := TxRun(t, ins, from); Counting(u, state, level, u.setup, c) && !u.zero
    ensures Counting(TxRun(t, ins, from + n), state, level, TxRun(t, ins, from).setup, c - n)
    ensures TxRun(t, ins, from + n).zero == (n == c)
  {
    hide TxNext, Counting;
    if n > 0 {
      CountDown(t, ins, state, level, from, c, n - 1);
      var u := TxRun(t, ins, from + n - 1);
      assert TxRun(t, ins, from + n) == TxNext(u, ins(from + n - 1));
      CountsFor(u, state, level, TxRun(t, ins, from).setup, c - (n - 1));
      CountTick(u, ins(from + n - 1), state, level, c - (n - 1));
    }
  }

  lemma CountsFor(t: Tx, state: int, level: bool, setup: Setup, c: int)
    requires Counting(t, state, level, setup, c)
    ensures t.setup == setup
  {
  }

  /** The clocks a reset takes: sixteen bit times of the initial setup, and one for the reset itself. */
  const RESET_CLOCKS: nat := 16 * 868 + 1

  lemma ResetCounts(t: Tx, i: TxIn)
    requires i.reset
    ensures var u := TxNext(t, i); Counting(u, IDLE, true, u.setup, RESET_CLOCKS - 1) && !u.zero
  {
  }

  /** A reset, from any register contents: the line is high and no word is accepted for sixteen bit times of the initial
      setup; then the transmitter is at rest. */
  lemma TransmitterResets(t: Tx, s: Setup, ins: nat -> TxIn, n: nat)
    requires Plain(s) && ins(0).reset && forall k: nat :: k > 0 ==> Quiet(ins(k), s)
    requires 0 < n <= RESET_CLOCKS
    ensures TxRun(t, ins, n).line && TxRun(t, ins, n).busy
    ensures TxAt(TxRun(t, ins, RESET_CLOCKS), s, Rest)
  {
    hide TxNext;
    assert TxRun(t, ins, 1) == TxNext(TxRun(t, ins, 0), ins(0));
    ResetCounts(t, ins(0));
    CountDown(t, ins, IDLE, true, 1, RESET_CLOCKS - 1, n - 1);
    CountDown(t, ins, IDLE, true, 1, RESET_CLOCKS - 1, RESET_CLOCKS - 1);
  }

  /** The setup that times a break of n clocks: the register follows the input only while not busy. */
  function BreakSetup(t: Tx, ins: nat -> TxIn, n: nat): Setup {
    if n > 1 && !t.busy then ins(0).setup else t.setup
  }

  lemma BreakTick(t: Tx, i: TxIn)
    requires !i.reset && i.brk && 0 < t.setup.baud < 0x100_0000
    ensures var u := TxNext(t, i);
            Counting(u, BREAK, false, if t.busy then t.setup else i.setup, 16 * t.setup.baud) && !u.zero
  {
  }

  lemma {:induction false} WhileBreaking(t: Tx, ins: nat -> TxIn, n: nat)
    requires n > 0 && forall k: nat :: k < n ==> ins(k).brk && !ins(k).reset
    requires 0 < t.setup.baud < 0x100_0000 && 0 < ins(0).setup.baud < 0x100_0000
    ensures var u := TxRun(t, ins, n);
            && Counting(u, BREAK, false, if t.busy then t.setup else ins(0).setup, 16 * BreakSetup(t, ins, n).baud)
            && !u.zero
  {
    hide TxNext;
    var v := TxRun(t, ins, n - 1);
    assert TxRun(t, ins, n) == TxNext(v, ins(n - 1));
    if n > 1 { WhileBreaking(t, ins, n - 1); }
    BreakTick(v, ins(n - 1));
  }

  lemma BreakIsOver(t: Tx, i: TxIn, s: Setup)
    requires Plain(s) && Counting(t, BREAK, false, t.setup, 0) && t.zero && !i.reset && !i.brk
    ensures TxAt(TxNext(t, i), s, Rest) && TxNext(t, i).busy == !t.ckCts
  {
  }

  /** A break held for n clocks: the line is low, and no word accepted, for these n clocks and sixteen bit times more.
      On the next clock the line is high and the transmitter at rest, busy only for flow control. */
  lemma BreakHoldsTheLine(t: Tx, ins: nat -> TxIn, s: Setup, n: nat, m: nat)
    requires Plain(s) && n > 0 && 0 < t.setup.baud < 0x100_0000 && 0 < ins(0).setup.baud < 0x100_0000
    requires forall k: nat :: !ins(k).reset && ins(k).brk == (k < n)
    requires 0 < m <= n + 16 * BreakSetup(t, ins, n).baud
    ensures !TxRun(t, ins, m).line && TxRun(t, ins, m).busy
    ensures var low, after := n + 16 * BreakSetup(t, ins, n).baud, n + 16 * BreakSetup(t, ins, n).baud + 1;
            && TxAt(TxRun(t, ins, after), s, Rest)
            && TxRun(t, ins, after).busy == !TxRun(t, ins, low).ckCts
  {
    hide TxNext, BreakSetup, TxAt, Plain;
    var c := 16 * BreakSetup(t, ins, n).baud;
    SetupInRange(t, ins, n);
    WhileBreaking(t, ins, n);
    CountsFor(TxRun(t, ins, n), BREAK, false, if t.busy then t.setup else ins(0).setup, c);
    if m <= n {
      WhileBreaking(t, ins, m);
    } else {
      CountDown(t, ins, BREAK, false, n, c, m - n);
    }
    CountDown(t, ins, BREAK, false, n, c, c);
    var u := TxRun(t, ins, n + c);
    CountsFor(u, BREAK, false, TxRun(t, ins, n).setup, 0);
    assert TxRun(t, ins, n + c + 1) == TxNext(u, ins(n + c));
    BreakIsOver(u, ins(n + c), s);
  }

  lemma SetupInRange(t: Tx, ins: nat -> TxIn, n: nat)
    requires 0 < t.setup.baud < 0x100_0000 && 0 < ins(0).setup.baud < 0x100_0000
    ensures 0 < 16 * BreakSetup(t, ins, n).baud < COUNTER
  {
  }

  /** The synchroniser k clocks into a run in which the other side shows itself ready, or not, all the time. */
  predicate Synchronised(t: Tx, ready: bool, k: nat) {
    && (k >= 1 ==> t.qCts == !ready)
    && (k >= 2 ==> t.qqCts == !ready)
    && (k >= 3 ==> t.ckCts == ready)
  }

  lemma {:induction false} FlowControlRun(t: Tx, ins: nat -> TxIn, ready: bool, n: nat)
    requires !t.setup.softFlow
    requires forall k: nat :: !ins(k).reset && ins(k).ctsN == !ready && !ins(k).setup.softFlow
    ensures Synchronised(TxRun(t, ins, n), ready, n) && !TxRun(t, ins, n).setup.softFlow
    ensures n >= 4 && !ready ==> TxRun(t, ins, n).busy
  {
    hide TxBaud, TxLine, TxParity;
    if n > 0 { FlowControlRun(t, ins, ready, n - 1); }
  }

  /** With hardware flow control, four clocks after the other side stops being ready no word is accepted any more,
      whatever is written; from power-up on, none is accepted until it is ready. */
  lemma NotReadyNotSent(t: Tx, ins: nat -> TxIn, n: nat)
    requires forall k: nat :: !ins(k).reset && ins(k).ctsN && !ins(k).setup.softFlow
    requires (n >= 4 && !t.setup.softFlow) || exists cts :: t == PowerUp(cts)
    ensures !Accepts(TxRun(t, ins, n), ins(n))
  {
    hide TxLine, TxParity;
    FlowControlRun(t, ins, false, n);
    if n < 4 {
      FirstClocks(t, ins, n);
    }
  }

  lemma FirstClocks(t: Tx, ins: nat -> TxIn, n: nat)
    requires n < 4 && (exists cts :: t == PowerUp(cts)) && forall k: nat :: !ins(k).reset
    ensures TxRun(t, ins, n).busy
  {
    hide TxLine, TxParity;
  }

  /** At rest, once it has been ready for three clocks, the next word may be accepted on the fourth. */
  lemma ReadyMaySend(t: Tx, i: TxIn, s: Setup)
    requires Plain(s) && TxAt(t, s, Rest) && t.ckCts && !i.reset && !i.brk && !Accepts(t, i)
    ensures !TxNext(t, i).busy && TxAt(TxNext(t, i), s, Rest)
  {
  }
}
