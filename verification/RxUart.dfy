/** The serial receiver of src/Extern/rxuart.v, register by register. */
module RxUart {
  import opened TxUart

  const RX_BREAK: int := 13
  const RESET_IDLE: int := 14
  const COUNTER24: int := 0x100_0000

  /** Input synchroniser, change counter, line conditions, state, captured word, errors and outputs. */
  datatype Rx = Rx(
    q: bool, qq: bool, ck: bool, chg: int, brk: bool, synch: bool, half: bool, setup: Setup, state: int,
    data: int, parity: bool, parityErr: bool, frameErr: bool, preWr: bool, outData: int, wr: bool,
    baud: int, zero: bool)

  datatype RxIn = RxIn(reset: bool, setup: Setup, line: bool)

  function BreakCondition(x: Rx): int {
    x.setup.baud * 16
  }

  function HalfBaud(x: Rx): int {
    (x.setup.baud / 2 - 1) % COUNTER24
  }

  function NextChg(x: Rx, i: RxIn): int {
    if i.reset then 0
    else if x.qq != x.ck then 0
    else if x.chg < BreakCondition(x) then x.chg + 1
    else x.chg
  }

  function NextState(x: Rx, i: RxIn): int {
    if i.reset then RESET_IDLE
    else if x.state == RESET_IDLE then (if x.synch then IDLE else RESET_IDLE)
    else if x.brk then RX_BREAK
    else if x.state == RX_BREAK then (if x.ck then IDLE else RX_BREAK)
    else if x.state == IDLE then (if !x.ck && x.half then x.setup.dataBits else IDLE)
    else if !x.zero then x.state
    else if x.state < BIT_SEVEN then x.state + 1
    else if x.state == BIT_SEVEN then (if x.setup.useParity then PARITY else STOP)
    else if x.state == PARITY then STOP
    else if !x.ck then RESET_IDLE
    else if x.state == STOP && x.setup.dblStop then SECOND_STOP
    else IDLE
  }

  function NextData(x: Rx): int {
    if x.zero && x.state != PARITY then x.data / 2 + (if x.ck then 128 else 0) else x.data
  }

  function NextParity(x: Rx, i: RxIn): bool {
    if i.reset || x.state == IDLE then false
    else if x.zero then x.parity != x.ck
    else x.parity
  }

  function NextParityErr(x: Rx, i: RxIn): bool {
    if i.reset then false
    else if x.zero && x.state == PARITY then
      if x.setup.fixedParity then x.ck != x.setup.parityBit
      else if x.setup.parityBit then x.parity != x.ck
      else x.parity == x.ck
    else if x.state >= RX_BREAK then false
    else x.parityErr
  }

  function NextFrameErr(x: Rx, i: RxIn): bool {
    if i.reset then false
    else if x.zero && (x.state == STOP || x.state == SECOND_STOP) then x.frameErr || !x.ck
    else if x.zero || x.state >= RX_BREAK then false
    else x.frameErr
  }

  function DropLow(data: int, n: int): int {
    match n
    case 0 => data
    case 1 => data / 2
    case 2 => data / 4
    case _ => data / 8
  }

  /** pre_wr and o_data */
  function NextPre(x: Rx, i: RxIn): (bool, int) {
    if i.reset then (false, 0)
    else if x.zero && x.state == STOP then (true, DropLow(x.data, x.setup.dataBits))
    else if x.zero || x.state == IDLE then (false, x.outData)
    else (x.preWr, x.outData)
  }

  function NextWr(x: Rx, i: RxIn): bool {
    !i.reset && (x.zero || x.state == IDLE) && x.preWr
  }

  function NextBaud(x: Rx, i: RxIn): int {
    if i.reset then INITIAL_SETUP.baud - 1
    else if x.zero || x.state == RX_BREAK || x.state == RESET_IDLE || x.state == IDLE then (x.setup.baud - 1) % COUNTER24
    else (x.baud - 1) % COUNTER24
  }

  function RxNext(x: Rx, i: RxIn): Rx {
    Rx(!i.reset && i.line, !i.reset && x.q, !i.reset && x.qq,
       NextChg(x, i),
       !i.reset && x.chg >= BreakCondition(x) && !x.ck,
       !i.reset && x.chg >= BreakCondition(x) && x.ck,
       !i.reset && !x.ck && x.chg >= HalfBaud(x),
       if i.reset then INITIAL_SETUP else if x.state >= RESET_IDLE then i.setup else x.setup,
       NextState(x, i), NextData(x), NextParity(x, i), NextParityErr(x, i), NextFrameErr(x, i),
       NextPre(x, i).0, NextPre(x, i).1, NextWr(x, i),
       NextBaud(x, i), x.state != IDLE && x.baud == 1)
  }

  /** Input synchroniser, change counter and line conditions. */
  datatype LineRegs = LineRegs(q: bool, qq: bool, ck: bool, chg: int, brk: bool, synch: bool, half: bool)

  /** Word capture and error flags. */
  datatype CaptureRegs = CaptureRegs(data: int, parity: bool, parityErr: bool, frameErr: bool)

  /** pre_wr, o_data and o_wr. */
  datatype OutputRegs = OutputRegs(preWr: bool, outData: int, wr: bool)

  /** The same registers, in groups, updated in place at each clock edge. */
  class SerialReceiver {
    var wire: LineRegs
    var setup: Setup
    var state: int
    var capture: CaptureRegs
    var output: OutputRegs
    var baud: int
    var zero: bool

    constructor (x: Rx)
      ensures Snapshot() == x
    {
      wire := LineRegs(x.q, x.qq, x.ck, x.chg, x.brk, x.synch, x.half);
      setup, state := x.setup, x.state;
      capture := CaptureRegs(x.data, x.parity, x.parityErr, x.frameErr);
      output := OutputRegs(x.preWr, x.outData, x.wr);
      baud, zero := x.baud, x.zero;
    }

    function Snapshot(): Rx
      reads this
    {
      Rx(wire.q, wire.qq, wire.ck, wire.chg, wire.brk, wire.synch, wire.half, setup, state,
         capture.data, capture.parity, capture.parityErr, capture.frameErr,
         output.preWr, output.outData, output.wr, baud, zero)
    }

    method Clock(i: RxIn)
      modifies this
      ensures Snapshot() == RxNext(old(Snapshot()), i)
    {
      hide NextChg, NextState, NextData, NextParity, NextParityErr, NextFrameErr, NextPre, NextWr, NextBaud,
           BreakCondition, HalfBaud;
      var x := Snapshot();
      WireEdge(x, i);
      StateEdge(x, i);
      CaptureEdge(x, i);
      OutputEdge(x, i);
      BaudEdge(x, i);
    }

    method WireEdge(x: Rx, i: RxIn)
      requires wire.chg == x.chg
      modifies this`wire
      ensures wire == LineRegs(!i.reset && i.line, !i.reset && x.q, !i.reset && x.qq, NextChg(x, i),
                               !i.reset && x.chg >= BreakCondition(x) && !x.ck,
                               !i.reset && x.chg >= BreakCondition(x) && x.ck,
                               !i.reset && !x.ck && x.chg >= HalfBaud(x))
    {
      hide BreakCondition, HalfBaud;
      if i.reset {
        wire := LineRegs(false, false, false, 0, false, false, false);
      } else {
        wire := wire.(ck := x.qq, qq := x.q, q := i.line);
        if x.qq != x.ck {
          wire := wire.(chg := 0);
        } else if x.chg < BreakCondition(x) {
          wire := wire.(chg := x.chg + 1);
        }
        var long := x.chg >= BreakCondition(x);
        wire := wire.(brk := long && !x.ck, synch := long && x.ck, half := !x.ck && x.chg >= HalfBaud(x));
      }
    }

    method StateEdge(x: Rx, i: RxIn)
      requires state == x.state && setup == x.setup
      modifies this`state, this`setup
      ensures state == NextState(x, i)
      ensures setup == (if i.reset then INITIAL_SETUP else if x.state >= RESET_IDLE then i.setup else x.setup)
    {
      if i.reset {
        setup := INITIAL_SETUP;
      } else if x.state >= RESET_IDLE {
        setup := i.setup;
      }
      if i.reset {
        state := RESET_IDLE;
      } else if x.state == RESET_IDLE {
        if x.synch { state := IDLE; }
      } else if x.brk {
        state := RX_BREAK;
      } else if x.state == RX_BREAK {
        if x.ck { state := IDLE; }
      } else if x.state == IDLE {
        if !x.ck && x.half { state := x.setup.dataBits; }
      } else if x.zero {
        if x.state < BIT_SEVEN {
          state := x.state + 1;
        } else if x.state == BIT_SEVEN {
          state := if x.setup.useParity then PARITY else STOP;
        } else if x.state == PARITY {
          state := STOP;
        } else if x.state == STOP {
          state := if !x.ck then RESET_IDLE else if x.setup.dblStop then SECOND_STOP else IDLE;
        } else {
          state := if !x.ck then RESET_IDLE else IDLE;
        }
      }
    }

    method CaptureEdge(x: Rx, i: RxIn)
      requires capture == CaptureRegs(x.data, x.parity, x.parityErr, x.frameErr)
      modifies this`capture
      ensures capture == CaptureRegs(NextData(x), NextParity(x, i), NextParityErr(x, i), NextFrameErr(x, i))
    {
      var data, parity, parityErr, frameErr := x.data, x.parity, x.parityErr, x.frameErr;
      if x.zero && x.state != PARITY {
        data := x.data / 2 + (if x.ck then 128 else 0);
      }
      if i.reset || x.state == IDLE {
        parity := false;
      } else if x.zero {
        parity := x.parity != x.ck;
      }
      if i.reset {
        parityErr, frameErr := false, false;
      } else {
        if x.zero && x.state == PARITY {
          parityErr := if x.setup.fixedParity then x.ck != x.setup.parityBit else (x.parity != x.ck) == x.setup.parityBit;
        } else if x.state >= RX_BREAK {
          parityErr := false;
        }
        if x.zero && (x.state == STOP || x.state == SECOND_STOP) {
          frameErr := x.frameErr || !x.ck;
        } else if x.zero || x.state >= RX_BREAK {
          frameErr := false;
        }
      }
      capture := CaptureRegs(data, parity, parityErr, frameErr);
    }

    method OutputEdge(x: Rx, i: RxIn)
      requires output == OutputRegs(x.preWr, x.outData, x.wr)
      modifies this`output
      ensures output == OutputRegs(NextPre(x, i).0, NextPre(x, i).1, NextWr(x, i))
    {
      if i.reset {
        output := OutputRegs(false, 0, false);
      } else {
        if x.zero && x.state == STOP {
          output := output.(preWr := true, outData := DropLow(x.data, x.setup.dataBits));
        } else if x.zero || x.state == IDLE {
          output := output.(preWr := false);
        }
        output := output.(wr := if x.zero || x.state == IDLE then x.preWr else false);
      }
    }

    method BaudEdge(x: Rx, i: RxIn)
      modifies this`baud, this`zero
      ensures baud == NextBaud(x, i) && zero == (x.state != IDLE && x.baud == 1)
    {
      if i.reset {
        baud := INITIAL_SETUP.baud - 1;
      } else if x.zero || x.state == RESET_IDLE || x.state == RX_BREAK || x.state == IDLE {
        baud := (x.setup.baud - 1) % COUNTER24;
      } else {
        baud := (x.baud - 1) % COUNTER24;
      }
      if x.state == IDLE {
        zero := false;
      } else {
        zero := x.baud == 1;
      }
    }
  }
}

/** Transmitter and receiver on one wire. */
module SerialLink {
  import opened Arith
  import opened TxUart
  import opened TxSignals
  import opened TxFrames
  import opened RxUart

  /** Clocks into a bit at which the receiver, seeing the line three clocks late, acts. */
  function Middle(s: Setup): nat {
    s.baud / 2 + 1
  }

  /** Whole bit times since the middle of the start bit, and clocks into the current one. */
  function Elapsed(s: Setup, j: nat, r: nat): (int, int) {
    if r >= Middle(s) then (j, r - Middle(s)) else (j - 1, r + s.baud - Middle(s))
  }

  predicate Received(data: int, d: int, m: nat)
    requires m <= 8
  {
    0 <= data < 256 && data / Pow2(8 - m) == d % Pow2(m)
  }

  /** The receiver's registers when its synchronised input `ck` shows phase p of the line. */
  predicate RxAt(x: Rx, s: Setup, p: Phase)
    requires Plain(s)
  {
    && InFrame(s, p)
    && x.ck == Level(s, p) && x.setup == s && !x.brk && !x.frameErr && 0 <= x.data < 256
    && match p
       case Rest => x.state == IDLE && !x.zero && x.baud == s.baud - 1 && !x.half
       case Frame(d, j, r) =>
         var (m, o) := Elapsed(s, j, r);
         && 0 <= x.chg <= j * s.baud + r
         && (j == 0 ==> x.chg == r)
         && if m < 0 then
              x.state == IDLE && !x.zero && x.baud == s.baud - 1 && x.half == (r >= s.baud / 2) && !x.preWr
            else if m < FrameBits(s) - 1 then
              && x.state == StateAt(s, m) && x.baud == s.baud - 1 - o && x.zero == (o == s.baud - 1)
              && (m <= Bits(s) + ParityBits(s) ==> !x.preWr && Received(x.data, d, if m <= Bits(s) then m else Bits(s)))
              && (m <= Bits(s) ==> x.parity == OddOnes(d, m))
              && x.parityErr == (m > Bits(s) && s.useParity && !s.fixedParity)
            else x.state == IDLE && !x.zero && x.baud == s.baud - 1 && !x.half
  }

  // ------------------------------------------------------------ one clock of the receiver

  predicate Listening(x: Rx, s: Setup, p: Phase, i: RxIn, n: Phase)
    requires Plain(s)
  {
    RxAt(x, s, p) && !i.reset && i.setup == s && x.qq == Level(s, n)
  }

  /** Words the receiver has begun but not yet announced. */
  function Undelivered(x: Rx, s: Setup, p: Phase): seq<int>
    requires Plain(s)
  {
    (if x.preWr then [x.outData] else []) +
    (if p.Frame? && Elapsed(s, p.j, p.r).0 <= Bits(s) + ParityBits(s) then [p.d % Pow2(Bits(s))] else [])
  }

  /** A frame that begins between two consecutive phases. */
  function Starts(s: Setup, p: Phase, n: Phase): seq<int>
    requires Plain(s)
  {
    if p.Rest? && n.Frame? then [n.d % Pow2(Bits(s))] else []
  }

  /** What an edge announces: o_wr is high after it. */
  function Announced(y: Rx): seq<int> {
    if y.wr then [y.outData] else []
  }

  /** The registers follow the line, and what was begun is either still held or announced. */
  predicate Keeps(x: Rx, s: Setup, p: Phase, i: RxIn, n: Phase)
    requires Plain(s)
  {
    var y := RxNext(x, i);
    RxAt(y, s, n) && Announced(y) + Undelivered(y, s, n) == Undelivered(x, s, p) + Starts(s, p, n)
  }

  lemma RxRestTick(x: Rx, s: Setup, i: RxIn, accept: bool, w: int)
    requires Plain(s) && 0 <= w < 256 && Listening(x, s, Rest, i, NextPhase(s, Rest, accept, w))
    ensures Keeps(x, s, Rest, i, NextPhase(s, Rest, accept, w))
  {
    hide NextParity, NextParityErr, DropLow, Pow2, BitOf;
  }

  /** The change counter never reaches the break threshold inside a frame. */
  lemma ChangeInFrame(x: Rx, s: Setup, p: Phase, i: RxIn, accept: bool, w: int)
    requires Plain(s) && p.Frame? && Listening(x, s, p, i, NextPhase(s, p, accept, w))
    ensures !RxNext(x, i).brk && 0 <= NextChg(x, i)
    ensures var n := NextPhase(s, p, accept, w);
            n.Frame? ==> NextChg(x, i) <= n.j * s.baud + n.r && (n.j == 0 ==> NextChg(x, i) == n.r)
  {
    hide NextState, NextData, NextFrameErr, NextPre, NextWr, NextBaud, NextParity, NextParityErr, HalfBaud, Received,
         BitOf, StateAt, OddOnes, RunningParity;
    MulLe(p.j, 11, s.baud);
    Distribute(p.j, 1, s.baud);
  }

  /** What a clock in the idle state does to the registers. */
  lemma IdleRegisters(x: Rx, i: RxIn)
    requires !i.reset && !x.brk && !x.zero && x.state == IDLE && !x.frameErr && 1 <= x.setup.baud < COUNTER24
    ensures var y := RxNext(x, i);
            && y.state == (if !x.ck && x.half then x.setup.dataBits else IDLE)
            && y.data == x.data && !y.parity && !y.parityErr && !y.frameErr && !y.preWr && y.wr == x.preWr
            && y.outData == x.outData && y.setup == i.setup && y.ck == x.qq && y.chg == NextChg(x, i)
            && y.half == (!x.ck && x.chg >= HalfBaud(x)) && y.baud == x.setup.baud - 1 && !y.zero
  {
    hide NextChg, HalfBaud, BreakCondition, DropLow;
  }

  lemma NothingReceived(data: int, d: int)
    requires 0 <= data < 256
    ensures Received(data, d, 0) && !OddOnes(d, 0)
  {
    assert Pow2(0) == 1 && Pow2(8) == 256;
  }

  /** Waiting for the middle of the start bit. */
  lemma RxStartTick(x: Rx, s: Setup, p: Phase, i: RxIn, accept: bool, w: int)
    requires Plain(s) && p.Frame? && Elapsed(s, p.j, p.r).0 < 0
    requires Listening(x, s, p, i, NextPhase(s, p, accept, w))
    ensures Keeps(x, s, p, i, NextPhase(s, p, accept, w))
  {
    hide RxNext, NextChg, Received, OddOnes, BitOf, Pow2;
    IdleRegisters(x, i);
    ChangeInFrame(x, s, p, i, accept, w);
    NothingReceived(x.data, p.d);
    assert p.j == 0;
  }

  /** A clock inside a bit changes only the baud counter. */
  lemma HoldRegisters(x: Rx, i: RxIn)
    requires !i.reset && !x.brk && !x.zero && 0 <= x.state <= SECOND_STOP && !x.frameErr && 1 <= x.baud < COUNTER24
    ensures var y := RxNext(x, i);
            && (y.state, y.data, y.frameErr, y.preWr, y.outData) == (x.state, x.data, false, x.preWr, x.outData)
            && y.parity == x.parity && y.parityErr == x.parityErr
            && y.setup == x.setup && y.ck == x.qq && !y.wr && y.chg == NextChg(x, i)
            && y.baud == x.baud - 1 && y.zero == (x.baud == 1)
  {
    hide NextChg, HalfBaud, BreakCondition, DropLow;
  }

  /** Inside a bit the phase advances by one clock. */
  lemma HoldPhase(s: Setup, p: Phase, accept: bool, w: int)
    requires Plain(s) && p.Frame? && InFrame(s, p)
    requires var e := Elapsed(s, p.j, p.r); 0 <= e.0 < FrameBits(s) - 1 && e.1 != s.baud - 1
    ensures var e, n := Elapsed(s, p.j, p.r), NextPhase(s, p, accept, w);
            n.Frame? && InFrame(s, n) && n.d == p.d && Elapsed(s, n.j, n.r) == (e.0, e.1 + 1) && 0 <= e.1 && e.1 + 1 < s.baud
  {
  }

  lemma StillHeld(x: Rx, y: Rx, s: Setup, p: Phase, n: Phase)
    requires Plain(s) && p.Frame? && n.Frame? && n.d == p.d && Elapsed(s, n.j, n.r).0 == Elapsed(s, p.j, p.r).0
    requires y.preWr == x.preWr && y.outData == x.outData && !y.wr
    ensures Announced(y) + Undelivered(y, s, n) == Undelivered(x, s, p)
  {
    hide Pow2;
  }

  /** Between two sampling points. */
  lemma RxHoldTick(x: Rx, s: Setup, p: Phase, i: RxIn, accept: bool, w: int)
    requires Plain(s) && p.Frame? && 0 <= Elapsed(s, p.j, p.r).0 < FrameBits(s) - 1 && !x.zero
    requires Listening(x, s, p, i, NextPhase(s, p, accept, w))
    ensures Keeps(x, s, p, i, NextPhase(s, p, accept, w))
  {
    hide RxNext, NextChg, Received, Level, StateAt, OddOnes, Undelivered, NextPhase, InFrame, Elapsed;
    var e := Elapsed(s, p.j, p.r);
    var n := NextPhase(s, p, accept, w);
    StateInFrame(s, e.0);
    ChangeInFrame(x, s, p, i, accept, w);
    HoldPhase(s, p, accept, w);
    HoldRegisters(x, i);
    StillHeld(x, RxNext(x, i), s, p, n);
  }

  /** After the last stop bit. */
  lemma RxDoneTick(x: Rx, s: Setup, p: Phase, i: RxIn, accept: bool, w: int)
    requires Plain(s) && p.Frame? && Elapsed(s, p.j, p.r).0 >= FrameBits(s) - 1
    requires Listening(x, s, p, i, NextPhase(s, p, accept, w))
    ensures Keeps(x, s, p, i, NextPhase(s, p, accept, w))
  {
    hide NextParity, NextParityErr, DropLow, Pow2, BitOf;
    assert p.j == FrameBits(s) - 1;
  }

  /** What the clock that samples a bit does to the registers. */
  lemma SampleRegisters(x: Rx, i: RxIn)
    requires !i.reset && !x.brk && x.zero && 0 <= x.state <= SECOND_STOP && !x.frameErr
    requires x.state >= STOP ==> x.ck
    requires 1 <= x.setup.baud < COUNTER24 && x.baud == 0
    ensures var y := RxNext(x, i);
            && y.state == Advanced(x.setup, x.state) && !y.frameErr
            && y.data == (if x.state == PARITY then x.data else x.data / 2 + (if x.ck then 128 else 0))
            && y.parity == (x.parity != x.ck)
            && y.parityErr == (if x.state != PARITY then x.parityErr
                               else if x.setup.fixedParity then x.ck != x.setup.parityBit
                               else (x.parity != x.ck) == x.setup.parityBit)
            && (y.preWr, y.outData) == (if x.state == STOP then (true, DropLow(x.data, x.setup.dataBits)) else (false, x.outData))
            && y.wr == x.preWr
            && y.setup == x.setup && y.ck == x.qq && y.chg == NextChg(x, i)
            && y.baud == x.setup.baud - 1 && !y.zero && (x.ck ==> !y.half)
  {
    hide NextChg, HalfBaud, BreakCondition, DropLow;
  }

  /** The clock that samples a bit. */
  lemma RxSampleTick(x: Rx, s: Setup, p: Phase, i: RxIn, accept: bool, w: int)
    requires Plain(s) && p.Frame? && 0 <= Elapsed(s, p.j, p.r).0 < FrameBits(s) - 1 && x.zero
    requires Listening(x, s, p, i, NextPhase(s, p, accept, w))
    ensures Keeps(x, s, p, i, NextPhase(s, p, accept, w))
  {
    hide RxNext, NextChg, Received, Level, StateAt, DropLow, BitOf, Pow2, OddOnes;
    var m := Elapsed(s, p.j, p.r).0;
    var n := NextPhase(s, p, accept, w);
    StateInFrame(s, m);
    StateAdvances(s, m);
    ChangeInFrame(x, s, p, i, accept, w);
    LevelAt(s, p);
    SampleRegisters(x, i);
    assert p.j == m + 1 && p.r == Middle(s) - 1;
    if m < Bits(s) {
      CaptureBit(x.data, p.d, m, x.ck);
      NextOdd(p.d, m);
    }
    if m == Bits(s) + ParityBits(s) { WholeWord(x.data, p.d, s); }
  }

  lemma NextOdd(d: int, m: nat)
    ensures OddOnes(d, m + 1) == (OddOnes(d, m) != BitOf(d, m))
  {
  }

  lemma LevelAt(s: Setup, p: Phase)
    requires Plain(s) && p.Frame? && p.j >= 1
    ensures Level(s, p) == if p.j <= Bits(s) then BitOf(p.d, p.j - 1)
                           else p.j > Bits(s) + ParityBits(s) || RunningParity(s, p.d, Bits(s))
  {
  }

  lemma CaptureBit(data: int, d: int, m: nat, bit: bool)
    requires m < 8 && d >= 0 && Received(data, d, m) && bit == BitOf(d, m)
    ensures Received(data / 2 + (if bit then 128 else 0), d, m + 1)
  {
    hide BitOf;
    var p := Pow2(7 - m);
    assert Pow2(8 - m) == 2 * p;
    PowerSplit(m);
    DivDiv(data, 2, p);
    AddMultiple(data / 2, if bit then Pow2(m) else 0, p);
    ModNextBit(d, m);
  }

  lemma PowerSplit(m: nat)
    requires m < 8
    ensures Pow2(m) * Pow2(7 - m) == 128
  {
    assert Pow2(0) == 1 && Pow2(1) == 2 && Pow2(2) == 4 && Pow2(3) == 8;
    assert Pow2(4) == 16 && Pow2(5) == 32 && Pow2(6) == 64 && Pow2(7) == 128;
  }

  lemma WholeWord(data: int, d: int, s: Setup)
    requires Plain(s) && Received(data, d, Bits(s))
    ensures DropLow(data, s.dataBits) == d % Pow2(Bits(s))
  {
    assert Pow2(0) == 1 && Pow2(1) == 2 && Pow2(2) == 4 && Pow2(3) == 8;
  }

  /** Whatever the line does next, one clock keeps the receiver on it. */
  lemma RxTick(x: Rx, s: Setup, p: Phase, i: RxIn, accept: bool, w: int)
    requires Plain(s) && 0 <= w < 256 && Listening(x, s, p, i, NextPhase(s, p, accept, w))
    ensures Keeps(x, s, p, i, NextPhase(s, p, accept, w))
  {
    hide Keeps, RxNext, NextPhase, Level, Received, StateAt;
    if p.Rest? {
      RxRestTick(x, s, i, accept, w);
    } else if Elapsed(s, p.j, p.r).0 < 0 {
      RxStartTick(x, s, p, i, accept, w);
    } else if Elapsed(s, p.j, p.r).0 >= FrameBits(s) - 1 {
      RxDoneTick(x, s, p, i, accept, w);
    } else if x.zero {
      RxSampleTick(x, s, p, i, accept, w);
    } else {
      RxHoldTick(x, s, p, i, accept, w);
    }
  }

  // ------------------------------------------------------------ the two sides together

  /** Both ends, the words taken from the sender's side and the words announced on the receiver's. */
  datatype Serial = Serial(tx: Tx, rx: Rx, accepted: seq<int>, delivered: seq<int>)

  /** One clock of both ends: the receiver's first register takes the line as it was before the edge. */
  function SerialTick(l: Serial, i: TxIn): Serial
    requires Plain(i.setup)
  {
    var y := RxNext(l.rx, RxIn(i.reset, i.setup, l.tx.line));
    Serial(TxNext(l.tx, i), y,
           if Accepts(l.tx, i) then l.accepted + [i.data % Pow2(Bits(i.setup))] else l.accepted,
           l.delivered + Announced(y))
  }

  function SerialRun(l0: Serial, s: Setup, ins: nat -> TxIn, n: nat): Serial
    requires Plain(s) && forall k: nat :: Quiet(ins(k), s)
  {
    if n == 0 then l0 else SerialTick(SerialRun(l0, s, ins, n - 1), ins(n - 1))
  }

  /** The phase of the line after n clocks. */
  function LinePhase(l0: Serial, s: Setup, ins: nat -> TxIn, n: int): Phase
    requires Plain(s) && forall k: nat :: Quiet(ins(k), s)
  {
    if n <= 0 then Rest
    else NextPhase(s, LinePhase(l0, s, ins, n - 1), Accepts(SerialRun(l0, s, ins, n - 1).tx, ins(n - 1)), ins(n - 1).data)
  }

  /** Both ends idle: the receiver has settled on a high line. */
  predicate Settled(x: Rx, s: Setup)
    requires Plain(s)
  {
    RxAt(x, s, Rest) && x.q && x.qq && !x.preWr
  }

  predicate FreshLink(l: Serial, s: Setup)
    requires Plain(s)
  {
    TxAt(l.tx, s, Rest) && Settled(l.rx, s) && l.accepted == [] && l.delivered == []
  }

  /** The input registers hold the last three levels of the line, the receiver is three clocks behind the
      transmitter, and every word is in exactly one place. */
  predicate Aligned(l: Serial, s: Setup, p0: Phase, p1: Phase, p2: Phase, p3: Phase)
    requires Plain(s)
  {
    && TxAt(l.tx, s, p0) && l.rx.q == Level(s, p1) && l.rx.qq == Level(s, p2) && RxAt(l.rx, s, p3)
    && l.accepted ==
       l.delivered + (Undelivered(l.rx, s, p3) + (Starts(s, p3, p2) + (Starts(s, p2, p1) + Starts(s, p1, p0))))
  }

  /** Phase n can follow phase p. */
  predicate Follows(s: Setup, p: Phase, n: Phase)
    requires Plain(s)
  {
    exists accept, w: int :: 0 <= w < 256 && n == NextPhase(s, p, accept, w)
  }

  lemma SerialStep(l: Serial, s: Setup, i: TxIn, p0: Phase, p1: Phase, p2: Phase, p3: Phase)
    requires Plain(s) && Quiet(i, s) && Aligned(l, s, p0, p1, p2, p3) && Follows(s, p3, p2)
    ensures var n := NextPhase(s, p0, Accepts(l.tx, i), i.data);
            Aligned(SerialTick(l, i), s, n, p0, p1, p2) && Follows(s, p0, n)
  {
    hide TxNext, TxAt, RxAt, NextPhase, Level, Accepts, Undelivered, Starts, Announced;
    var accept, w: int :| 0 <= w < 256 && p2 == NextPhase(s, p3, accept, w);
    var n := NextPhase(s, p0, Accepts(l.tx, i), i.data);
    var ri := RxIn(i.reset, i.setup, l.tx.line);
    InputRegisters(l.rx, ri);
    RxTick(l.rx, s, p3, ri, accept, w);
    TxTick(l.tx, s, p0, i);
    LineLevel(l.tx, s, p0);
    StartsOnAccept(l.tx, s, p0, i);
    var y := RxNext(l.rx, ri);
    Shuffle(l.delivered, Undelivered(l.rx, s, p3), Starts(s, p3, p2), Starts(s, p2, p1), Starts(s, p1, p0),
            Starts(s, p0, n), Announced(y), Undelivered(y, s, p2));
  }

  lemma Shuffle(d: seq<int>, u: seq<int>, a: seq<int>, b: seq<int>, c: seq<int>, e: seq<int>, o: seq<int>, v: seq<int>)
    requires o + v == u + a
    ensures (d + (u + (a + (b + c)))) + e == (d + o) + (v + (b + (c + e)))
  {
    assert (d + (u + (a + (b + c)))) + e == d + (u + a) + b + c + e;
    assert d + (o + v) + b + c + e == (d + o) + (v + (b + (c + e)));
  }

  lemma InputRegisters(x: Rx, i: RxIn)
    requires !i.reset
    ensures RxNext(x, i).q == i.line && RxNext(x, i).qq == x.q
  {
    hide NextChg, NextState, NextData, NextParity, NextParityErr, NextFrameErr, NextPre, NextWr, NextBaud;
  }

  lemma LineLevel(t: Tx, s: Setup, p: Phase)
    requires Plain(s) && TxAt(t, s, p)
    ensures t.line == Level(s, p)
  {
  }

  lemma StartsOnAccept(t: Tx, s: Setup, p: Phase, i: TxIn)
    requires Plain(s) && TxAt(t, s, p)
    ensures Starts(s, p, NextPhase(s, p, Accepts(t, i), i.data)) == if Accepts(t, i) then [i.data % Pow2(Bits(s))] else []
  {
  }

  lemma {:induction false} SerialInvariant(l0: Serial, s: Setup, ins: nat -> TxIn, n: nat)
    requires Plain(s) && FreshLink(l0, s) && forall k: nat :: Quiet(ins(k), s)
    ensures Aligned(SerialRun(l0, s, ins, n), s, LinePhase(l0, s, ins, n), LinePhase(l0, s, ins, n - 1),
                    LinePhase(l0, s, ins, n - 2), LinePhase(l0, s, ins, n - 3))
    ensures Follows(s, LinePhase(l0, s, ins, n - 1), LinePhase(l0, s, ins, n))
  {
    hide TxAt, RxAt, NextPhase, SerialTick, Aligned, Follows, Quiet;
    if n == 0 {
      FreshIsAligned(l0, s);
    } else {
      SerialInvariant(l0, s, ins, n - 1);
      if n >= 3 { SerialInvariant(l0, s, ins, n - 3); }
      RestFollowsRest(s);
      assert Quiet(ins(n - 1), s);
      if n >= 3 { assert Follows(s, LinePhase(l0, s, ins, n - 4), LinePhase(l0, s, ins, n - 3)); }
      SerialStep(SerialRun(l0, s, ins, n - 1), s, ins(n - 1), LinePhase(l0, s, ins, n - 1),
                 LinePhase(l0, s, ins, n - 2), LinePhase(l0, s, ins, n - 3), LinePhase(l0, s, ins, n - 4));
    }
  }

  lemma RestFollowsRest(s: Setup)
    requires Plain(s)
    ensures Follows(s, Rest, Rest)
  {
    assert Rest == NextPhase(s, Rest, false, 0);
  }

  lemma FreshIsAligned(l: Serial, s: Setup)
    requires Plain(s) && FreshLink(l, s)
    ensures Aligned(l, s, Rest, Rest, Rest, Rest) && Follows(s, Rest, Rest)
  {
    hide TxAt, RxAt;
    RestFollowsRest(s);
  }

  /** The words announced so far are a prefix of the words accepted. */
  predicate IsPrefix(a: seq<int>, b: seq<int>) {
    |a| <= |b| && a == b[..|a|]
  }

  /** At most one word is held by the receiver. */
  lemma HeldAtMostOne(x: Rx, s: Setup, p: Phase)
    requires Plain(s) && RxAt(x, s, p)
    ensures |Undelivered(x, s, p)| <= 1
  {
    hide BitOf, Level, Received, StateAt, OddOnes, Pow2;
  }

  /** A frame lasts longer than the three clocks the receiver is behind: at most one begins in them. */
  lemma StartsAtMostOne(s: Setup, p0: Phase, p1: Phase, p2: Phase, p3: Phase)
    requires Plain(s) && Follows(s, p3, p2) && Follows(s, p2, p1) && Follows(s, p1, p0)
    ensures |Starts(s, p3, p2)| + |Starts(s, p2, p1)| + |Starts(s, p1, p0)| <= 1
  {
    hide Pow2;
  }

  /** For five to eight data bits, any parity, one or two stop bits and at least three clocks a bit, whatever is
      written and whenever: the receiver announces the words accepted, in order and once each, never more than two
      words behind, and never sees a frame error or a break. */
  lemma SerialRoundTrip(l0: Serial, s: Setup, ins: nat -> TxIn, n: nat)
    requires Plain(s) && FreshLink(l0, s) && forall k: nat :: Quiet(ins(k), s)
    ensures var l := SerialRun(l0, s, ins, n);
            && IsPrefix(l.delivered, l.accepted) && |l.accepted| <= |l.delivered| + 2
            && !l.rx.frameErr && !l.rx.brk
  {
    hide SerialRun, Quiet, TxAt, Level, Undelivered, Starts, LinePhase, Follows, NextPhase;
    SerialInvariant(l0, s, ins, n);
    var p0, p1 := LinePhase(l0, s, ins, n), LinePhase(l0, s, ins, n - 1);
    var p2, p3 := LinePhase(l0, s, ins, n - 2), LinePhase(l0, s, ins, n - 3);
    PhasesFollow(l0, s, ins, n);
    PhasesFollow(l0, s, ins, n - 1);
    PhasesFollow(l0, s, ins, n - 2);
    HeldAtMostOne(SerialRun(l0, s, ins, n).rx, s, p3);
    StartsAtMostOne(s, p0, p1, p2, p3);
  }

  lemma PhasesFollow(l0: Serial, s: Setup, ins: nat -> TxIn, n: int)
    requires Plain(s) && FreshLink(l0, s) && forall k: nat :: Quiet(ins(k), s)
    ensures Follows(s, LinePhase(l0, s, ins, n - 1), LinePhase(l0, s, ins, n))
  {
    hide SerialRun, Quiet, Aligned, Follows, NextPhase, FreshLink;
    if n >= 0 { SerialInvariant(l0, s, ins, n); } else { RestFollowsRest(s); }
  }

  /** While the stop bits of a frame come in, where the parity error is read, it is set exactly when parity is in use
      and not fixed: the two sides agree on a fixed parity bit, and disagree on every word with a computed one. */
  lemma ParityErrorExactly(l0: Serial, s: Setup, ins: nat -> TxIn, n: nat)
    requires Plain(s) && FreshLink(l0, s) && forall k: nat :: Quiet(ins(k), s)
    requires var x := SerialRun(l0, s, ins, n).rx; x.state == STOP || x.state == SECOND_STOP
    ensures SerialRun(l0, s, ins, n).rx.parityErr <==> s.useParity && !s.fixedParity
  {
    hide SerialRun, Quiet, TxAt, Level, Undelivered, Starts, StateAt, Received, LinePhase;
    SerialInvariant(l0, s, ins, n);
    var p := LinePhase(l0, s, ins, n - 3);
    var m := if p.Frame? then Elapsed(s, p.j, p.r).0 else -1;
    if 0 <= m < FrameBits(s) - 1 { StateInFrame(s, m); }
  }

  /** Whenever the transmitter is ready for another word, everything accepted so far will have been announced, and
      nothing else, four clocks later, whatever is written meanwhile. */
  lemma SerialDelivers(l0: Serial, s: Setup, ins: nat -> TxIn, n: nat)
    requires Plain(s) && FreshLink(l0, s) && forall k: nat :: Quiet(ins(k), s)
    requires !SerialRun(l0, s, ins, n).tx.busy
    ensures SerialRun(l0, s, ins, n + 4).delivered == SerialRun(l0, s, ins, n).accepted
  {
    hide Quiet, TxAt, RxAt, Level, SerialRun, LinePhase, SerialTick, Undelivered, Starts, Follows;
    SerialInvariant(l0, s, ins, n);
    ReadyIsRest(SerialRun(l0, s, ins, n).tx, s, LinePhase(l0, s, ins, n));
    AcceptedStep(l0, s, ins, n);
    AcceptedStep(l0, s, ins, n + 1);
    AcceptedStep(l0, s, ins, n + 2);
    AcceptedStep(l0, s, ins, n + 3);
    SerialInvariant(l0, s, ins, n + 3);
    SerialInvariant(l0, s, ins, n + 4);
    PhasesFollow(l0, s, ins, n + 1);
    OneTick(l0, s, ins, n + 3);
    IdleClearsPre(SerialRun(l0, s, ins, n + 3), s, ins(n + 3));
    var l := SerialRun(l0, s, ins, n + 4);
    var p0, p1, p2 := LinePhase(l0, s, ins, n + 4), LinePhase(l0, s, ins, n + 3), LinePhase(l0, s, ins, n + 2);
    var p3 := LinePhase(l0, s, ins, n + 1);
    HeldJustBegun(l.rx, s, p3);
    SameSuffix(SerialRun(l0, s, ins, n).accepted, l.delivered, Starts(s, Rest, p3), Starts(s, p3, p2), Starts(s, p2, p1),
               Starts(s, p1, p0));
  }

  lemma AcceptedStep(l0: Serial, s: Setup, ins: nat -> TxIn, n: nat)
    requires Plain(s) && FreshLink(l0, s) && forall k: nat :: Quiet(ins(k), s)
    ensures SerialRun(l0, s, ins, n + 1).accepted
         == SerialRun(l0, s, ins, n).accepted + Starts(s, LinePhase(l0, s, ins, n), LinePhase(l0, s, ins, n + 1))
  {
    hide TxAt, RxAt, Level, TxNext, RxNext, Starts, Undelivered, NextPhase, FreshLink, Accepts;
    SerialInvariant(l0, s, ins, n);
    assert Quiet(ins(n), s);
    StartsOnAccept(SerialRun(l0, s, ins, n).tx, s, LinePhase(l0, s, ins, n), ins(n));
  }

  /** In the clock after a rest the receiver holds a word exactly when one has begun. */
  lemma HeldJustBegun(x: Rx, s: Setup, p: Phase)
    requires Plain(s) && !x.preWr && Follows(s, Rest, p)
    ensures Undelivered(x, s, p) == Starts(s, Rest, p)
  {
    hide Pow2;
  }

  lemma SameSuffix(x: seq<int>, y: seq<int>, a: seq<int>, b: seq<int>, c: seq<int>, e: seq<int>)
    requires x + a + b + c + e == y + (a + (b + (c + e)))
    ensures x == y
  {
    var t := a + (b + (c + e));
    assert x + a + b + c + e == x + t;
    assert |x| == |y|;
    assert x == (x + t)[..|x|] == (y + t)[..|y|] == y;
  }

  lemma OneTick(l0: Serial, s: Setup, ins: nat -> TxIn, n: nat)
    requires Plain(s) && forall k: nat :: Quiet(ins(k), s)
    ensures SerialRun(l0, s, ins, n + 1) == SerialTick(SerialRun(l0, s, ins, n), ins(n))
  {
    hide SerialTick, Quiet;
  }

  lemma ReadyIsRest(t: Tx, s: Setup, p: Phase)
    requires Plain(s) && TxAt(t, s, p) && !t.busy
    ensures p == Rest
  {
  }

  lemma IdleClearsPre(l: Serial, s: Setup, i: TxIn)
    requires Plain(s) && RxAt(l.rx, s, Rest) && Quiet(i, s)
    ensures !SerialTick(l, i).rx.preWr
  {
    hide TxNext, NextChg, NextState, NextData, NextParity, NextParityErr, NextFrameErr, NextWr, NextBaud, Accepts;
  }

  // ------------------------------------------------------------ after a reset

  function RxRun(x: Rx, s: Setup, n: nat): Rx {
    if n == 0 then x else RxNext(RxRun(x, s, n - 1), RxIn(false, s, true))
  }

  /** The receiver k clocks after a reset, the line high throughout. */
  /** No word, no error and no break is shown. */
  predicate Silent(x: Rx) {
    !x.wr && !x.brk && !x.frameErr && !x.parityErr && x.outData == 0
  }

  predicate Settling(x: Rx, s: Setup, k: nat)
    requires Plain(s) && k <= 16 * s.baud + 4
  {
    && x.state == RESET_IDLE && x.q == (k >= 1) && x.qq == (k >= 2) && x.ck == (k >= 3)
    && Silent(x) && !x.preWr && 0 <= x.data < 256 && (k >= 1 ==> x.setup == s)
    && (k >= 2 ==> x.baud == s.baud - 1)
    && x.chg == (if k < 3 then k else if k - 3 <= 16 * s.baud then k - 3 else 16 * s.baud)
    && (k == 0 ==> x.setup == INITIAL_SETUP && x.baud == INITIAL_SETUP.baud - 1)
    && x.synch == (k == 16 * s.baud + 4)
  }

  lemma SettlingTick(x: Rx, s: Setup, k: nat)
    requires Plain(s) && k <= 16 * s.baud + 4 && Settling(x, s, k)
    ensures var y := RxNext(x, RxIn(false, s, true));
            Silent(y) && if k < 16 * s.baud + 4 then Settling(y, s, k + 1) else Settled(y, s)
  {
    hide NextParity, HalfBaud, DropLow;
  }

  lemma {:induction false} SettlingRun(x: Rx, s: Setup, k: nat)
    requires Plain(s) && k <= 16 * s.baud + 4 && Settling(x, s, 0)
    ensures Settling(RxRun(x, s, k), s, k)
  {
    hide RxNext, Settling;
    if k > 0 {
      SettlingRun(x, s, k - 1);
      SettlingTick(RxRun(x, s, k - 1), s, k - 1);
    }
  }

  lemma ResetStartsSettling(x: Rx, i: RxIn, s: Setup)
    requires Plain(s) && i.reset && 0 <= x.data < 256
    ensures Settling(RxNext(x, i), s, 0)
  {
  }

  /** From any register contents, a reset and sixteen bit times of a high line, plus five clocks, leave the receiver
      idle and ready for the first frame; meanwhile it shows no word, error or break. */
  lemma ReceiverSettles(x: Rx, i: RxIn, s: Setup, k: nat)
    requires Plain(s) && i.reset && 0 <= x.data < 256 && k <= 16 * s.baud + 5
    ensures Settled(RxRun(RxNext(x, i), s, 16 * s.baud + 5), s)
    ensures Silent(RxRun(RxNext(x, i), s, k))
  {
    hide RxNext, Settling, Settled, Silent;
    ResetStartsSettling(x, i, s);
    SettlingRun(RxNext(x, i), s, 16 * s.baud + 4);
    SettlingTick(RxRun(RxNext(x, i), s, 16 * s.baud + 4), s, 16 * s.baud + 4);
    if k > 0 {
      SettlingRun(RxNext(x, i), s, k - 1);
      SettlingTick(RxRun(RxNext(x, i), s, k - 1), s, k - 1);
    } else {
      SettlingIsSilent(RxNext(x, i), s);
    }
  }

  lemma SettlingIsSilent(x: Rx, s: Setup)
    requires Plain(s) && Settling(x, s, 0)
    ensures Silent(x)
  {
  }

  // ------------------------------------------------------------ a line held low

  function LowRun(x: Rx, s: Setup, k: nat): Rx {
    if k == 0 then x else RxNext(LowRun(x, s, k - 1), RxIn(false, s, false))
  }

  /** The clock in which the receiver takes the low line for a start bit. */
  function LowStart(s: Setup): nat {
    s.baud / 2 + 4
  }

  /** The clock after the first stop bit has been sampled. */
  function LowStop(s: Setup): nat
    requires Plain(s)
  {
    LowStart(s) + SampledBits(s) * s.baud
  }

  /** Data, parity and first stop bit. */
  function SampledBits(s: Setup): nat
    requires Plain(s)
  {
    Bits(s) + ParityBits(s) + 1
  }

  /** The clock in which the line has been low for sixteen bit times. */
  function LowBreak(s: Setup): nat {
    16 * s.baud + 4
  }

  /** The bit, and the clock in it, e clocks after the start bit was recognised. */
  function BitNumber(e: nat, b: nat): (m: nat)
    requires b > 0
  {
    e / b
  }

  function BitClock(e: nat, b: nat): (o: nat)
    requires b > 0
  {
    e % b
  }

  /** State and baud counter e clocks after the start bit was recognised. */
  predicate InLowBits(x: Rx, s: Setup, e: nat)
    requires Plain(s)
  {
    LowBitAt(x, s, BitNumber(e, s.baud), BitClock(e, s.baud))
  }

  predicate LowBitAt(x: Rx, s: Setup, m: nat, o: nat)
    requires Plain(s)
  {
    m <= Bits(s) + ParityBits(s) && x.state == StateAt(s, m) && x.baud == s.baud - 1 - o && x.zero == (o == s.baud - 1)
  }

  /** The receiver k clocks after a settled line has gone low. */
  predicate LowAt(x: Rx, s: Setup, k: nat)
    requires Plain(s)
  {
    && x.q == (k < 1) && x.qq == (k < 2) && x.ck == (k < 3) && x.setup == s
    && (k >= 3 ==> x.chg == Min(k - 3, 16 * s.baud))
    && x.brk == (k >= LowBreak(s)) && (k >= 4 ==> !x.synch) && x.half == (k >= LowStart(s) - 1)
    && x.frameErr == (k == LowStop(s)) && (k > 0 ==> !x.wr) && x.preWr == (k >= LowStop(s))
    && if k < LowStart(s) then x.state == IDLE && !x.zero && x.baud == s.baud - 1
       else if k < LowStop(s) then InLowBits(x, s, k - LowStart(s))
       else x.state == RESET_IDLE && !x.zero && x.baud == s.baud - 1
  }

  /** Registers other than state and outputs. */
  lemma LowWire(x: Rx, s: Setup, k: nat)
    requires Plain(s) && LowAt(x, s, k)
    ensures var y, n := RxNext(x, RxIn(false, s, false)), k + 1;
            && y.q == (n < 1) && y.qq == (n < 2) && y.ck == (n < 3) && y.setup == s
            && (n >= 3 ==> y.chg == Min(n - 3, 16 * s.baud))
            && y.brk == (n >= LowBreak(s)) && (n >= 4 ==> !y.synch) && y.half == (n >= LowStart(s) - 1)
  {
    hide NextState, NextData, NextParity, NextParityErr, NextFrameErr, NextPre, NextWr, NextBaud, StateAt, LowStop;
  }

  lemma LowOrder(s: Setup)
    requires Plain(s)
    ensures LowStart(s) + s.baud <= LowStop(s) < LowBreak(s)
  {
    MulLe(1, Bits(s) + ParityBits(s) + 1, s.baud);
    MulLe(Bits(s) + ParityBits(s) + 1, 10, s.baud);
  }

  /** One clock further into the bits. */
  lemma LowOffsets(e: nat, b: nat, c: nat, end: int)
    requires b > 0 && e < end && end == c * b
    ensures var m, o := BitNumber(e, b), BitClock(e, b);
            && m < c && 0 <= o < b
            && if o < b - 1 then BitNumber(e + 1, b) == m && BitClock(e + 1, b) == o + 1 && e + 1 < end
               else if m < c - 1 then BitNumber(e + 1, b) == m + 1 && BitClock(e + 1, b) == 0 && e + 1 < end
               else e + 1 == end
  {
    var m, o := e / b, e % b;
    DivModBasic(e, b);
    NextDivMod(e, b);
    if m >= c { MulLe(c, m, b); }
    Distribute(m, 1, b);
    if m + 1 <= c { MulLe(m + 1, c, b); }
    if m + 1 <= c - 1 {
      MulLe(m + 1, c - 1, b);
      Distribute(c, 1, b);
    }
  }

  lemma LowIdle(x: Rx, s: Setup, k: nat)
    requires Plain(s) && LowAt(x, s, k) && k < LowStart(s)
    ensures var y := RxNext(x, RxIn(false, s, false));
            && y.state == (if k + 1 < LowStart(s) then IDLE else s.dataBits) && !y.zero && y.baud == s.baud - 1
            && !y.frameErr && !y.wr && !y.preWr
  {
    hide NextChg, NextData, NextParity, NextParityErr, DropLow, LowStop, LowBreak;
    LowOrder(s);
  }

  lemma StopFails(x: Rx, i: RxIn)
    requires !i.reset && !x.brk && x.zero && x.state == STOP && !x.ck && !x.preWr && 3 <= x.setup.baud < COUNTER24 && x.baud == 0
    ensures var y := RxNext(x, i);
            y.state == RESET_IDLE && y.frameErr && y.preWr && !y.wr && y.baud == x.setup.baud - 1 && !y.zero
  {
    hide NextChg, NextData, NextParity, NextParityErr, HalfBaud, BreakCondition, DropLow;
  }

  lemma LowReset(x: Rx, s: Setup, i: RxIn)
    requires Plain(s) && i == RxIn(false, s, false) && x.state == RESET_IDLE && !x.synch && !x.zero && x.preWr && x.baud == s.baud - 1
    requires x.setup == s
    ensures var y := RxNext(x, i);
            y.state == RESET_IDLE && !y.frameErr && y.preWr && !y.wr && y.baud == s.baud - 1 && !y.zero
  {
    hide NextChg, NextData, NextParity, NextParityErr, HalfBaud, BreakCondition, DropLow;
  }

  /** Inside a frame that has gone well so far, with the line low. */
  predicate StillFine(x: Rx, s: Setup) {
    x.setup == s && !x.ck && !x.brk && !x.frameErr && !x.preWr
  }

  lemma LowHold(x: Rx, s: Setup, m: nat, o: nat)
    requires Plain(s) && LowBitAt(x, s, m, o) && StillFine(x, s) && o + 1 < s.baud
    ensures var y := RxNext(x, RxIn(false, s, false));
            LowBitAt(y, s, m, o + 1) && !y.frameErr && !y.wr && !y.preWr
  {
    hide RxNext, StateAt;
    StateInFrame(s, m);
    HoldRegisters(x, RxIn(false, s, false));
  }

  lemma LowSample(x: Rx, s: Setup, m: nat)
    requires Plain(s) && LowBitAt(x, s, m, s.baud - 1) && StillFine(x, s) && m < Bits(s) + ParityBits(s)
    ensures var y := RxNext(x, RxIn(false, s, false));
            LowBitAt(y, s, m + 1, 0) && !y.frameErr && !y.wr && !y.preWr
  {
    hide RxNext, StateAt, DropLow;
    StateInFrame(s, m);
    StateAdvances(s, m);
    SampleRegisters(x, RxIn(false, s, false));
  }

  /** Inside the bits of what looks like a frame of zeros. */
  lemma LowBits(x: Rx, s: Setup, k: nat)
    requires Plain(s) && LowAt(x, s, k) && LowStart(s) <= k < LowStop(s)
    ensures var y, n := RxNext(x, RxIn(false, s, false)), k + 1;
            && y.frameErr == (n == LowStop(s)) && !y.wr && y.preWr == (n >= LowStop(s))
            && if n < LowStop(s) then InLowBits(y, s, n - LowStart(s))
               else y.state == RESET_IDLE && !y.zero && y.baud == s.baud - 1
  {
    NotBroken(s, k);
    LowPlaces(s, k);
    var m: nat, o: nat := BitNumber(k - LowStart(s), s.baud), BitClock(k - LowStart(s), s.baud);
    assert LowBitAt(x, s, m, o) && StillFine(x, s);
    hide RxNext, LowBreak, LowAt, LowBitAt, LowStart, LowStop, Bits, ParityBits, BitNumber, BitClock;
    if o < s.baud - 1 {
      LowHold(x, s, m, o);
    } else if m < Bits(s) + ParityBits(s) {
      LowSample(x, s, m);
    } else {
      LowLast(x, s, m);
      StopFails(x, RxIn(false, s, false));
    }
  }

  /** What follows a place in a bit. */
  lemma LowPlaces(s: Setup, k: nat)
    requires Plain(s) && LowStart(s) <= k < LowStop(s)
    ensures var e, last := k - LowStart(s), Bits(s) + ParityBits(s); var m, o := BitNumber(e, s.baud), BitClock(e, s.baud);
            && 0 <= m <= last && 0 <= o < s.baud
            && (o < s.baud - 1 ==> BitNumber(e + 1, s.baud) == m && BitClock(e + 1, s.baud) == o + 1 && k + 1 < LowStop(s))
            && (o == s.baud - 1 && m < last ==> BitNumber(e + 1, s.baud) == m + 1 && BitClock(e + 1, s.baud) == 0 && k + 1 < LowStop(s))
            && (o == s.baud - 1 && m == last ==> k + 1 == LowStop(s))
  {
    var c, end := SampledBits(s), LowStop(s) - LowStart(s);
    assert c == Bits(s) + ParityBits(s) + 1;
    hide Bits, ParityBits, SampledBits;
    assert end == c * s.baud;
    hide *;
    LowOffsets(k - LowStart(s), s.baud, c, end);
  }

  lemma LowLast(x: Rx, s: Setup, m: nat)
    requires Plain(s) && LowBitAt(x, s, m, s.baud - 1) && m == Bits(s) + ParityBits(s)
    ensures x.state == STOP && x.baud == 0 && x.zero
  {
    StateInFrame(s, m);
  }

  lemma NotBroken(s: Setup, k: nat)
    requires Plain(s) && k < LowStop(s)
    ensures k < LowBreak(s)
  {
    hide LowStop, LowBreak;
    LowOrder(s);
  }

  lemma LowTick(x: Rx, s: Setup, k: nat)
    requires Plain(s) && LowAt(x, s, k)
    ensures LowAt(RxNext(x, RxIn(false, s, false)), s, k + 1)
  {
    hide RxNext, StateAt, LowBreak, LowStop;
    LowWire(x, s, k);
    LowOrder(s);
    if k < LowStart(s) {
      LowIdle(x, s, k);
      FirstOffset(s);
    } else if k < LowStop(s) {
      LowBits(x, s, k);
    } else {
      LowReset(x, s, RxIn(false, s, false));
    }
  }

  lemma FirstOffset(s: Setup)
    requires Plain(s)
    ensures BitNumber(0, s.baud) == 0 && BitClock(0, s.baud) == 0 && StateAt(s, 0) == s.dataBits
  {
    DivModUnique(0, s.baud, 0, 0);
  }

  lemma {:induction false} LowRunAt(x: Rx, s: Setup, k: nat)
    requires Plain(s) && Settled(x, s)
    ensures LowAt(LowRun(x, s, k), s, k)
  {
    hide RxNext, LowAt, Settled;
    if k == 0 {
      LowBegins(x, s);
    } else {
      LowRunAt(x, s, k - 1);
      LowTick(LowRun(x, s, k - 1), s, k - 1);
    }
  }

  lemma LowBegins(x: Rx, s: Setup)
    requires Plain(s) && Settled(x, s)
    ensures LowAt(x, s, 0)
  {
    hide LowStop;
    LowOrder(s);
  }

  /** When a settled line goes low and stays low: the frame error is raised for exactly one clock, when the stop bit of
      what looks like a frame of zeros has been sampled; the break from sixteen bit times on; and no word is announced. */
  lemma BreakIsReported(x: Rx, s: Setup, k: nat)
    requires Plain(s) && Settled(x, s) && k > 0
    ensures var y := LowRun(x, s, k);
            && (y.frameErr <==> k == s.baud / 2 + 4 + (Bits(s) + ParityBits(s) + 1) * s.baud)
            && (y.brk <==> k >= 16 * s.baud + 4) && !y.wr
  {
    hide LowRun, Settled;
    LowRunAt(x, s, k);
  }

  // ------------------------------------------------------------ a break from end to end

  /** The receiver m clocks after the transmitter t began to see `ins`, its input the transmitter's line. */
  function Hearing(x: Rx, t: Tx, ins: nat -> TxIn, s: Setup, m: nat): Rx {
    if m == 0 then x
    else RxNext(Hearing(x, t, ins, s, m - 1), RxIn(false, s, TxRun(t, ins, m - 1).line))
  }

  lemma StaysSettled(x: Rx, s: Setup)
    requires Plain(s) && Settled(x, s)
    ensures Settled(RxNext(x, RxIn(false, s, true)), s)
  {
    hide HalfBaud, NextData, NextParityErr, DropLow;
    RxRestTick(x, s, RxIn(false, s, true), false, 0);
  }

  lemma {:induction false} HearsTheBreak(x: Rx, t: Tx, ins: nat -> TxIn, s: Setup, n: nat, m: nat)
    requires Plain(s) && Settled(x, s) && TxAt(t, s, Rest) && t.setup == s && n > 0 && 0 < m <= n + 16 * s.baud + 1
    requires forall k: nat :: !ins(k).reset && ins(k).brk == (k < n) && ins(k).setup == s
    ensures Hearing(x, t, ins, s, m) == LowRun(RxNext(x, RxIn(false, s, true)), s, m - 1)
  {
    hide TxNext, RxNext, Settled;
    if m > 1 {
      HearsTheBreak(x, t, ins, s, n, m - 1);
      BreakHoldsTheLine(t, ins, s, n, m - 1);
    }
  }

  /** A break of n clocks, sent from rest to a settled receiver, is reported if and only if n is at least 4; it is never
      taken for a word. */
  lemma BreakCrossesTheLink(x: Rx, t: Tx, ins: nat -> TxIn, s: Setup, n: nat, m: nat)
    requires Plain(s) && Settled(x, s) && TxAt(t, s, Rest) && t.setup == s && n > 0 && 1 < m <= n + 16 * s.baud + 1
    requires forall k: nat :: !ins(k).reset && ins(k).brk == (k < n) && ins(k).setup == s
    ensures !Hearing(x, t, ins, s, m).wr
    ensures m == n + 16 * s.baud + 1 ==> (Hearing(x, t, ins, s, m).brk <==> n >= 4)
  {
    hide TxNext, RxNext, Settled, Hearing;
    HearsTheBreak(x, t, ins, s, n, m);
    StaysSettled(x, s);
    BreakIsReported(RxNext(x, RxIn(false, s, true)), s, m - 1);
  }
}
