# Verification of the Kache RISC-V processor, its serial peripherals and its firmware arithmetic

This project models the state machines and the arithmetic of the repository and proves, for all programs, inputs
and runs, what they are built for.

* **Processors.** `archive/pipeline/Processor.v` is a five-stage RV32IM pipeline with forwarding, interlocks, branch
  history table, return address stack and a 32-step divider; `archive/Seq/Processor.v` is a multi-cycle RV32I machine.
  One clock is one step (`Pipeline.Next`, `Sequential.SeqNext`). Both are tied to one reference (`Datapath.Step`):
  `Refinement` and `Runs` prove that every run of the pipeline follows it, `Agreement` that the sequential machine
  does. The refinement is proved for any decoder, ALU, lane and predictor-hash function (`Datapath.Core`); the units of
  the two designs are then shown right on their own (`Encoding`, `Alu`, `Lanes`, `Divider`). `Isa` states RV32IM as the
  RISC-V Unprivileged ISA (20191213) does, with its own assembler and effects; `IsaProof` proves that the reference, the
  pipeline at every clock of every run, and the sequential machine execute it. `Hardware` holds the processors as
  classes whose registers and arrays are updated in place.
* **Serial protocols.** `TxUart`, `UartSim` and `RxUart` are the transmitter, the bench receiver and the serial
  receiver; `UartSim` and `SerialLink` compose them, and `TxSignals` is about reset, break and flow control.
  `SpiController`, `FlashChip` and `SpiLink` are the flash controllers, the flash and the bench that interleaves their
  half clocks; `FlashReads` is about the flash on its own.
* **Square root.** `SquareRoot` and `SqrtUnit`: the digit-by-digit loop of `archive/FPU/FSQRTf.v`.
* **Pi digits.** `PiArithmetic`, `PiTerms`, `PiDigits` and `PiSeries`: the modular routines of `firmware/archive/pi.c`,
  its counters, and the whole integer algorithm, on top of `NumberTheory`.
* **printf.** `Numerals`, `Printf`, `Directives` and `PrintfLayout`: number formatting, the bounded engine of
  `firmware/OS/libs/printf.c`, the round trip of its directives, and what each of them prints, place by place.
* **Context switch.** `ContextSwitch`: `switch_context` and `createProcess`.

Conventions. Words are integers from 0 to 2^32 - 1 with wrap-around written out; bit operations go through sequences of
bits. A clocked block is a function of the old state, because non-blocking assignments read it, and the class method
for the same block is proved to compute that function. What a component reads from outside (CSR values, I/O data, RAM
beyond its array, wrong-path fetches) is an oracle in the proofs: `World.ext(k)` answers instruction k, `World.noise(t)`
answers a fetch outside the instruction array.

Where code and comments or standard part, the model follows the code:

* `dataHazard` groups as `(!FD_nop && load/CSR use) || (D_isLoad && DE_isStore)`, because `&&` binds tighter than `||`;
  the store-load half also fires for an invalid FD.
* MULHSU treats rs2 as the signed operand; the ISA treats rs1 so. `Alu.MulhsuAgreement` says exactly when the two agree.
* A left shift with inst[30] set shifts ones into a negative operand in the pipeline only (`Alu.LeftShiftCorrect`).
* The pipeline decodes EBREAK from bits 20 and 22 only (`Agreement.EbreakAgreement`).
* `EE_quotientMsk` has neither reset nor initial value: from power-up, reset boots the machine exactly when the mask's
  low bit happens to be clear or the uninitialised DE stage starts a division (`Boot.PowerUpBoots`, `Boot.ResetBoots`).
* Neither decoder looks at rd and rs1 of an EBREAK, so the halted machines may keep writing rd
  (`Runs.HaltedRegistersFixed`, `Agreement.EbreakCanWrite`).
* The pipeline decodes five opcode bits, the sequential machine seven (`Agreement.OpcodeAgreement`); the pipeline takes
  an I/O word as it is, the sequential machine through its byte lanes (`Agreement.IoLoadAgreement`,
  `Agreement.IoStoreAgreement`).
* `txuart.v` and `rxuart.v` read the parity-select bit in opposite senses, although both describe it as even or odd
  parity: with computed parity every word is flagged (`SerialLink.ParityErrorExactly`).
* The transmitter's comments promise some bit times after a break in which nothing is sent, so that the line is seen to
  be idle. The code holds the line low for these sixteen bit times and may start a word one clock later
  (`TxSignals.BreakHoldsTheLine`).
* The prefix of the flag `#` takes the place of the last one or two characters of a number as long as its width or
  precision, meant to be padding zeros. When they are digits the number is wrong: `%#4x` of 0x1234 prints `0x34`
  (`PrintfLayout.PrefixKeepsValue`, `PrintfLayout.PrefixLosesDigits`).
* A number that fills the buffer of thirty-two characters loses its sign (`PrintfLayout.NumberPlaces`).
* `%hhd` prints values from 0 to 255, because plain `char` is unsigned on RISC-V (`PrintfLayout.IntegerValueMeans`).
* The flash on the bench skips eight clocks after the address of a single-output read, too (`FlashReads.FlashAnswers`).
* `is_prime` rejects 2 and accepts every odd number below 2 (`PiArithmetic.AcceptedIsPrime`).
* `pow_mod` with exponent 0 returns 1 even for modulus 1 (`PiArithmetic.PowMod`).
* `kernel_main` runs process A on the boot stack, so the frame `createProcess` laid out for it is never resumed
  (`ContextSwitch.Event`, constructor `Enter`).

## Model

| member | source | states |
|---|---|---|
| Runs.PipelineRefines | archive/pipeline/Processor.v:81-307 | at every clock of every run the registers are the reference's after as many instructions as have retired, memory and I/O log those after as many as have passed the memory stage, and DE, EM and MW hold consecutive correct-path instructions |
| Runs.RunInvariant | archive/pipeline/Processor.v:113-133 | the refinement invariant holds at every clock of every run from a booted state, whatever the predictors hold |
| Runs.OperandsOfEveryRun | archive/pipeline/Processor.v:367-382 | forwarding and the load/CSR bubble deliver the reference's register values to the instruction in execute |
| Runs.LoadsSeeEveryStore | archive/pipeline/Processor.v:84-86 | when a load stands in execute, memory and the I/O log are exactly those after all older instructions: every older store once and no younger one |
| Runs.RetiresTwoClocksLater | archive/pipeline/Processor.v:534-566 | an instruction retires exactly two clocks after it leaves execute |
| Runs.HaltsInTheSameState | archive/pipeline/Processor.v:568 | once an EBREAK reaches execute it stays there; from two clocks later memory and I/O are those of the reference at that EBREAK and the registers those after it has executed it once more for every further clock |
| Runs.HaltedRegistersFixed | archive/pipeline/Processor.v:568 | the halted registers are fixed if and only if rd is x0 or already holds the ALU's result |
| IsaProof.StepIsIsa | archive/pipeline/Processor.v:153-192 | for every RV32IM instruction, operands, memory and outside answer, one step of the reference has exactly the effect chapters 2, 7 and 9 of the RISC-V Unprivileged ISA give it, if and only if it is not a MULHSU on which the multiplier differs |
| IsaProof.PipelineExecutesIsa | archive/pipeline/Processor.v:534-568 | at every clock of every run, the registers, memory and I/O of the pipeline itself before and after an instruction that issues differ by exactly the effect the ISA prescribes, with the same exception |
| IsaProof.SequentialExecutesIsa | archive/Seq/Processor.v:271-307 | so do those of the sequential machine, for the instructions both machines have |
| IsaProof.IoBit | archive/pipeline/Processor.v:628 | an address belongs to I/O exactly when its bit 22 is set |
| IsaProof.HazardExactly | archive/pipeline/Processor.v:81-86 | a hazard holds the front end exactly when an instruction behind a load or CSR read names its destination as an operand, or a load stands behind a store |
| Encoding.FieldsDecoded | archive/pipeline/Processor.v:153-172 | every laid-out word gives back opcode, rd, funct3, rs1, rs2, funct7 and CSR number |
| Encoding.ITypeDecoded | archive/pipeline/Processor.v:175-176 | the decoder reads back every I immediate |
| Encoding.STypeDecoded | archive/pipeline/Processor.v:177-178 | every S immediate |
| Encoding.BTypeDecoded | archive/pipeline/Processor.v:179-180 | every branch offset |
| Encoding.UTypeDecoded | archive/pipeline/Processor.v:181-182 | every upper immediate |
| Encoding.JTypeDecoded | archive/pipeline/Processor.v:183-184 | every jump offset |
| Encoding.EveryWordIsLaidOut | archive/pipeline/Processor.v:166-172 | every full-width word is the layout of its own fields, so the five lemmas above reach every word |
| Encoding.ImmediatesEncodeBack | archive/pipeline/Processor.v:175-184 | for every word, encoding its fields with the immediate the decoder read gives the word back in each of the five formats: no bit of an immediate is dropped or moved |
| Refinement.ResultAgreement | archive/pipeline/Processor.v:522-526 | the value that leaves execute is the one the reference writes to rd, loads and divisions included |
| Refinement.BranchResolution | archive/pipeline/Processor.v:511-520 | a correction goes to the reference's next PC, no correction means fetch is already there, and a correction never meets a hazard or an EBREAK |
| Refinement.IssueControl | archive/pipeline/Processor.v:113-133 | redirect, decode prediction and stalls together leave the front end on the reference's path |
| Refinement.DivideTick | archive/pipeline/Processor.v:449-485 | while the divider holds execute the rest drains and DE keeps its operands valid although the forwarding sources leave |
| Refinement.IssueTick | archive/pipeline/Processor.v:534-566 | a clock in which execute completes is exactly one reference step |
| Timing.CycleAccount | archive/pipeline/Processor.v:84-94 | clocks elapsed = instructions issued + 33 per division + 2 per misprediction + 1 per hazard bubble + 2 at boot, less what the instruction in DE still owes |
| Timing.WaitElapses | archive/pipeline/Processor.v:485 | an instruction leaves execute within the computed wait |
| Timing.KeepsRetiring | archive/pipeline/Processor.v:120-127 | from every reachable state another instruction retires within 38 clocks |
| Predictors.PredictorsFollowThePath | archive/pipeline/Processor.v:218-238 | return stack and branch history are those of the correct-path instructions decoded, or issued, so far |
| Predictors.RasIsTopOfCallStack | archive/pipeline/Processor.v:213-236 | the known entries of the four equal the top of the unbounded call stack of the program |
| Predictors.NestedReturnsArePredicted | archive/pipeline/Processor.v:513-514 | a return to its caller whose entry is known is never corrected |
| Predictors.RasStepKeepsTop | archive/pipeline/Processor.v:224-238 | push and pop keep the known entries equal to the call stack, saturating at four |
| Predictors.CounterLearns | archive/pipeline/Processor.v:499-507 | two equal outcomes make the counter predict that outcome; one different outcome does not unsettle a saturated counter |
| Predictors.TableLearns | archive/pipeline/Processor.v:496-509 | only the entry of the branch that leaves execute changes, by one towards the outcome, between 0 and 3 |
| Predictors.FetchFollowsPrediction | archive/pipeline/Processor.v:218-222 | fetch goes to the target of a JAL and of a branch whose counter is 2 or 3, to the top of the return stack for a JALR, and otherwise on |
| Predictors.PredictionOfEveryRun | archive/pipeline/Processor.v:210-213 | in every run the prediction a branch carries and the entry it will teach are those its counter gave in the clock in which it was decoded |
| Agreement.IndexBits | archive/pipeline/Processor.v:210-211 | bit k of the table index is PC bit k + 2, exclusive-or history bit k - 3 in the upper nine places |
| Predictors.HistTick | archive/pipeline/Processor.v:496-509 | the history register shifts in the true outcome of each branch issued and nothing else |
| WrongPath.WrongPathLeavesNoTrace | archive/pipeline/Processor.v:286-306 | two runs that differ only in what wrong-path fetches return have the same registers, memory, I/O, return stack, history table and history at every clock |
| WrongPath.TwinTick | archive/pipeline/Processor.v:225-238 | one clock keeps two such machines alike |
| Boot.ResetBoots | archive/pipeline/Processor.v:438-471 | thirty-five clocks of reset boot a machine if and only if its divider mask drains, or is even while idle, or a division is about to reload it; the registers are then zero |
| Boot.PowerUpBoots | archive/pipeline/Processor.v:440-471 | with the two initialised divider bits clear: if and only if the low mask bit is clear or DE starts a division |
| Boot.NeverRecovers | archive/pipeline/Processor.v:449-471 | from any other state the divider is never idle again, whatever the inputs |
| Boot.PowerUpWedges | archive/pipeline/Processor.v:441 | a power-up state no reset recovers |
| Divider.QuotientIsIsa | archive/pipeline/Processor.v:438-481 | DIV, DIVU, REM and REMU equal section 7.2 of the RISC-V Unprivileged ISA for all operands, division by zero and overflow included |
| Divider.FinishInvariant | archive/pipeline/Processor.v:461-470 | dividend = quotient * divisor + remainder, scaled, is kept by every shift clock, and 32 - j clocks remain |
| Divider.DivisionLength | archive/pipeline/Processor.v:449-471 | a division is busy for exactly 32 clocks after the one that starts it |
| Alu.ComparisonsAreRight | archive/pipeline/Processor.v:391-397 | one 33-bit subtraction decides signed order, unsigned order and equality |
| Alu.LeftShiftCorrect | archive/pipeline/Processor.v:400-414 | flip, shift right, flip is a left shift if and only if not (inst[30] set, operand negative, amount non-zero) |
| Alu.RightShiftDivides | archive/pipeline/Processor.v:412-413 | the shifter divides by 2^s rounding down, unsigned and signed |
| Alu.AlusAgree | archive/Seq/Processor.v:93-131 | both base ALUs compute the same result if and only if the instruction is not a left shift of a negative operand by a non-zero amount with inst[30] set |
| Alu.AluMeans | archive/pipeline/Processor.v:384-424 | what all eight funct3 cases compute, for every instruction and operands: sums and differences modulo 2^32, products and quotients by powers of two, signed and unsigned order, and the bitwise operations bit by bit |
| Alu.TakenMeans | archive/pipeline/Processor.v:488-494 | the six branch conditions over the signed and unsigned readings; the two unused encodings never branch |
| Alu.BitwiseMeans | archive/pipeline/Processor.v:419-424 | exclusive-or, or and and, bit by bit |
| Alu.LeftShiftMeans | archive/Seq/Processor.v:93-131 | the left shifts of both machines as products modulo 2^32, and the ones the pipeline shifts in |
| Alu.MultiplyIsIsa | archive/pipeline/Processor.v:427-435 | MUL, MULH and MULHU equal section 7.1 of the RISC-V Unprivileged ISA |
| Alu.MulhsuAgreement | archive/pipeline/Processor.v:430-431 | exactly when the pipeline's MULHSU gives the ISA's result |
| Alu.MulhsuDiffers | archive/pipeline/Processor.v:430-431 | a concrete operand pair on which it does not |
| Lanes.StoreMeans | archive/pipeline/Processor.v:600-626 | an aligned store replaces exactly the addressed bytes with the low bytes of the operand |
| Lanes.LoadAfterStore | archive/pipeline/Processor.v:640-655 | a load after an aligned store of the same shape returns the operand, truncated and extended |
| Lanes.LoadMeans | archive/pipeline/Processor.v:640-655 | for every aligned load: funct3 0 and 1 deliver the addressed byte or half-word as a signed number, 4 and 5 as an unsigned one, 2 the word |
| Lanes.StoreDigits | archive/pipeline/Processor.v:600-626 | the bytes of the word after an aligned store, as base-256 digits of operand and old word |
| Words.ReadAfterWrite | archive/pipeline/Processor.v:534-566 | a write changes one register and no other, and x0 reads zero |
| Agreement.InstructionAgrees | archive/Seq/Processor.v:271-307 | one instruction of the sequential machine, three or four clocks, is one reference step |
| Agreement.SequentialFollowsReference | archive/Seq/Processor.v:247-307 | so is every instruction of a run |
| Agreement.ResetsMeet | archive/Seq/Processor.v:271-274 | reset takes the sequential machine to the start of the program the booted pipeline runs |
| Agreement.PipelineAgreesWithSequential | archive/pipeline/Processor.v:534-568 | for every program both understand alike, the pipeline's registers and memory are at every clock those of the sequential machine after as many instructions |
| Agreement.MExtensionIsIsa | archive/pipeline/Processor.v:475-483 | multiplies and divides in the pipeline's own datapath deliver the ISA's result, MULHSU excepted |
| Agreement.EbreakAgreement | archive/pipeline/Processor.v:186 | the two EBREAK decoders differ exactly when inst[20] is set, inst[22] clear and the upper twelve bits are not 1 |
| Agreement.IoStoreAgreement | archive/pipeline/Processor.v:631-633 | exactly when the raw operand the pipeline puts on the I/O bus equals the lane-moved word of the sequential machine |
| Agreement.EbreakDiffers | archive/Seq/Processor.v:59 | an instruction word that halts only the pipeline |
| Agreement.OpcodeAgreement | archive/Seq/Processor.v:31-41 | the two opcode decoders differ exactly on words whose low two bits are not 11 and whose upper five name one of nine classes |
| Agreement.OpcodeDiffers | archive/pipeline/Processor.v:153-163 | a word that is a jump to the pipeline only |
| Agreement.IoLoadAgreement | archive/Seq/Processor.v:194-212 | the two machines read the same from I/O for every answer exactly when the load is neither a byte nor a half-word |
| Agreement.IoLoadDiffers | archive/pipeline/Processor.v:662-664 | the answer that always shows the difference |
| Agreement.MExtensionDiffers | archive/pipeline/Processor.v:191-193 | a multiplication the sequential machine executes as an addition |
| Agreement.SequentialHalts | archive/Seq/Processor.v:291-300 | at an EBREAK the sequential machine is halted from its execution on, with PC, memory and I/O unchanged, and registers too when the EBREAK writes nothing new |
| Agreement.HaltStays | archive/Seq/Processor.v:276-305 | no clock clears the halt flag |
| Agreement.BothHalt | archive/pipeline/Processor.v:568 | EBREAK halts both machines in the same state: from two clocks later, and at every clock, registers, memory and I/O of the pipeline equal those of the halted sequential machine |
| Agreement.EbreakCanWrite | archive/pipeline/Processor.v:279 | an EBREAK encoding that keeps incrementing x1 |
| Hardware.Processor.Clock | archive/pipeline/Processor.v:60-692 | one edge of the in-place registers, register file and data memory is the next-state function |
| Hardware.Processor.FetchEdge | archive/pipeline/Processor.v:113-133 | the fetch block, with prediction before correction before PC and reset last |
| Hardware.Processor.RasEdge | archive/pipeline/Processor.v:224-238 | push and pop of the four registers |
| Hardware.Processor.DecodeEdge | archive/pipeline/Processor.v:241-307 | latching and bubbling of DE |
| Hardware.Processor.DividerEdge | archive/pipeline/Processor.v:449-471 | load and shift of the divider registers |
| Hardware.Processor.BranchEdge | archive/pipeline/Processor.v:496-509 | history and saturating two-bit counter |
| Hardware.Processor.ExecuteEdge | archive/pipeline/Processor.v:534-566 | latching and flushing of EM |
| Hardware.Processor.RegisterFileEdge | archive/pipeline/RegisterFile.v:9-232 | the write port; x0 is never written |
| Hardware.Processor.MemoryEdge | archive/pipeline/Memory.v:29-38 | the synchronous write of one word, merged by the core's store function, which `Lanes.StoreMeans` shows to be the byte mask |
| Hardware.Execute | archive/pipeline/Processor.v:60-692 | clocking a booted processor t times leaves in its arrays what the reference has computed |
| Hardware.SequentialProcessor.Clock | archive/Seq/Processor.v:275-306 | one edge of the four-state machine with its arrays |
| Hardware.SequentialProcessor.Reset | archive/Seq/Processor.v:271-274 | reset sets PC and state and leaves everything else |
| SquareRoot.RootIsFloor | archive/FPU/FSQRTf.v:152-161 | after each step q is the floor root of the radicand bits consumed and ac holds the remainder with the next pair; after 25 steps of the whole radicand |
| SquareRoot.StepKeepsRoot | archive/FPU/FSQRTf.v:152-161 | one step keeps that invariant |
| SquareRoot.StepIsExact | archive/FPU/FSQRTf.v:153-160 | the 28-bit sign test never wraps and no register loses a bit |
| SqrtUnit.SqrtHandsOver | archive/FPU/FSQRTf.v:67-118 | 26 clocks after an operand the rounding input packs the floor root and a remainder that is zero exactly on perfect squares |
| SqrtUnit.SqrtResult | archive/FPU/FSQRTf.v:67-150 | 27 clocks after an operand the unit is idle and its output is the rounded root: the normal fields, the subnormal, the overflow and the zero case, with the value rounded being the floor root and a remainder that is zero exactly on squares |
| SqrtUnit.SqrtSpecial | archive/FPU/FSQRTf.v:70-91 | NaN, zero and infinity come back as they are, other negative operands as the quiet NaN, after two clocks |
| SqrtUnit.SqrtShowsDigits | archive/FPU/FSQRTf.v:105-113 | after n clocks the output is the floor root of the first n - 1 bit pairs of the radicand |
| SqrtUnit.SqrtAbandons | archive/FPU/FSQRTf.v:68-69 | a clock without enable abandons any operation, and the next operand gets its own root |
| SqrtUnit.Unit.Clock | archive/FPU/FSQRTf.v:67-150 | one edge of the unit, with the rounded significand and exponent given |
| SqrtUnit.PackFields | archive/FPU/FSQRTf.v:122-147 | a non-zero result is positive and its fields are the rounded exponent and fraction, subnormal and overflow included |
| TxUart.Transmitter.Clock | src/Extern/txuart.v:168-407 | one edge of all transmitter registers |
| TxUart.Transmitter.StateEdge | src/Extern/txuart.v:182-237 | bit state and busy |
| TxUart.Transmitter.ShiftEdge | src/Extern/txuart.v:254-279 | setup and data registers |
| TxUart.Transmitter.LineEdge | src/Extern/txuart.v:289-350 | line and parity |
| TxUart.Transmitter.BaudEdge | src/Extern/txuart.v:364-398 | baud counter and its zero flag |
| TxFrames.TxTick | src/Extern/txuart.v:182-321 | in every phase of a frame one clock moves registers and line to the next phase, for five to eight bits, no, fixed or computed parity, and one or two stop bits |
| UartSim.Receiver.Call | tb/peripherals/uart.cpp:21-48 | one sample of the bench receiver |
| UartSim.PrintsWhatWasAccepted | tb/peripherals/uart.cpp:21-48 | for 8N1, at least three clocks per baud and any write timing, the bytes printed are those accepted, once each and in order, but for the one on the line, and all of them whenever the transmitter is ready |
| UartSim.Bench | tb/simMain.cpp:236-241 | the bench loop, run on the registers in place, prints what was accepted |
| UartSim.LinkStep | tb/peripherals/uart.cpp:30-45 | one tick of the bench keeps the two counters aligned and loses, repeats or reorders nothing |
| UartSim.FrameLastsTenBits | src/Extern/txuart.v:364-407 | a frame keeps the transmitter busy for exactly ten bit times, then leaves it at rest |
| TxSignals.TransmitterWakesUp | src/Extern/txuart.v:362-398 | five clocks after power-up the transmitter is at rest, whatever the synchroniser holds |
| TxSignals.TransmitterResets | src/Extern/txuart.v:364-370 | from any register contents a reset keeps the line high and the transmitter busy for sixteen bit times of the initial setup, then leaves it at rest |
| TxSignals.BreakHoldsTheLine | src/Extern/txuart.v:371-384 | a break of n clocks keeps the line low and the transmitter busy for n clocks and sixteen bit times; on the next clock the line is high and it is at rest |
| TxSignals.NotReadyNotSent | src/Extern/txuart.v:168-178 | with hardware flow control no word is accepted four clocks after the other side stops being ready, and none from power-up until it is |
| RxUart.SerialReceiver.Clock | src/Extern/rxuart.v:165-478 | one edge of all receiver registers |
| RxUart.SerialReceiver.WireEdge | src/Extern/rxuart.v:165-233 | synchroniser, change counter, break, synch and half-baud flags |
| RxUart.SerialReceiver.StateEdge | src/Extern/rxuart.v:239-334 | setup and bit state |
| RxUart.SerialReceiver.CaptureEdge | src/Extern/rxuart.v:341-412 | data capture, parity and error flags |
| RxUart.SerialReceiver.OutputEdge | src/Extern/rxuart.v:419-450 | pre_wr, o_data and o_wr |
| RxUart.SerialReceiver.BaudEdge | src/Extern/rxuart.v:455-478 | baud counter and its zero flag |
| SerialLink.RxTick | src/Extern/rxuart.v:272-343 | whatever the line does next, one clock keeps the receiver on the frame and moves each word from line to held to announced exactly once |
| SerialLink.SerialStep | src/Extern/rxuart.v:165-178 | the composition stays aligned with the receiver three clocks behind |
| SerialLink.SerialRoundTrip | src/Extern/rxuart.v:419-450 | for five to eight bits, any parity, one or two stop bits and at least three clocks per baud, the words announced are at every clock a prefix of those accepted, at most two words behind, and no frame error or break is ever seen |
| SerialLink.ParityErrorExactly | src/Extern/rxuart.v:369-391 | while stop bits come in, the receiver's parity error is set if and only if parity is in use and not fixed: the two sides compute variable parity in opposite senses |
| SerialLink.SerialDelivers | src/Extern/rxuart.v:419-450 | four clocks after the transmitter is ready for another word, exactly what had been accepted has been announced, whatever is written meanwhile |
| SerialLink.ReceiverSettles | src/Extern/rxuart.v:182-226 | reset and sixteen bit times of a high line, plus five clocks, leave the receiver idle from any register contents, and no word, error or break is shown meanwhile |
| SerialLink.BreakIsReported | src/Extern/rxuart.v:182-204 | when a settled line goes low and stays low: the frame error is raised for exactly the clock after the stop bit was sampled, the break from clock 16 baud + 4 on and not before, and no word is ever announced |
| SerialLink.BreakCrossesTheLink | src/Extern/rxuart.v:198-204 | a break of n clocks sent by the transmitter is reported by the receiver if and only if n is at least 4, and is never taken for a word |
| SpiController.FlashController.Clock | src/Extern/spiFlash.v:64-102 | one edge of the controller, its receive buffer updated in place |
| SpiController.FlashController.ReceiveEdge | src/Extern/spiFlash.v:195-202 | one bit pair shifted into the entry counted down to |
| FlashChip.FlashModel.Operate | tb/peripherals/spiflash.cpp:74-144 | one call of the flash |
| FlashChip.FlashModel.RisingEdge | tb/peripherals/spiflash.cpp:84-116 | command and address bits |
| FlashChip.FlashModel.FallingEdge | tb/peripherals/spiflash.cpp:117-141 | data bits, one or two a clock |
| SpiLink.RequestFolds | src/Extern/spiFlash.v:73-74 | the bits sent, read most significant first, are the dual-read command and the address |
| SpiLink.TestBench.Tick | tb/simMain.cpp:119-126 | one tick of the bench: clock edge, flash call with sck low, its answer onto the data lines, flash call with sck following the clock |
| SpiLink.TransferTick | tb/simMain.cpp:119-126 | every clock of a transfer moves controller, flash and data lines to the next phase together |
| SpiLink.EveryReadIsRight | src/Extern/spiFlash.v:169-207 | for every flash contents, every request stream that respects busy and every request of n bytes: busy for exactly 41 + 4n clocks, then the buffer shows the n bytes from the address, little-endian, and no other entry has changed |
| SpiLink.SpiFlashReadsDoubleWord | src/Extern/spiFlash.v:59-102 | the eight-byte controller delivers the 64-bit word after 73 clocks |
| SpiLink.DataStays | src/Extern/spiFlash.v:59-60 | the data stay on the bus until the next request |
| FlashReads.FlashAnswers | tb/peripherals/spiflash.cpp:74-144 | for every command and whatever is sent: forty clocks of silence, then the bytes from the address sent, most significant bit first, in pairs for 0x3B, never for 0x6B, 0xBB and 0xEB, bit by bit otherwise |
| FlashReads.ResetQuiets | src/Extern/spiFlash.v:64-70 | from any state of both sides one clock of reset makes the bench ready for its first request |
| PiArithmetic.InvMod | firmware/archive/pi.c:38-62 | the result times x is the greatest common divisor of x and y modulo y, and lies in 0..y-1 |
| PiArithmetic.InverseExactly | firmware/archive/pi.c:37-62 | that is the inverse if and only if x and y are coprime |
| PiArithmetic.PowMod | firmware/archive/pi.c:65-81 | congruent to a^b for every a, and for non-negative a equal to a^b mod m if and only if b > 0 or m > 1 |
| PiArithmetic.IsPrime | firmware/archive/pi.c:84-97 | accepts exactly the odd numbers that are prime or at most 1: trial division to the square root is exact |
| PiArithmetic.AcceptedIsPrime | firmware/archive/pi.c:84-97 | the exact arguments on which that answer is primality |
| PiArithmetic.NextPrime | firmware/archive/pi.c:100-107 | terminates on every n with the least accepted number above n |
| PiArithmetic.NextAcceptedIsNextPrime | firmware/archive/pi.c:99-107 | from 2 on that is the least prime above n |
| NumberTheory.PrimeAbove | firmware/archive/pi.c:103-105 | there is a prime above every n, which is why the search ends |
| PiDigits.CountersDetect | firmware/archive/pi.c:135-156 | kq and kq2 reach a exactly when a divides k and 2k-1, and stay in step |
| PiDigits.StripFactor | firmware/archive/pi.c:136-139 | the loop removes all factors a and counts them |
| PiDigits.Contribution | firmware/archive/pi.c:158-163 | the value added for k represents k * k! / (2k-1)!! modulo a^vmax |
| PiDigits.TermUnique | firmware/archive/pi.c:158-163 | there is only one such residue |
| PiDigits.Residue | firmware/archive/pi.c:120-169 | s is the sum modulo a^vmax of the residues of all N terms |
| PiTerms.BalanceBounds | firmware/archive/pi.c:128-150 | v, the balance of factors a, never falls below 0 and never exceeds vmax |
| PiTerms.DenCoprime | firmware/archive/pi.c:155 | the running denominator stays coprime to a, so its inverse exists |
| PiTerms.FactorialSplits | firmware/archive/pi.c:143-155 | k! and (2k-1)!! are the running products times the powers of a taken out |
| PiSeries.ShareOfPrime | firmware/archive/pi.c:171-174 | s / a^vmax agrees with 10^(n-1) times the series up to a fraction whose denominator a does not divide |
| PiSeries.PrimePowersSuffice | firmware/archive/pi.c:118 | a number divisible by every prime power that divides m is divisible by m |
| PiSeries.AllContributed | firmware/archive/pi.c:118-175 | once all odd primes up to 2N have contributed, the sum differs from the series by a whole number |
| PiSeries.Digits | firmware/archive/pi.c:110-177 | the result is nine decimal digits of the fractional part of 10^(n-1) times the sum of k * k! / (2k-1)!! for k up to N |
| Numerals.DigitsMean | firmware/OS/libs/printf.c:286-290 | the digits emitted are the positional representation, without a leading zero |
| Numerals.WordDigitsMean | firmware/OS/libs/printf.c:274-294 | every 32-bit value fits the 32-entry buffer in bases 2, 8, 10 and 16 |
| Numerals.PrintedNumeral | firmware/OS/libs/printf.c:192-216 | turned round, the digits are the full positional numeral of every 32-bit value in each base |
| Numerals.BareText | firmware/OS/libs/printf.c:220-294 | without flags, width and precision a number is its sign and its digits |
| Numerals.PrintParse | firmware/OS/libs/printf.c:181-188 | _atoi reads a plain decimal back, whatever precedes it |
| Numerals.DecimalWidth | firmware/OS/libs/printf.c:192-269 | decimal output with width at most 32 and no precision has length max(width, digits + sign), for all flags |
| Printf.Output.Put | firmware/OS/libs/printf.c:126-131 | a character is stored only below maxlen, and the text grows by it |
| Printf.Output.OutRev | firmware/OS/libs/printf.c:192-216 | padding and reversal |
| Printf.Output.NtoaFormat | firmware/OS/libs/printf.c:220-270 | zeros, prefix and sign within the buffer |
| Printf.Output.Ntoa | firmware/OS/libs/printf.c:274-319 | the characters of one integer |
| Printf.Output.PutDirective | firmware/OS/libs/printf.c:676-842 | the characters of one directive |
| Printf.Output.Vsnprintf | firmware/OS/libs/printf.c:570-850 | the whole format, its termination and its length |
| Printf.ReadDirective | firmware/OS/libs/printf.c:594-673 | the loops over flags, width, precision and length compute the parse |
| Directives.ParseRendered | firmware/OS/libs/printf.c:594-673 | every directive written out, wherever it stands, is read back with exactly its flags, width, precision, length and argument uses, and the parse stops at the specifier |
| Directives.FormatRendered | firmware/OS/libs/printf.c:580-842 | a format of one such directive prints what it means |
| Directives.IntegerRoundTrip | firmware/OS/libs/printf.c:676-748 | %d, %i, %u, %x, %X, %o and %b print the full positional numeral of the argument in its base, after a minus sign if it is negative |
| PrintfLayout.StringPlaces | firmware/OS/libs/printf.c:789-813 | %s, place by place: the text is max(width, n) long with n = min(precision, place of the first zero); the string's first n characters stand at the right end, or with - at the left, and spaces everywhere else |
| PrintfLayout.CharPlaces | firmware/OS/libs/printf.c:769-787 | %c: one character in its field, in the same way |
| PrintfLayout.PlainPlaces | firmware/OS/libs/printf.c:833-841 | %% and unknown specifiers print themselves and take no argument |
| PrintfLayout.NumberPlaces | firmware/OS/libs/printf.c:192-294 | every number with any flags, width and precision: sign, prefix, zeros and digits in a field, each with its exact length |
| PrintfLayout.IntegerPlaces | firmware/OS/libs/printf.c:677-748 | so does every integer directive, for the value of its argument |
| PrintfLayout.IntegerValueMeans | firmware/OS/libs/printf.c:712-745 | that value is the one of the right residue in the range of its length, h, hh, l or ll |
| PrintfLayout.PrefixKeepsValue | firmware/OS/libs/printf.c:235-256 | a number printed with # stands for its value if and only if what the prefix replaces are padding zeros |
| PrintfLayout.PrefixLosesDigits | firmware/OS/libs/printf.c:236-240 | %#4x of 0x1234 prints 0x34 |
| PrintfLayout.PointerPlaces | firmware/OS/libs/printf.c:815-831 | %p: the low 32 bits in base 16 with capitals, in a field of eight filled with zeros |
| PrintfLayout.PointerDigits | firmware/OS/libs/printf.c:815-831 | %p alone prints exactly eight digits that stand for the address |
| Printf.ReadNumber | firmware/OS/libs/printf.c:181-188 | _atoi with 32-bit wrap-around |
| Printf.Snprintf | firmware/OS/libs/printf.c:900-907 | for every format, arguments and count: the first min(length, count-1) characters of the unlimited output, a zero, no other place touched, the unlimited length returned |
| Printf.TerminatedIsPrefix | firmware/OS/libs/printf.c:126-131 | a buffer is the terminated text if and only if, place by place, it holds the text, then a zero, then what it held before |
| Printf.LiteralText | firmware/OS/libs/printf.c:583-587 | text without directives prints itself |
| Printf.UnsignedRoundTrip | firmware/OS/libs/printf.c:732-746 | what %u prints, _atoi reads back |
| ContextSwitch.Machine.SwitchContext | firmware/OS/kernel.S:168-228 | memory holds the 38-word frame and the parked sp, and the registers are those of the other frame |
| ContextSwitch.Machine.CreateProcess | firmware/OS/kernel.c:74-99 | the first unused entry gets pid, state, sp and a frame of zeros under pc; a full table changes nothing |
| ContextSwitch.RestoreSaved | firmware/OS/kernel.S:171-226 | loading a frame gives back ra, sp, s0-s11 and fs0-fs11 |
| ContextSwitch.NewbornFrame | firmware/OS/kernel.c:88-97 | the first resume lands at pc with zeroed registers and an empty stack |
| ContextSwitch.CreatedHeader | firmware/OS/kernel.c:76-98 | the entry taken is the first unused one; its pid is its number plus one, its state runnable, its saved sp that of its frame; nothing outside the entry changes |
| ContextSwitch.SwitchStep | firmware/OS/kernel.S:197-227 | a switch loads what the process left, and every other waiting process keeps its frame and stack |
| ContextSwitch.SwitchingIsInvisible | firmware/OS/kernel.S:168-228 | over every run of creations, work and switches each process sees its own registers again, as if it owned the processor |

## Left out

- CSR values (cycle, instret) and I/O read data: oracles; the two processors are compared under equal answers.
- Agreement.PipelineAgreesWithSequential: covers programs both machines execute alike (`Agreement.Common`); on each excluded form they can differ, and the exact condition is `Agreement.OpcodeAgreement`, `Alu.AlusAgree`, `Agreement.EbreakAgreement`, `Agreement.IoLoadAgreement` or `Agreement.IoStoreAgreement`. The sequential machine has no M extension (`Agreement.MExtensionDiffers`).
- Agreement.InstructionAgrees: the same restriction, for one instruction.
- Agreement.SequentialFollowsReference: the same restriction, for every instruction of a run.
- Runs.PipelineRefines: correct-path program counters stay inside the instruction array, because beyond it the fetched word is not defined by the source.
- DE_instr, EM_rs1Id and other registers no later stage reads; the statistics under `BENCH`.
- IsaProof.StepIsIsa: naturally aligned accesses and full-width instructions; ECALL, FENCE.I and CSR writes are not among the instructions, and a CSR read delivers the oracle's word.
- IsaProof.SequentialExecutesIsa: instructions both machines execute alike (`Agreement.Common`).
- Lanes.LoadMeans: aligned accesses only, as for LoadAfterStore.
- Lanes.LoadAfterStore: aligned accesses only, as the lanes do not handle others.
- Agreement.MExtensionIsIsa: MULHSU excepted, because it differs; see `Alu.MulhsuAgreement`.
- SqrtUnit.SqrtResult: FRound and FClassFlags.vh are not part of this model; rounding is an arbitrary function of root, remainder and exponent, and the class flags are inputs.
- SqrtUnit.Unit.Clock: the rounding and the class flags are parameters here too.
- FSQRTf ready and busy outputs, which follow the counter on the falling edge.
- UartSim.PrintsWhatWasAccepted: eight data bits, no parity, one stop bit, the only format the bench receiver knows.
- Hardware flow control is an arbitrary clear-to-send input; break and reset are covered from any state, but the word they cut off is outside the round trips.
- SpiLink.EveryReadIsRight: requests that stay inside the flash counting the one byte fetched ahead, and none while busy; a request then would mix two transfers.
- File loading and debug printing of the flash model.
- PiSeries.Digits: reals and integers are mathematical, without overflow and rounding; N and the logarithm for vmax are exact, and the convergence of the series to pi + 3 is analysis, not part of this model.
- Printf.Output.PutDirective: the text of floating-point directives is an arbitrary function of the directive and its argument.
- Printf.Output.Vsnprintf: positions and lengths do not wrap at 2^32, and a format ending in `%` stops where the source reads past its terminating zero.
- Output through putchar and function pointers, which drop zero characters; puts.
- ContextSwitch.SwitchingIsInvisible: addresses are word indices, so alignment of the doubles is not captured; stacks are disjoint and a process writes only its own.
- Trap entry, SBI calls, page allocation and the user-mode frame.
- Caches, SOC wiring, I/O devices, floating-point add and multiply, boot loaders and benchmarks: wiring, third-party programs, or parts that need sources not present.
