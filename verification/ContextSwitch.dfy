/** Process switching: firmware/OS/kernel.S `switch_context` and firmware/OS/kernel.c `createProcess`.
    Memory is an array of 32-bit words and addresses are word indices. */
module ContextSwitch {
  const FRAME: nat := 38
  const PROCS_MAX: nat := 8

  /** A double-precision register as it is stored: low word first. */
  datatype Double = Double(lo: int, hi: int)

  /** The registers a function call must preserve, the return address and the stack pointer. */
  datatype Cpu = Cpu(ra: int, sp: int, s: seq<int>, fs: seq<Double>)

  predicate Proper(c: Cpu) {
    |c.s| == 12 && |c.fs| == 12
  }

  /** Word k of the frame; word 13 is padding. */
  function FrameWord(c: Cpu, k: nat): int
    requires Proper(c) && k < FRAME && k != 13
  {
    if k == 0 then c.ra
    else if k <= 12 then c.s[k - 1]
    else if k % 2 == 0 then c.fs[(k - 14) / 2].lo
    else c.fs[(k - 14) / 2].hi
  }

  /** Memory once the first n words of the frame have been stored at b. */
  function SaveUpTo(mem: seq<int>, c: Cpu, b: nat, n: nat): (r: seq<int>)
    requires Proper(c) && n <= FRAME && b + FRAME <= |mem|
    ensures |r| == |mem|
  {
    seq(|mem|, m requires 0 <= m < |mem| => if b <= m < b + n && m != b + 13 then FrameWord(c, m - b) else mem[m])
  }

  /** Memory after the callee-saved registers are stored below sp. */
  function SaveFrame(mem: seq<int>, c: Cpu): (r: seq<int>)
    requires Proper(c) && FRAME <= c.sp <= |mem|
    ensures |r| == |mem|
  {
    SaveUpTo(mem, c, c.sp - FRAME, FRAME)
  }

  lemma SaveNext(mem: seq<int>, c: Cpu, b: nat, n: nat)
    requires Proper(c) && n < FRAME && b + FRAME <= |mem|
    ensures n != 13 ==> SaveUpTo(mem, c, b, n + 1) == SaveUpTo(mem, c, b, n)[b + n := FrameWord(c, n)]
    ensures n == 13 ==> SaveUpTo(mem, c, b, n + 1) == SaveUpTo(mem, c, b, n)
    ensures SaveUpTo(mem, c, b, 0) == mem
  {
    hide FrameWord;
  }

  /** The registers loaded from a frame at b. */
  function Restore(mem: seq<int>, b: int): (c: Cpu)
    requires 0 <= b && b + FRAME <= |mem|
    ensures Proper(c)
  {
    Cpu(mem[b], b + FRAME,
        seq(12, i requires 0 <= i < 12 => mem[b + 1 + i]),
        seq(12, i requires 0 <= i < 12 => Double(mem[b + 14 + 2 * i], mem[b + 15 + 2 * i])))
  }

  lemma RestoredSp(mem: seq<int>, b: int)
    requires 0 <= b && b + FRAME <= |mem|
    ensures Restore(mem, b).sp == b + FRAME
  {
  }

  lemma FloatsListed(mem: seq<int>, b: int)
    requires 0 <= b && b + FRAME <= |mem|
    ensures Restore(mem, b).fs
         == [Double(mem[b + 14], mem[b + 15]), Double(mem[b + 16], mem[b + 17]), Double(mem[b + 18], mem[b + 19]),
             Double(mem[b + 20], mem[b + 21]), Double(mem[b + 22], mem[b + 23]), Double(mem[b + 24], mem[b + 25]),
             Double(mem[b + 26], mem[b + 27]), Double(mem[b + 28], mem[b + 29]), Double(mem[b + 30], mem[b + 31]),
             Double(mem[b + 32], mem[b + 33]), Double(mem[b + 34], mem[b + 35]), Double(mem[b + 36], mem[b + 37])]
  {
  }

  predicate FrameFits(mem: seq<int>, b: int) {
    0 <= b && b + FRAME <= |mem|
  }

  /** Memory after `sw sp, (a0)`. */
  function Parked(mem: seq<int>, c: Cpu, a0: nat): (r: seq<int>)
    requires Proper(c) && FRAME <= c.sp <= |mem| && a0 < |mem|
    ensures |r| == |mem|
  {
    SaveFrame(mem, c)[a0 := c.sp - FRAME]
  }

  /** Loading a frame just saved gives back every register. */
  lemma RestoreSaved(mem: seq<int>, c: Cpu)
    requires Proper(c) && FRAME <= c.sp <= |mem|
    ensures Restore(SaveFrame(mem, c), c.sp - FRAME) == c
  {
    var b, m := c.sp - FRAME, SaveFrame(mem, c);
    var r := Restore(m, b);
    assert r.ra == m[b] == FrameWord(c, 0);
    forall i | 0 <= i < 12 ensures r.s[i] == c.s[i] && r.fs[i] == c.fs[i] {
      assert m[b + 1 + i] == FrameWord(c, 1 + i);
      assert m[b + 14 + 2 * i] == FrameWord(c, 14 + 2 * i) && m[b + 15 + 2 * i] == FrameWord(c, 15 + 2 * i);
    }
    assert r.s == c.s && r.fs == c.fs;
  }

  class Machine {
    const mem: array<int>
    var ra: int
    var sp: int
    var s: seq<int>
    var fs: seq<Double>

    constructor (mem: array<int>, c: Cpu)
      ensures this.mem == mem && Registers() == c
    {
      this.mem := mem;
      ra, sp, s, fs := c.ra, c.sp, c.s, c.fs;
    }

    function Registers(): Cpu
      reads this
    {
      Cpu(ra, sp, s, fs)
    }

    method SwitchContext(a0: nat, a1: nat)
      requires Proper(Registers()) && FRAME <= sp <= mem.Length && a0 < mem.Length && a1 < mem.Length
      requires FrameFits(mem[..], Parked(mem[..], Registers(), a0)[a1])
      modifies this, mem
      ensures mem[..] == Parked(old(mem[..]), old(Registers()), a0)
      ensures Registers() == Restore(mem[..], mem[a1])
    {
      hide SaveUpTo, FrameWord, Restore;
      ghost var was, c := mem[..], Registers();
      sp := sp - FRAME;
      SaveNext(was, c, sp, 0);
      SaveIntegers(was, c);
      SaveNext(was, c, sp, 13);
      SaveFloats(was, c);
      mem[a0] := sp;
      sp := mem[a1];
      LoadIntegers();
      LoadFloats();
      RestoredSp(mem[..], sp);
      sp := sp + FRAME;
    }

    /** The first n words of the frame of c have been stored. */
    ghost predicate Saving(was: seq<int>, c: Cpu, n: nat)
      reads this, mem
    {
      && Proper(c) && n <= FRAME && 0 <= sp && sp + FRAME <= |was| && ra == c.ra && s == c.s && fs == c.fs
      && mem[..] == SaveUpTo(was, c, sp, n)
    }

    /** sw: the next word of the frame. */
    method StoreWord(k: nat, v: int, ghost was: seq<int>, ghost c: Cpu)
      requires Saving(was, c, k) && k < FRAME && k != 13 && v == FrameWord(c, k)
      modifies mem
      ensures Saving(was, c, k + 1)
    {
      hide FrameWord;
      SaveNext(was, c, sp, k);
      mem[sp + k] := v;
    }

    /** fsd: the next two words. */
    method StoreDouble(k: nat, d: Double, ghost was: seq<int>, ghost c: Cpu)
      requires Saving(was, c, k) && k + 1 < FRAME && k > 13
      requires d.lo == FrameWord(c, k) && d.hi == FrameWord(c, k + 1)
      modifies mem
      ensures Saving(was, c, k + 2)
    {
      StoreWord(k, d.lo, was, c);
      StoreWord(k + 1, d.hi, was, c);
    }

    method SaveIntegers(ghost was: seq<int>, ghost c: Cpu)
      requires Saving(was, c, 0)
      modifies mem
      ensures Saving(was, c, 13)
    {
      hide SaveUpTo;
      StoreWord(0, ra, was, c);
      StoreWord(1, s[0], was, c);
      StoreWord(2, s[1], was, c);
      StoreWord(3, s[2], was, c);
      StoreWord(4, s[3], was, c);
      StoreWord(5, s[4], was, c);
      StoreWord(6, s[5], was, c);
      StoreWord(7, s[6], was, c);
      StoreWord(8, s[7], was, c);
      StoreWord(9, s[8], was, c);
      StoreWord(10, s[9], was, c);
      StoreWord(11, s[10], was, c);
      StoreWord(12, s[11], was, c);
    }

    method SaveFloats(ghost was: seq<int>, ghost c: Cpu)
      requires Saving(was, c, 14)
      modifies mem
      ensures Saving(was, c, FRAME)
    {
      SaveLowFloats(was, c);
      SaveHighFloats(was, c);
    }

    method SaveLowFloats(ghost was: seq<int>, ghost c: Cpu)
      requires Saving(was, c, 14)
      modifies mem
      ensures Saving(was, c, 26)
    {
      hide SaveUpTo;
      StoreDouble(14, fs[0], was, c);
      StoreDouble(16, fs[1], was, c);
      StoreDouble(18, fs[2], was, c);
      StoreDouble(20, fs[3], was, c);
      StoreDouble(22, fs[4], was, c);
      StoreDouble(24, fs[5], was, c);
    }

    method SaveHighFloats(ghost was: seq<int>, ghost c: Cpu)
      requires Saving(was, c, 26)
      modifies mem
      ensures Saving(was, c, FRAME)
    {
      hide SaveUpTo;
      StoreDouble(26, fs[6], was, c);
      StoreDouble(28, fs[7], was, c);
      StoreDouble(30, fs[8], was, c);
      StoreDouble(32, fs[9], was, c);
      StoreDouble(34, fs[10], was, c);
      StoreDouble(36, fs[11], was, c);
    }

    method LoadIntegers()
      requires 0 <= sp && sp + FRAME <= mem.Length
      modifies this`ra, this`s
      ensures ra == Restore(mem[..], sp).ra && s == Restore(mem[..], sp).s
    {
      ra := mem[sp];
      s := [mem[sp + 1], mem[sp + 2], mem[sp + 3], mem[sp + 4], mem[sp + 5], mem[sp + 6], mem[sp + 7], mem[sp + 8],
            mem[sp + 9], mem[sp + 10], mem[sp + 11], mem[sp + 12]];
    }

    /** fld */
    method LoadDouble(offset: nat) returns (d: Double)
      requires 0 <= sp && sp + offset + 2 <= mem.Length
      ensures d == Double(mem[sp + offset], mem[sp + offset + 1])
    {
      d := Double(mem[sp + offset], mem[sp + offset + 1]);
    }

    method LoadFloats()
      requires 0 <= sp && sp + FRAME <= mem.Length
      modifies this`fs
      ensures fs == Restore(mem[..], sp).fs
    {
      hide Restore;
      FloatsListed(mem[..], sp);
      var f0 := LoadDouble(14);
      var f1 := LoadDouble(16);
      var f2 := LoadDouble(18);
      var f3 := LoadDouble(20);
      var f4 := LoadDouble(22);
      var f5 := LoadDouble(24);
      var f6 := LoadDouble(26);
      var f7 := LoadDouble(28);
      var f8 := LoadDouble(30);
      var f9 := LoadDouble(32);
      var f10 := LoadDouble(34);
      var f11 := LoadDouble(36);
      fs := [f0, f1, f2, f3, f4, f5, f6, f7, f8, f9, f10, f11];
    }

    /** kernel.c: take the first unused entry of the table, lay out its first frame and mark it runnable.
        With no entry left the source panics: the result is PROCS_MAX and nothing changes. */
    method CreateProcess(table: nat, pc: int) returns (i: nat)
      requires table + PROCS_MAX * PROC_WORDS <= mem.Length
      modifies mem
      ensures i == FirstUnused(old(mem[..]), table, 0)
      ensures mem[..] == if i < PROCS_MAX then Created(old(mem[..]), table, i, pc) else old(mem[..])
    {
      hide Zeroed, FirstUnused;
      i := FindUnused(table);
      if i == PROCS_MAX { return; }
      var p := LayFrame(StackOf(table, i).hi, pc);
      mem[PidOf(table, i)] := i + 1;
      mem[StateOf(table, i)] := RUNNABLE;
      mem[SlotOf(table, i)] := p;
    }

    /** The scan of the table. */
    method FindUnused(table: nat) returns (i: nat)
      requires table + PROCS_MAX * PROC_WORDS <= mem.Length
      ensures i == FirstUnused(mem[..], table, 0)
    {
      i := 0;
      while i < PROCS_MAX && mem[StateOf(table, i)] != UNUSED
        invariant i <= PROCS_MAX && FirstUnused(mem[..], table, 0) == FirstUnused(mem[..], table, i)
      {
        i := i + 1;
      }
    }

    /** Push thirty-seven zeros and the entry point. */
    method LayFrame(top: nat, pc: int) returns (p: nat)
      requires FRAME <= top <= mem.Length
      modifies mem
      ensures p == top - FRAME && mem[..] == Zeroed(old(mem[..]), top - 37, top)[p := pc]
    {
      p := top;
      for j := 0 to 37
        invariant p == top - j
        invariant mem[..] == Zeroed(old(mem[..]), p, top)
      {
        p := p - 1;
        mem[p] := 0;
      }
      p := p - 1;
      mem[p] := pc;
    }
  }

  // ------------------------------------------------------------ the process table

  const UNUSED: int := 0
  const RUNNABLE: int := 1

  /** pid, state, sp and a stack of 8192 bytes. */
  const PROC_WORDS: nat := 2051

  datatype Region = Region(lo: int, hi: int)

  function PidOf(table: nat, i: nat): nat { table + PROC_WORDS * i }

  function StateOf(table: nat, i: nat): nat { table + PROC_WORDS * i + 1 }

  function SlotOf(table: nat, i: nat): nat { table + PROC_WORDS * i + 2 }

  function StackOf(table: nat, i: nat): Region {
    Region(table + PROC_WORDS * i + 3, table + PROC_WORDS * i + PROC_WORDS)
  }

  function FirstUnused(mem: seq<int>, table: nat, i: nat): (r: nat)
    requires table + PROCS_MAX * PROC_WORDS <= |mem| && i <= PROCS_MAX
    ensures i <= r <= PROCS_MAX
    ensures r < PROCS_MAX ==> mem[StateOf(table, r)] == UNUSED
    ensures forall k :: i <= k < r ==> mem[StateOf(table, k)] != UNUSED
    decreases PROCS_MAX - i
  {
    if i == PROCS_MAX || mem[StateOf(table, i)] == UNUSED then i else FirstUnused(mem, table, i + 1)
  }

  function Zeroed(mem: seq<int>, lo: int, hi: int): (r: seq<int>)
    requires 0 <= lo <= hi <= |mem|
    ensures |r| == |mem|
  {
    mem[..lo] + seq(hi - lo, _ => 0) + mem[hi..]
  }

  /** Memory after createProcess has used entry i. */
  function Created(mem: seq<int>, table: nat, i: nat, pc: int): (r: seq<int>)
    requires table + PROCS_MAX * PROC_WORDS <= |mem| && i < PROCS_MAX
    ensures |r| == |mem|
  {
    var top := StackOf(table, i).hi;
    Zeroed(mem, top - 37, top)[top - FRAME := pc]
      [PidOf(table, i) := i + 1][StateOf(table, i) := RUNNABLE][SlotOf(table, i) := top - FRAME]
  }

  /** The registers of a process that has not run yet. */
  function Newborn(table: nat, i: nat, pc: int): Cpu {
    Cpu(pc, StackOf(table, i).hi, seq(12, _ => 0), seq(12, _ => Double(0, 0)))
  }

  /** A created process has the number of its entry plus one, is runnable, and its saved sp leads to its frame; nothing
      outside its entry changes, and the entry was the first unused one. */
  lemma CreatedHeader(mem: seq<int>, table: nat, pc: int, m: nat)
    requires table + 8 * 2051 <= |mem| && m < |mem| && FirstUnused(mem, table, 0) < 8
    ensures var i := FirstUnused(mem, table, 0); var base := table + 2051 * i; var mem' := Created(mem, table, i, pc);
            && mem[base + 1] == 0 && (forall k: nat | k < i :: mem[table + 2051 * k + 1] != 0)
            && mem'[base] == i + 1 && mem'[base + 1] == 1 && mem'[base + 2] == base + 2051 - 38
            && (m < base || m >= base + 2051 ==> mem'[m] == mem[m])
  {
    var i := FirstUnused(mem, table, 0);
    forall k: nat | k < i ensures mem[table + 2051 * k + 1] != 0 { assert mem[StateOf(table, k)] != UNUSED; }
    hide FirstUnused;
  }

  /** The frame createProcess lays out resumes at pc with zeroed registers and an empty stack. */
  lemma NewbornFrame(mem: seq<int>, table: nat, i: nat, pc: int)
    requires table + PROCS_MAX * PROC_WORDS <= |mem| && i < PROCS_MAX
    ensures Restore(Created(mem, table, i, pc), StackOf(table, i).hi - FRAME) == Newborn(table, i, pc)
  {
    var r, n := Restore(Created(mem, table, i, pc), StackOf(table, i).hi - FRAME), Newborn(table, i, pc);
    assert r.s == n.s && r.fs == n.fs;
  }

  // ------------------------------------------------------------ whole runs

  /** The machine: memory, the registers, and the process running (-1 while the boot thread has not become one). */
  datatype Real = Real(mem: seq<int>, cpu: Cpu, cur: int)

  /** What the kernel pretends: every process has registers and a stack of its own.  `own` belongs to the thread
      running, `ctx` and `stack` to the processes that are waiting. */
  datatype Ideal = Ideal(cur: int, own: Cpu, ctx: map<int, Cpu>, stack: map<int, seq<int>>, bootOwner: int)

  /** Where the table and the boot stack lie. */
  datatype Layout = Layout(table: nat, boot: Region)

  predicate LayoutOk(l: Layout, mem: seq<int>) {
    && l.table + PROCS_MAX * PROC_WORDS <= |mem| && 0 <= l.boot.lo <= l.boot.hi <= |mem|
    && (l.boot.hi <= l.table || l.table + PROCS_MAX * PROC_WORDS <= l.boot.lo)
  }

  /** The process the boot thread has become keeps the boot stack. */
  function HomeOf(l: Layout, s: Ideal, p: int): Region
    requires p >= -1
  {
    if p == s.bootOwner then l.boot else if p >= 0 then StackOf(l.table, p) else l.boot
  }

  /** What may happen between two switches, and the switches themselves. */
  datatype Event = Create(pc: int) | Enter(p: nat) | Work(cpu: Cpu, mem: seq<int>) | SwitchTo(q: nat)

  predicate Headers(l: Layout, mem: seq<int>, mem': seq<int>)
    requires LayoutOk(l, mem) && |mem'| == |mem|
  {
    forall p: nat :: p < PROCS_MAX ==>
      mem'[StateOf(l.table, p)] == mem[StateOf(l.table, p)] && mem'[SlotOf(l.table, p)] == mem[SlotOf(l.table, p)]
  }

  predicate SameRegion(mem: seq<int>, mem': seq<int>, r: Region) {
    0 <= r.lo <= r.hi <= |mem| && |mem'| == |mem| && mem'[r.lo..r.hi] == mem[r.lo..r.hi]
  }

  /** Room for one frame, inside the home stack. */
  predicate Inside(c: Cpu, r: Region) {
    Proper(c) && r.lo + FRAME <= c.sp <= r.hi
  }

  /** The running thread keeps to its own stack and leaves the table and the waiting stacks alone; it switches only to
      processes that exist; the boot thread becomes a process at most once. */
  predicate Legal(l: Layout, r: Real, s: Ideal, e: Event)
    requires LayoutOk(l, r.mem) && s.cur >= -1
  {
    match e
    case Create(pc) => true
    case Enter(p) => s.cur == -1 && p in s.ctx
    case SwitchTo(q) => s.cur >= 0 && q in s.ctx
    case Work(cpu, mem) =>
      && |mem| == |r.mem| && Headers(l, r.mem, mem) && Inside(cpu, HomeOf(l, s, s.cur))
      && forall p :: p in s.ctx && p != s.cur ==> p >= 0 && SameRegion(r.mem, mem, HomeOf(l, s, p))
  }

  /** Process p waits: its frame lies on top of its untouched stack, and the table knows where. */
  predicate Waits(l: Layout, mem: seq<int>, s: Ideal, p: int)
    requires LayoutOk(l, mem) && p in s.ctx && p in s.stack
  {
    && 0 <= p < PROCS_MAX
    && var c, h := s.ctx[p], HomeOf(l, s, p);
    && Inside(c, h) && h.hi <= |mem|
    && mem[SlotOf(l.table, p)] == c.sp - FRAME
    && 0 <= c.sp - FRAME && Restore(mem, c.sp - FRAME) == c
    && mem[c.sp..h.hi] == s.stack[p]
  }

  ghost predicate Inv(l: Layout, r: Real, s: Ideal) {
    && LayoutOk(l, r.mem) && s.cur == r.cur && r.cpu == s.own && s.ctx.Keys == s.stack.Keys
    && s.cur >= -1 && (s.cur == -1 <==> s.bootOwner == -1) && (s.cur >= 0 ==> s.cur in s.ctx)
    && s.bootOwner >= -1 && (s.bootOwner >= 0 ==> s.bootOwner in s.ctx)
    && Inside(r.cpu, HomeOf(l, s, s.cur))
    && (forall p :: p in s.ctx ==> 0 <= p < PROCS_MAX && r.mem[StateOf(l.table, p)] == RUNNABLE)
    && (forall p :: p in s.ctx && p != s.cur ==> Waits(l, r.mem, s, p))
  }

  /** Every word the event touches lies inside memory. */
  predicate Ready(l: Layout, r: Real, e: Event) {
    && LayoutOk(l, r.mem) && Proper(r.cpu) && FRAME <= r.cpu.sp <= |r.mem|
    && (e.SwitchTo? ==> 0 <= r.cur < PROCS_MAX && e.q < PROCS_MAX
                        && FrameFits(r.mem, Parked(r.mem, r.cpu, SlotOf(l.table, r.cur))[SlotOf(l.table, e.q)]))
  }

  function Happens(l: Layout, r: Real, e: Event): Real
    requires Ready(l, r, e)
  {
    match e
    case Create(pc) =>
      var i := FirstUnused(r.mem, l.table, 0);
      if i < PROCS_MAX then r.(mem := Created(r.mem, l.table, i, pc)) else r
    case Enter(p) => r.(cur := p)
    case Work(cpu, mem) => r.(cpu := cpu, mem := mem)
    case SwitchTo(q) =>
      var mem := Parked(r.mem, r.cpu, SlotOf(l.table, r.cur));
      Real(mem, Restore(mem, mem[SlotOf(l.table, q)]), q)
  }

  /** The thread running, as a process that waits. */
  function Suspend(l: Layout, mem: seq<int>, s: Ideal): Ideal
    requires s.cur >= 0 && 0 <= s.own.sp <= HomeOf(l, s, s.cur).hi <= |mem|
  {
    s.(ctx := s.ctx[s.cur := s.own], stack := s.stack[s.cur := mem[s.own.sp..HomeOf(l, s, s.cur).hi]])
  }

  /** The same event on the pretended machine: a switch only changes who runs. */
  ghost function Means(l: Layout, r: Real, s: Ideal, e: Event): Ideal
    requires Inv(l, r, s) && Legal(l, r, s, e)
  {
    match e
    case Create(pc) =>
      var i := FirstUnused(r.mem, l.table, 0);
      if i < PROCS_MAX then s.(ctx := s.ctx[i := Newborn(l.table, i, pc)], stack := s.stack[i := []]) else s
    case Enter(p) => s.(cur := p, bootOwner := p)
    case Work(cpu, mem) => s.(own := cpu)
    case SwitchTo(q) =>
      HomesFit(l, r.mem, s, s.cur);
      var t := Suspend(l, r.mem, s);
      t.(cur := q, own := t.ctx[q])
  }

  lemma HomesFit(l: Layout, mem: seq<int>, s: Ideal, p: int)
    requires LayoutOk(l, mem) && -1 <= p < PROCS_MAX
    ensures 0 <= HomeOf(l, s, p).lo && HomeOf(l, s, p).hi <= |mem|
  {
  }

  /** No two threads share a stack, and no stack meets the table's own words. */
  lemma HomesApart(l: Layout, mem: seq<int>, s: Ideal, p: int, q: int)
    requires LayoutOk(l, mem) && -1 <= p < PROCS_MAX && -1 <= q < PROCS_MAX && p != q
    requires (p == -1 || q == -1) ==> s.bootOwner == -1
    ensures HomeOf(l, s, p).hi <= HomeOf(l, s, q).lo || HomeOf(l, s, q).hi <= HomeOf(l, s, p).lo
  {
  }

  lemma HeadersApart(l: Layout, mem: seq<int>, s: Ideal, p: int, i: nat)
    requires LayoutOk(l, mem) && -1 <= p < PROCS_MAX && i < PROCS_MAX
    ensures PidOf(l.table, i) >= HomeOf(l, s, p).hi || SlotOf(l.table, i) < HomeOf(l, s, p).lo
  {
  }

  /** A waiting process is unaffected by changes elsewhere. */
  lemma StillWaits(l: Layout, mem: seq<int>, mem': seq<int>, s: Ideal, s': Ideal, p: int)
    requires LayoutOk(l, mem) && |mem'| == |mem| && p in s.ctx && p in s.stack && Waits(l, mem, s, p)
    requires p in s'.ctx && p in s'.stack && s'.ctx[p] == s.ctx[p] && s'.stack[p] == s.stack[p]
    requires HomeOf(l, s', p) == HomeOf(l, s, p)
    requires mem'[SlotOf(l.table, p)] == mem[SlotOf(l.table, p)] && SameRegion(mem, mem', HomeOf(l, s, p))
    ensures Waits(l, mem', s', p)
  {
    var c, h := s.ctx[p], HomeOf(l, s, p);
    var b := c.sp - FRAME;
    assert forall m :: h.lo <= m < h.hi ==> mem'[m] == mem[m] by {
      assert forall k :: 0 <= k < h.hi - h.lo ==> mem'[h.lo..h.hi][k] == mem[h.lo..h.hi][k];
      forall m | h.lo <= m < h.hi ensures mem'[m] == mem[m] {
        assert mem'[h.lo..h.hi][m - h.lo] == mem[h.lo..h.hi][m - h.lo];
      }
    }
    assert Restore(mem', b).s == Restore(mem, b).s && Restore(mem', b).fs == Restore(mem, b).fs;
    assert mem'[c.sp..h.hi] == mem[c.sp..h.hi];
  }

  /** Parking changes only the frame below sp and one slot of the table. */
  lemma ParkedAt(mem: seq<int>, c: Cpu, a0: nat, m: nat)
    requires Proper(c) && FRAME <= c.sp <= |mem| && a0 < |mem| && m < |mem|
    ensures m != a0 && !(c.sp - FRAME <= m < c.sp) ==> Parked(mem, c, a0)[m] == mem[m]
    ensures Parked(mem, c, a0)[a0] == c.sp - FRAME
  {
  }

  /** The thread just parked waits with the registers it had. */
  lemma ParkedWaits(l: Layout, r: Real, s: Ideal)
    requires Inv(l, r, s) && s.cur >= 0
    ensures Ready(l, r, Work(r.cpu, r.mem)) && r.cur < PROCS_MAX && HomeOf(l, s, s.cur).hi <= |r.mem|
    ensures Waits(l, Parked(r.mem, r.cpu, SlotOf(l.table, r.cur)), Suspend(l, r.mem, s), s.cur)
  {
    hide FrameWord, Restore, SaveUpTo;
    var c, h, a0 := r.cpu, HomeOf(l, s, s.cur), SlotOf(l.table, s.cur);
    HomesFit(l, r.mem, s, s.cur);
    HeadersApart(l, r.mem, s, s.cur, s.cur);
    var saved, mem := SaveFrame(r.mem, c), Parked(r.mem, c, a0);
    RestoreSaved(r.mem, c);
    RestoreSame(saved, mem, c.sp - FRAME);
    ParkedAt(r.mem, c, a0, a0);
    forall m | c.sp <= m < h.hi ensures mem[m] == r.mem[m] { ParkedAt(r.mem, c, a0, m); }
    assert mem[c.sp..h.hi] == r.mem[c.sp..h.hi];
  }

  lemma RestoreSame(mem: seq<int>, mem': seq<int>, b: int)
    requires |mem'| == |mem| && 0 <= b && b + FRAME <= |mem|
    requires forall m :: b <= m < b + FRAME ==> mem'[m] == mem[m]
    ensures Restore(mem', b) == Restore(mem, b)
  {
    assert Restore(mem', b).s == Restore(mem, b).s && Restore(mem', b).fs == Restore(mem, b).fs;
  }

  lemma RegionFrom(mem: seq<int>, mem': seq<int>, r: Region)
    requires 0 <= r.lo <= r.hi <= |mem| == |mem'| && forall m :: r.lo <= m < r.hi ==> mem'[m] == mem[m]
    ensures SameRegion(mem, mem', r)
  {
  }

  /** The other waiting processes do not notice. */
  lemma OthersStillWait(l: Layout, r: Real, s: Ideal, p: int)
    requires Inv(l, r, s) && s.cur >= 0 && p in s.ctx && p != s.cur
    ensures Ready(l, r, Work(r.cpu, r.mem)) && r.cur < PROCS_MAX && HomeOf(l, s, s.cur).hi <= |r.mem|
    ensures Waits(l, Parked(r.mem, r.cpu, SlotOf(l.table, r.cur)), Suspend(l, r.mem, s), p)
  {
    hide Parked, Restore, Waits, SameRegion;
    var c, a0 := r.cpu, SlotOf(l.table, s.cur);
    var mem := Parked(r.mem, c, a0);
    HomesFit(l, r.mem, s, s.cur);
    HomesFit(l, r.mem, s, p);
    HomesApart(l, r.mem, s, s.cur, p);
    HeadersApart(l, r.mem, s, p, s.cur);
    HeadersApart(l, r.mem, s, s.cur, p);
    var h := HomeOf(l, s, p);
    forall m | h.lo <= m < h.hi ensures mem[m] == r.mem[m] { ParkedAt(r.mem, c, a0, m); }
    RegionFrom(r.mem, mem, h);
    ParkedAt(r.mem, c, a0, SlotOf(l.table, p));
    StillWaits(l, r.mem, mem, s, Suspend(l, r.mem, s), p);
  }

  /** A switch: what the machine loads is what the pretended machine kept for the process. */
  lemma SwitchStep(l: Layout, r: Real, s: Ideal, q: nat)
    requires Inv(l, r, s) && Legal(l, r, s, SwitchTo(q))
    ensures Ready(l, r, SwitchTo(q)) && Inv(l, Happens(l, r, SwitchTo(q)), Means(l, r, s, SwitchTo(q)))
  {
    hide Parked, Restore, Waits;
    var a0 := SlotOf(l.table, s.cur);
    ParkedWaits(l, r, s);
    var mem, t := Parked(r.mem, r.cpu, a0), Suspend(l, r.mem, s);
    forall p | p in t.ctx ensures Waits(l, mem, t, p) && mem[StateOf(l.table, p)] == RUNNABLE {
      if p != s.cur { OthersStillWait(l, r, s, p); }
      HeadersApart(l, r.mem, s, s.cur, p);
      ParkedAt(r.mem, r.cpu, a0, StateOf(l.table, p));
    }
    LoadsRight(l, mem, t, q);
    forall p | p in t.ctx && p != q ensures Waits(l, mem, t.(cur := q, own := t.ctx[q]), p) {
      WaitsAnyCurrent(l, mem, t, q, p);
    }
  }

  lemma LoadsRight(l: Layout, mem: seq<int>, t: Ideal, q: nat)
    requires LayoutOk(l, mem) && q in t.ctx && q in t.stack && Waits(l, mem, t, q)
    ensures q < PROCS_MAX && FrameFits(mem, mem[SlotOf(l.table, q)])
    ensures Restore(mem, mem[SlotOf(l.table, q)]) == t.ctx[q] && Inside(t.ctx[q], HomeOf(l, t, q))
  {
    hide Restore;
  }

  lemma WaitsAnyCurrent(l: Layout, mem: seq<int>, t: Ideal, q: nat, p: int)
    requires LayoutOk(l, mem) && p in t.ctx && p in t.stack && q in t.ctx && Waits(l, mem, t, p)
    ensures Waits(l, mem, t.(cur := q, own := t.ctx[q]), p)
  {
  }

  lemma WorkStep(l: Layout, r: Real, s: Ideal, e: Event)
    requires Inv(l, r, s) && Legal(l, r, s, e) && e.Work?
    ensures Ready(l, r, e) && Inv(l, Happens(l, r, e), Means(l, r, s, e))
  {
    hide Restore, SameRegion;
    HomesFit(l, r.mem, s, s.cur);
    forall p | p in s.ctx && p != s.cur ensures Waits(l, e.mem, s.(own := e.cpu), p) {
      StillWaits(l, r.mem, e.mem, s, s.(own := e.cpu), p);
    }
  }

  lemma EnterStep(l: Layout, r: Real, s: Ideal, p: nat)
    requires Inv(l, r, s) && Legal(l, r, s, Enter(p))
    ensures Ready(l, r, Enter(p)) && Inv(l, Happens(l, r, Enter(p)), Means(l, r, s, Enter(p)))
  {
    hide Restore;
    var t := s.(cur := p, bootOwner := p);
    HomesFit(l, r.mem, s, -1);
    forall q | q in s.ctx && q != p ensures Waits(l, r.mem, t, q) { assert Waits(l, r.mem, s, q); }
  }

  lemma CreatedAt(mem: seq<int>, table: nat, i: nat, pc: int, m: nat)
    requires table + PROCS_MAX * PROC_WORDS <= |mem| && i < PROCS_MAX && m < |mem|
    ensures !(PidOf(table, i) <= m < StackOf(table, i).hi) ==> Created(mem, table, i, pc)[m] == mem[m]
    ensures Created(mem, table, i, pc)[StateOf(table, i)] == RUNNABLE
    ensures Created(mem, table, i, pc)[SlotOf(table, i)] == StackOf(table, i).hi - FRAME
  {
  }

  lemma CreateStep(l: Layout, r: Real, s: Ideal, pc: int)
    requires Inv(l, r, s)
    ensures Ready(l, r, Create(pc)) && Inv(l, Happens(l, r, Create(pc)), Means(l, r, s, Create(pc)))
  {
    hide Restore, Created, Waits, SameRegion, FirstUnused;
    HomesFit(l, r.mem, s, s.cur);
    var i := FirstUnused(r.mem, l.table, 0);
    if i < PROCS_MAX {
      assert i !in s.ctx;
      var mem, t := Created(r.mem, l.table, i, pc), Means(l, r, s, Create(pc));
      CreatedAt(r.mem, l.table, i, pc, 0);
      forall p | p in s.ctx ensures mem[StateOf(l.table, p)] == RUNNABLE && (p != s.cur ==> Waits(l, mem, t, p)) {
        NewcomerApart(l, r.mem, s, i, pc, p);
        if p != s.cur { StillWaits(l, r.mem, mem, s, t, p); }
      }
      NewcomerWaits(l, r.mem, t, i, pc);
    }
  }

  lemma NewcomerWaits(l: Layout, mem: seq<int>, t: Ideal, i: nat, pc: int)
    requires LayoutOk(l, mem) && i < PROCS_MAX && i in t.ctx && i in t.stack && t.bootOwner != i
    requires t.ctx[i] == Newborn(l.table, i, pc) && t.stack[i] == []
    ensures Waits(l, Created(mem, l.table, i, pc), t, i)
  {
    hide Restore, Created;
    CreatedAt(mem, l.table, i, pc, 0);
    NewbornFrame(mem, l.table, i, pc);
  }

  /** A new process touches neither the header nor the home of another. */
  lemma NewcomerApart(l: Layout, mem: seq<int>, s: Ideal, i: nat, pc: int, p: int)
    requires LayoutOk(l, mem) && i < PROCS_MAX && 0 <= p < PROCS_MAX && p != i
    ensures var mem' := Created(mem, l.table, i, pc);
            && mem'[StateOf(l.table, p)] == mem[StateOf(l.table, p)] && mem'[SlotOf(l.table, p)] == mem[SlotOf(l.table, p)]
            && SameRegion(mem, mem', HomeOf(l, s, p))
  {
    hide Created;
    CreatedAt(mem, l.table, i, pc, StateOf(l.table, p));
    CreatedAt(mem, l.table, i, pc, SlotOf(l.table, p));
    var h := HomeOf(l, s, p);
    forall m | h.lo <= m < h.hi ensures Created(mem, l.table, i, pc)[m] == mem[m] { CreatedAt(mem, l.table, i, pc, m); }
  }

  /** Every event keeps the real machine and the pretended one in agreement. */
  lemma Step(l: Layout, r: Real, s: Ideal, e: Event)
    requires Inv(l, r, s) && Legal(l, r, s, e)
    ensures Ready(l, r, e) && Inv(l, Happens(l, r, e), Means(l, r, s, e))
  {
    hide Inv, Legal, Happens, Means, Ready;
    match e
    case Create(pc) => CreateStep(l, r, s, pc);
    case Enter(p) => EnterStep(l, r, s, p);
    case Work(_, _) => WorkStep(l, r, s, e);
    case SwitchTo(q) => SwitchStep(l, r, s, q);
  }

  ghost predicate LegalRun(l: Layout, r: Real, s: Ideal, es: seq<Event>)
    requires Inv(l, r, s)
    decreases |es|
  {
    es == [] || (Legal(l, r, s, es[0]) && (Step(l, r, s, es[0]);
      LegalRun(l, Happens(l, r, es[0]), Means(l, r, s, es[0]), es[1..])))
  }

  datatype Both = Both(machine: Real, ideal: Ideal)

  /** Both machines after a run. */
  ghost function Run(l: Layout, r: Real, s: Ideal, es: seq<Event>): Both
    requires Inv(l, r, s) && LegalRun(l, r, s, es)
    decreases |es|
  {
    if es == [] then Both(r, s)
    else
      Step(l, r, s, es[0]);
      Run(l, Happens(l, r, es[0]), Means(l, r, s, es[0]), es[1..])
  }

  /** The boot thread on its own stack, the table all unused. */
  predicate AtBoot(l: Layout, r: Real) {
    LayoutOk(l, r.mem) && r.cur == -1 && Inside(r.cpu, l.boot)
  }

  function BootIdeal(r: Real): Ideal {
    Ideal(-1, r.cpu, map[], map[], -1)
  }

  lemma BootInv(l: Layout, r: Real)
    requires AtBoot(l, r)
    ensures Inv(l, r, BootIdeal(r))
  {
  }

  lemma {:induction false} RunInv(l: Layout, r: Real, s: Ideal, es: seq<Event>)
    requires Inv(l, r, s) && LegalRun(l, r, s, es)
    ensures Inv(l, Run(l, r, s, es).machine, Run(l, r, s, es).ideal)
    decreases |es|
  {
    hide Inv, Happens, Means, Legal;
    if es != [] {
      Step(l, r, s, es[0]);
      RunInv(l, Happens(l, r, es[0]), Means(l, r, s, es[0]), es[1..]);
    }
  }

  /** Over every run of creations, switches and work on disjoint stacks, each process sees exactly the registers it had
      when it last ran (or those it was created with), as if it owned the processor, and every process that waits has
      its stack above the frame untouched. */
  lemma SwitchingIsInvisible(l: Layout, r: Real, es: seq<Event>)
    requires AtBoot(l, r)
    ensures Inv(l, r, BootIdeal(r))
    ensures LegalRun(l, r, BootIdeal(r), es) ==>
              var end := Run(l, r, BootIdeal(r), es); var m, ideal := end.machine, end.ideal;
              m.cpu == ideal.own && m.cur == ideal.cur && LayoutOk(l, m.mem) && ideal.ctx.Keys == ideal.stack.Keys
              && forall p :: p in ideal.ctx && p != ideal.cur ==> Waits(l, m.mem, ideal, p)
  {
    hide LegalRun, Run, Waits, LayoutOk;
    BootInv(l, r);
    if LegalRun(l, r, BootIdeal(r), es) { RunInv(l, r, BootIdeal(r), es); }
  }
}
