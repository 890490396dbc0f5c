/** Whole runs: a program on the machine, board and timer included, and the same program on a machine
    that emulates any subset of the opcodes stay in step, apart from words the emulation left dirty. */
module WholeRuns {
  import opened Words
  import opened Isa
  import opened Cpu
  import opened Runs
  import opened Crt0
  import opened StackCode
  import opened Images
  import opened CodeRuns
  import opened Agreement
  import opened Refinement
  import opened Phi
  import opened Machines
  import opened QuietRuns

  // ---- The words an instruction depends on ----

  /** Words read beside the instruction itself and the operands popped. */
  ghost function ReadsThrough(c: State, op: Op): set<int>
    requires Valid(c)
  {
    match op
    case LoadSp(k) => {Wrap(c.sp + 4 * k) / 4}
    case AddSp(k) => {Wrap(c.sp + 4 * k) / 4}
    case Load => if c.sp < RAM_SIZE then {c.mem[c.sp / 4] / 4} else {}
    case LoadB => if c.sp < RAM_SIZE then {c.mem[c.sp / 4] / 4, 0} else {}
    case LoadH => if c.sp < RAM_SIZE then {c.mem[c.sp / 4] / 4, 0} else {}
    case StoreB => if c.sp < RAM_SIZE then {c.mem[c.sp / 4] / 4} else {}
    case StoreH => if c.sp < RAM_SIZE then {c.mem[c.sp / 4] / 4} else {}
    case _ => {}
  }

  ghost function Reads(c: State): set<int>
    requires Valid(c)
  {
    match Fetch(c)
    case Bad(f) => {c.pc / 4}
    case Got(op) =>
      {c.pc / 4} + (if Pops(op, c.decodeMask) >= 1 then {c.sp / 4} else {})
      + (if Pops(op, c.decodeMask) >= 2 then {c.sp / 4 + 1} else {}) + ReadsThrough(c, op)
  }

  /** The machines agree but for the words in dirty. */
  ghost predicate Similar(n: State, t: State, dirty: set<int>) {
    && Valid(n) && Valid(t) && n.pc == t.pc && n.sp == t.sp && n.decodeMask == t.decodeMask
    && forall i :: 0 <= i < RAM_WORDS && i !in dirty ==> t.mem[i] == n.mem[i]
  }

  lemma SameFetch(n: State, t: State, dirty: set<int>)
    requires Similar(n, t, dirty) && n.pc / 4 !in dirty
    ensures Fetch(n) == Fetch(t)
  {
    hide Decode, Byte;
  }

  lemma SameOnNone(n: State, t: State, dirty: set<int>, op: Op)
    requires Similar(n, t, dirty) && n.pc < RAM_SIZE && ReadsThrough(n, op) !! dirty && n.pc / 4 !in dirty
    ensures OnNone(n, op) == OnNone(t, op) && Emulate(n) == Emulate(t)
  {
    hide Byte;
    if op.LoadSp? {
      assert Wrap(n.sp + 4 * op.k) / 4 in ReadsThrough(n, op);
    }
  }

  lemma SameOnTop(n: State, t: State, dirty: set<int>, op: Op)
    requires Similar(n, t, dirty) && n.pc < RAM_SIZE && n.sp < RAM_SIZE && ReadsThrough(n, op) !! dirty
    ensures OnTop(n, op, n.mem[n.sp / 4]) == OnTop(t, op, n.mem[n.sp / 4])
  {
    hide Alu1Value, Byte;
    var a := n.mem[n.sp / 4];
    if op.AddSp? {
      assert Wrap(n.sp + 4 * op.k) / 4 in ReadsThrough(n, op);
    } else if op.Load? || op.LoadB? || op.LoadH? {
      assert a / 4 in ReadsThrough(n, op);
    }
  }

  lemma SameOnTwo(n: State, t: State, dirty: set<int>, op: Op, b: word)
    requires Similar(n, t, dirty) && n.pc < RAM_SIZE && n.sp + 4 < RAM_SIZE && ReadsThrough(n, op) !! dirty
    ensures OnTwo(n, op, n.mem[n.sp / 4], b) == OnTwo(t, op, n.mem[n.sp / 4], b)
  {
    hide Alu2Value, SetByte, SetHalf, Divide, Remainder;
    var a := n.mem[n.sp / 4];
    if op.StoreB? || op.StoreH? {
      assert a / 4 in ReadsThrough(n, op);
    }
  }

  /** An instruction depends on no word outside Reads. */
  lemma SameEffect(feeble: set<Op>, n: State, t: State, dirty: set<int>)
    requires Similar(n, t, dirty) && Reads(n) !! dirty
    ensures Effect(feeble, n) == Effect(feeble, t)
  {
    hide OnNone, OnTop, OnTwo, ReadsThrough, Emulatable, EmulateCode, Pops;
    assert n.pc / 4 in Reads(n);
    SameFetch(n, t, dirty);
    if Fetch(n).Got? {
      InsideRam(n);
      var op := Fetch(n).t;
      assert ReadsThrough(n, op) <= Reads(n);
      SameOnNone(n, t, dirty, op);
      if Pops(op, n.decodeMask) >= 1 && n.sp < RAM_SIZE {
        assert n.sp / 4 in Reads(n);
        SameOnTop(n, t, dirty, op);
      }
      if Pops(op, n.decodeMask) >= 2 && n.sp + 4 < RAM_SIZE {
        assert n.sp / 4 + 1 in Reads(n);
        SameOnTwo(n, t, dirty, op, n.mem[n.sp / 4 + 1]);
      }
      PopsRange(op, n.decodeMask);
    }
  }

  lemma PopsRange(op: Op, mask: bool)
    ensures 0 <= Pops(op, mask) <= 2
  {
  }

  // ---- One instruction of the program ----

  ghost predicate Emulates(feeble: set<Op>, n: State)
    requires Valid(n)
  {
    Fetch(n).Got? && Fetch(n).t in feeble && Emulatable(Fetch(n).t)
  }

  /** Words whose contents may differ after the step: a write makes its word clean, emulation
      dirties its scratch words that are still below sp. */
  ghost function DirtyAfter(feeble: set<Op>, n: State, dirty: set<int>): set<int>
    requires Valid(n) && Effect({}, n).Next?
  {
    var o := Effect({}, n);
    var rest := Cleaned(dirty, o.wr);
    if Emulates(feeble, n) then rest + Scratch(Fetch(n).t, n.sp, o.sp) else rest
  }

  ghost function Cleaned(dirty: set<int>, wr: Write): set<int> {
    if wr.Ram? then dirty - {wr.i} else dirty
  }

  predicate Between(lo: int, i: int, hi: int) {
    lo <= i < hi
  }

  ghost function Scratch(op: Op, sp: int, sp': int): set<int> {
    set i | ScratchLow(op, sp) <= i < sp' / 4 && Between(ScratchLow(op, sp), i, sp' / 4)
  }

  /** Of the device registers only those are read that do not show the time: the interrupt mask and the
      UART.  The timer and sample registers may be written. */
  predicate Steady(wr: Write) {
    !wr.NoWrite? && wr.v.DevicePlus? ==> wr.v.reg == INTERRUPT_MASK || wr.v.reg == UART_DATA
  }

  /** Interrupts are masked, and the timer does not hang the simulator. */
  ghost predicate Plain(n: Machine) {
    Valid(n.core) && !n.hitVector && Masked(n.device) && n.device.timerInterval >= 0
  }

  ghost predicate Retires(n: Machine)
    requires Valid(n.core)
  {
    Turn({}, n).After? && Turn({}, n).m.retired == n.retired + 1
  }

  /** What the program must respect at this instruction. */
  ghost predicate Allowed(feeble: set<Op>, img: Image, n: Machine, dirty: set<int>) {
    && Plain(n) && Retires(n) && Fetch(n.core) != Got(Syscall) && Reads(n.core) !! dirty
    && (var wr := Effect({}, n.core).wr; Steady(wr) && (wr.Ram? ==> wr.i !in img))
    && (Emulates(feeble, n.core) ==> HasRoutine(Fetch(n.core).t) && Permits(feeble, img, n.core, Fetch(n.core).t))
  }

  /** The machines agree but for the words in dirty, and show the same. */
  ghost predicate InStep(n: Machine, t: Machine, dirty: set<int>) {
    Similar(n.core, t.core, dirty) && SameShown(n.device, t.device) && !n.hitVector && !t.hitVector
  }

  /** A turn with interrupts masked is an attempt. */
  lemma PlainTurn(feeble: set<Op>, n: Machine)
    requires Plain(n)
    ensures var d := Checked(n.device, n.core.decodeMask).0;
      Turn(feeble, n) == After(Attempt(feeble, n.(device := d))) && SameShown(n.device, Ticked(d)) && Plain(n.(device := d))
  {
    hide Attempt, Checked;
    UndisturbedCheck(n.device, n.core.decodeMask, 1);
  }

  /** The state after an instruction that retires. */
  ghost predicate Retired(n: Machine, d: Device, o: Outcome, n': Machine)
  {
    o.Next? && Perform(n.core.mem, d, o.wr).Got?
    && (var e := Perform(n.core.mem, d, o.wr).t;
        n' == n.(core := State(o.pc, o.sp, o.decodeMask, e.mem), device := e.device, retired := n.retired + 1))
  }

  lemma TurnRetires(feeble: set<Op>, n: Machine)
    requires Plain(n) && n.core.pc < RAM_SIZE
    ensures var d := Later(n.device, n.core.decodeMask); var o := Effect(feeble, n.core);
      SameShown(n.device, d) && Turn(feeble, n).After?
      && (Turn(feeble, n).m.retired == n.retired + 1 || (o.Next? && Perform(n.core.mem, d, o.wr).Got?)
          ==> Retired(n, d, o, Turn(feeble, n).m))
  {
    hide Effect, Perform, Checked, SameShown, Turn;
    PlainTurn(feeble, n);
  }

  lemma RetiresInside(n: Machine)
    requires Plain(n) && Retires(n)
    ensures n.core.pc < RAM_SIZE && Effect({}, n.core).Next?
  {
    hide Effect, Perform, Checked, Turn;
    PlainTurn({}, n);
    if Effect({}, n.core).Next? {
      NotAtEnd({}, n.core);
    }
  }

  lemma SameResolve(d: Device, e: Device, v: Value)
    requires SameShown(d, e) && (v.DevicePlus? ==> v.reg == INTERRUPT_MASK || v.reg == UART_DATA)
    ensures Resolve(d, v) == Resolve(e, v)
  {
  }

  lemma SameWrite(d: Device, e: Device, a: word, w: word)
    requires SameShown(d, e) && DeviceWrite(d, a, w).Got?
    ensures DeviceWrite(e, a, w).Got? && SameShown(DeviceWrite(d, a, w).t, DeviceWrite(e, a, w).t)
  {
  }

  /** The same write on both machines. */
  lemma SamePerform(n: seq<word>, t: seq<word>, d: Device, e: Device, wr: Write, dirty: set<int>)
    requires |n| == |t| == RAM_WORDS && SameShown(d, e) && Steady(wr) && Perform(n, d, wr).Got?
    requires forall i :: 0 <= i < RAM_WORDS && i !in dirty ==> t[i] == n[i]
    ensures Perform(t, e, wr).Got? && SameShown(Perform(n, d, wr).t.device, Perform(t, e, wr).t.device)
    ensures forall i :: 0 <= i < RAM_WORDS && i !in Cleaned(dirty, wr) ==>
      Perform(t, e, wr).t.mem[i] == Perform(n, d, wr).t.mem[i]
    ensures forall i :: 0 <= i < RAM_WORDS && (wr.Ram? ==> i != wr.i) ==> Perform(t, e, wr).t.mem[i] == t[i]
  {
    hide Resolve, DeviceRead, DeviceWrite, SameShown;
    match wr
    case NoWrite => {}
    case Ram(i, v) => SameResolve(d, e, v);
    case Io(a, v) =>
      SameResolve(d, e, v);
      SameWrite(d, e, a, Resolve(d, v).t);
  }

  lemma NotEmulated(feeble: set<Op>, t: State)
    requires Valid(t) && !Emulates(feeble, t) && Fetch(t) != Got(Syscall)
    ensures Effect(feeble, t) == Effect({}, t)
  {
    hide Fetch, Native, Emulatable;
  }

  /** An instruction that is not emulated, device accesses included. */
  lemma SameTurn(feeble: set<Op>, img: Image, n: Machine, t: Machine, dirty: set<int>)
    requires Ready(img, t.core) && InStep(n, t, dirty) && Allowed(feeble, img, n, dirty) && !Emulates(feeble, n.core)
    requires dirty !! img.Keys
    ensures Turn({}, n).After? && Effect({}, n.core).Next? && Turn(feeble, t).After?
    ensures var t' := Turn(feeble, t).m;
      t'.halting == t.halting && Ready(img, t'.core) && InStep(Turn({}, n).m, t', Cleaned(dirty, Effect({}, n.core).wr))
  {
    hide Reads, Fetch, Effect, Perform, Checked, Permits, Steady, Turn, Later, SameShown, InRam;
    assert Fetch(n.core) == Fetch(t.core) by { FetchRead(n.core, t.core, dirty); }
    SameEffect({}, n.core, t.core, dirty);
    NotEmulated(feeble, t.core);
    RetiresInside(n);
    TurnRetires({}, n);
    MaskedToo(n, t, dirty);
    TurnRetires(feeble, t);
    var o := Effect({}, n.core);
    var d, e := Later(n.device, n.core.decodeMask), Later(t.device, t.core.decodeMask);
    ShownBoth(n.device, t.device, d, e);
    SamePerform(n.core.mem, t.core.mem, d, e, o.wr, dirty);
    StillInRam(img, t.core.mem, Perform(t.core.mem, e, o.wr).t.mem, o.wr);
  }

  lemma StillInRam(img: Image, mem: seq<word>, mem': seq<word>, wr: Write)
    requires InRam(img, mem) && |mem'| == RAM_WORDS && (wr.Ram? ==> wr.i !in img)
    requires forall i :: 0 <= i < RAM_WORDS && (wr.Ram? ==> i != wr.i) ==> mem'[i] == mem[i]
    ensures InRam(img, mem')
  {
  }

  lemma ShownBoth(d: Device, e: Device, d': Device, e': Device)
    requires SameShown(d, e) && SameShown(d, d') && SameShown(e, e')
    ensures SameShown(d', e')
  {
  }

  lemma MaskedToo(n: Machine, t: Machine, dirty: set<int>)
    requires Plain(n) && InStep(n, t, dirty)
    ensures Plain(t)
  {
  }

  lemma SamePermits(feeble: set<Op>, img: Image, n: State, t: State, dirty: set<int>, op: Op)
    requires Similar(n, t, dirty) && Reads(n) !! dirty && Fetch(n) == Got(op) && HasRoutine(op)
    requires Permits(feeble, img, n, op)
    ensures Permits(feeble, img, t, op)
  {
    hide Fetch, ShiftOk, Window, Depth, StillThere;
    RoutinePops(op, n.decodeMask);
    SameStillThere(n, t, dirty, op);
    assert n.sp / 4 in Reads(n) && (Pops(op, false) == 2 ==> n.sp / 4 + 1 in Reads(n)) by {
      hide ReadsThrough, Pops;
    }
  }

  lemma SameStillThere(n: State, t: State, dirty: set<int>, op: Op)
    requires Similar(n, t, dirty)
    ensures StillThere(n, op) == StillThere(t, op)
  {
    hide Decode, Byte;
  }

  lemma RoutinePops(op: Op, mask: bool)
    requires HasRoutine(op)
    ensures 1 <= Pops(op, mask) == Pops(op, false) <= 2 && (op.Binary? ==> Pops(op, false) == 2)
    ensures op == StoreB || op == StoreH ==> Pops(op, false) == 2
  {
  }

  /** An instruction with a routine needs no device. */
  lemma RoutineInRam(c: State, op: Op)
    requires Valid(c) && Fetch(c) == Got(op) && HasRoutine(op) && Effect({}, c).Next?
    ensures var o := Effect({}, c);
      Step({}, c).Ran? && Step({}, c).c.sp == o.sp && (o.wr.Ram? ==> o.wr.v.Word?) && !o.wr.Io?
  {
    hide Alu1Value, Alu2Value, Byte, SetByte, SetHalf, Fetch;
    InsideRam(c);
  }

  /** After its routine sp is no higher than the operands were. */
  lemma SpAfter(c: State, op: Op)
    requires Valid(c) && Fetch(c) == Got(op) && HasRoutine(op) && Step({}, c).Ran? && c.sp + 8 <= M
    ensures Step({}, c).c.sp <= c.sp + 4 * Pops(op, false)
  {
    hide Alu1Value, Alu2Value, Byte, SetByte, SetHalf, Fetch;
    InsideRam(c);
  }

  lemma SameStep(n: State, t: State, dirty: set<int>)
    requires Similar(n, t, dirty) && Reads(n) !! dirty && Step({}, n).Ran?
    ensures Step({}, t).Ran? && Effect({}, n).Next? && Effect({}, n).wr == Effect({}, t).wr
    ensures Similar(Step({}, n).c, Step({}, t).c, Cleaned(dirty, Effect({}, n).wr))
  {
    hide Effect, Reads;
    SameEffect({}, n, t, dirty);
  }

  /** An emulated instruction. */
  lemma EmulatedTurn(feeble: set<Op>, img: Image, lay: Layout, n: Machine, t: Machine, dirty: set<int>)
    returns (t': Machine)
    requires Loaded(img, lay) && Ready(img, t.core) && InStep(n, t, dirty) && Allowed(feeble, img, n, dirty)
    requires Emulates(feeble, n.core)
    ensures Valid(t.core) && Gets(feeble, t, t') && Ready(img, t'.core)
    ensures Turn({}, n).After? && Effect({}, n.core).Next?
    ensures InStep(Turn({}, n).m, t', DirtyAfter(feeble, n.core, dirty))
    ensures DirtyAfter(feeble, n.core, dirty) !! img.Keys || !(dirty !! img.Keys)
  {
    hide Loaded, Step, Effect, Reads, Permits, Fetch, InRam, Reaches, Turn, Later, Checked, SameShown, HasRoutine, Gets;
    var op := Fetch(n.core).t;
    RetiresInside(n);
    RoutineInRam(n.core, op);
    UndisturbedCheck(n.device, n.core.decodeMask, 1);
    QuietTurn({}, n);
    FetchRead(n.core, t.core, dirty);
    SamePermits(feeble, img, n.core, t.core, dirty, op);
    SameStep(n.core, t.core, dirty);
    var c := EmulatedStep(feeble, img, lay, t.core, op);
    MatchesSimilar(feeble, img, n.core, t.core, c, dirty);
    ScratchClear(feeble, img, n.core, op);
    MaskedToo(n, t, dirty);
    t' := LiftReaches(feeble, t, c);
    ShownBoth(n.device, t.device, Later(n.device, n.core.decodeMask), t'.device);
  }

  lemma {:induction false} StepSimulated(feeble: set<Op>, img: Image, lay: Layout, n: Machine, t: Machine, dirty: set<int>)
    returns (t': Machine)
    requires Loaded(img, lay) && Ready(img, t.core) && InStep(n, t, dirty) && Allowed(feeble, img, n, dirty)
    requires dirty !! img.Keys
    ensures Valid(t.core) && Gets(feeble, t, t') && Ready(img, t'.core)
    ensures Turn({}, n).After? && Effect({}, n.core).Next?
    ensures InStep(Turn({}, n).m, t', DirtyAfter(feeble, n.core, dirty))
    ensures DirtyAfter(feeble, n.core, dirty) !! img.Keys
  {
    hide Loaded, Effect, Allowed, Fetch, InRam, Turn, Gets, SameShown, Scratch;
    assert Valid(n.core) by { AllowedValid(feeble, img, n, dirty); }
    if Emulates(feeble, n.core) {
      t' := EmulatedTurn(feeble, img, lay, n, t, dirty);
    } else {
      SameTurn(feeble, img, n, t, dirty);
      GetsTurn(feeble, t);
      t' := Turn(feeble, t).m;
    }
  }

  lemma AllowedValid(feeble: set<Op>, img: Image, n: Machine, dirty: set<int>)
    requires Allowed(feeble, img, n, dirty)
    ensures Valid(n.core) && Turn({}, n).After? && Effect({}, n.core).Next?
  {
    hide Effect, Fetch, Turn, Reads, Permits;
    RetiresInside(n);
  }

  lemma FetchRead(n: State, t: State, dirty: set<int>)
    requires Similar(n, t, dirty) && Reads(n) !! dirty
    ensures Fetch(n) == Fetch(t)
  {
    hide Fetch;
    assert n.pc / 4 in Reads(n);
    SameFetch(n, t, dirty);
  }

  lemma ScratchClear(feeble: set<Op>, img: Image, n: State, op: Op)
    requires Valid(n) && Fetch(n) == Got(op) && HasRoutine(op) && Step({}, n).Ran? && Permits(feeble, img, n, op)
    ensures Scratch(op, n.sp, Step({}, n).c.sp) !! img.Keys
  {
    hide Fetch, Step, ShiftOk, Depth, HasRoutine, Pops, StillThere;
    PopsRange(op, false);
    SpAfter(n, op);
  }

  lemma MatchesSimilar(feeble: set<Op>, img: Image, n: State, t: State, t': State, dirty: set<int>)
    requires Similar(n, t, dirty) && Reads(n) !! dirty && Step({}, n).Ran? && Step({}, t).Ran?
    requires Emulates(feeble, n) && Effect({}, n).Next? && Effect({}, n).sp == Step({}, n).c.sp
    requires Matches(feeble, img, t, t', Step({}, t).c, ScratchLow(Fetch(n).t, n.sp))
    ensures Similar(Step({}, n).c, t', DirtyAfter(feeble, n, dirty)) && Ready(img, t')
  {
    hide Step, Effect, Reads, Fetch, InRam, Reaches, ScratchLow;
    SameStep(n, t, dirty);
    var op, wr, n', u := Fetch(n).t, Effect({}, n).wr, Step({}, n).c, Step({}, t).c;
    var rest := Cleaned(dirty, wr);
    assert Similar(n', u, rest);
    forall i | 0 <= i < RAM_WORDS && i !in DirtyAfter(feeble, n, dirty) ensures t'.mem[i] == n'.mem[i] {
      assert i !in rest;
      assert i !in Scratch(op, n.sp, n'.sp) && !Between(ScratchLow(op, n.sp), i, n'.sp / 4);
    }
  }

  // ---- Runs ----

  /** k instructions of the program, each respecting what emulation needs. */
  ghost predicate Respects(feeble: set<Op>, img: Image, n: Machine, dirty: set<int>, k: nat)
    decreases k
  {
    k > 0 ==> Allowed(feeble, img, n, dirty) && Effect({}, n.core).Next? && Turn({}, n).After?
              && Respects(feeble, img, Turn({}, n).m, DirtyAfter(feeble, n.core, dirty), k - 1)
  }

  ghost function DirtyRun(feeble: set<Op>, img: Image, n: Machine, dirty: set<int>, k: nat): set<int>
    requires Respects(feeble, img, n, dirty, k)
    decreases k
  {
    if k == 0 then dirty else DirtyRun(feeble, img, Turn({}, n).m, DirtyAfter(feeble, n.core, dirty), k - 1)
  }

  /** Whatever the processor does in k instructions, the emulating machine does too. */
  lemma {:induction false} RunSimulated(feeble: set<Op>, img: Image, lay: Layout, n: Machine, t: Machine, dirty: set<int>, k: nat)
    returns (t': Machine)
    requires Loaded(img, lay) && Ready(img, t.core) && InStep(n, t, dirty) && dirty !! img.Keys
    requires Respects(feeble, img, n, dirty, k)
    ensures Valid(n.core) && Valid(t.core) && Turns({}, n, k).After? && Gets(feeble, t, t') && Ready(img, t'.core)
    ensures InStep(Turns({}, n, k).m, t', DirtyRun(feeble, img, n, dirty, k))
    decreases k
  {
    hide Loaded, Turn, Allowed, SameShown, InRam, Gets, DirtyAfter, Effect;
    assert Valid(n.core) && Valid(t.core) by { hide DirtyRun, Respects; }
    if k == 0 {
      t' := t;
      GetsSelf(feeble, t);
    } else {
      var u := StepSimulated(feeble, img, lay, n, t, dirty);
      t' := RunSimulated(feeble, img, lay, Turn({}, n).m, u, DirtyAfter(feeble, n.core, dirty), k - 1);
      GetsJoin(feeble, t, u, t');
    }
  }

  // ---- Where dirty words can be ----

  /** popsp moves sp down over words nothing has been written to since. */
  ghost predicate Lowers(n: State)
    requires Valid(n)
  {
    Fetch(n) == Got(PopSp) && Effect({}, n).Next? && Effect({}, n).sp < n.sp
  }

  /** sp moves down by one word at a time, over a word the instruction writes. */
  predicate StepsDown(sp: int, o: Outcome) {
    o.Next? ==> sp <= o.sp || (o.sp == sp - 4 && (if o.wr.Ram? then o.wr.i == o.sp / 4 else o.sp >= RAM_SIZE))
  }

  lemma OnNoneMoves(n: State, op: Op)
    requires Valid(n) && n.pc < RAM_SIZE
    ensures StepsDown(n.sp, OnNone(n, op))
  {
    hide Byte;
  }

  lemma OnTopMoves(n: State, op: Op, a: word)
    requires Valid(n) && n.pc < RAM_SIZE && n.sp < RAM_SIZE
    ensures op != PopSp || a >= n.sp ==> StepsDown(n.sp, OnTop(n, op, a))
    ensures OnTop(n, PopSp, a).Next? ==> OnTop(n, PopSp, a).sp == a
  {
    hide Alu1Value, Byte;
  }

  lemma OnTwoMoves(n: State, op: Op, a: word, b: word)
    requires Valid(n) && n.pc < RAM_SIZE && n.sp + 4 < RAM_SIZE
    ensures StepsDown(n.sp, OnTwo(n, op, a, b))
  {
    hide Alu2Value, SetByte, SetHalf, Quotient;
  }

  lemma SpMoves(n: State)
    requires Valid(n) && Effect({}, n).Next? && !Lowers(n)
    ensures StepsDown(n.sp, Effect({}, n))
  {
    hide OnNone, OnTop, OnTwo, Emulatable, EmulateCode, Pops, StepsDown, OpAt;
    InsideRam(n);
    var op := Fetch(n).t;
    PopsRange(op, n.decodeMask);
    OnNoneMoves(n, op);
    assert Pops(PopSp, n.decodeMask) == 1 by { PopSpPops(n.decodeMask); }
    if n.sp < RAM_SIZE {
      OnTopMoves(n, op, n.mem[n.sp / 4]);
      if n.sp + 4 < RAM_SIZE {
        OnTwoMoves(n, op, n.mem[n.sp / 4], n.mem[n.sp / 4 + 1]);
      }
    }
  }

  lemma PopSpPops(mask: bool)
    ensures Pops(PopSp, mask) == 1
  {
  }

  ghost function Uncovered(sp': int, sp: int): set<int> {
    set i | sp' / 4 <= i < sp / 4 && Between(sp' / 4, i, sp / 4)
  }

  /** Words at or above sp that popsp has moved sp over and the program has not written since. */
  ghost function ExposedAfter(n: State, exposed: set<int>): set<int>
    requires Valid(n) && Effect({}, n).Next?
  {
    var o := Effect({}, n);
    Cleaned(exposed, o.wr) + if Lowers(n) then Uncovered(o.sp, n.sp) else {}
  }

  ghost function ExposedRun(n: Machine, exposed: set<int>, k: nat): set<int>
    requires Valid(n.core)
    decreases k
  {
    if k == 0 || !Effect({}, n.core).Next? || !Turn({}, n).After? then exposed
    else ExposedRun(Turn({}, n).m, ExposedAfter(n.core, exposed), k - 1)
  }

  /** Every dirty word is below sp or exposed. */
  ghost predicate Covered(dirty: set<int>, exposed: set<int>, sp: int) {
    forall i :: i in dirty && i < RAM_WORDS && i !in exposed ==> i < sp / 4
  }

  lemma StaysCovered(feeble: set<Op>, n: State, dirty: set<int>, exposed: set<int>)
    requires Valid(n) && Effect({}, n).Next? && Covered(dirty, exposed, n.sp)
    ensures Covered(DirtyAfter(feeble, n, dirty), ExposedAfter(n, exposed), Effect({}, n).sp)
  {
    hide Effect, Fetch, Depth;
    if !Lowers(n) {
      SpMoves(n);
    }
  }

  lemma {:induction false} RunStaysCovered(feeble: set<Op>, img: Image, n: Machine, dirty: set<int>, exposed: set<int>, k: nat)
    requires Respects(feeble, img, n, dirty, k) && Valid(n.core) && Covered(dirty, exposed, n.core.sp)
    ensures Turns({}, n, k).After?
    ensures Covered(DirtyRun(feeble, img, n, dirty, k), ExposedRun(n, exposed, k), Turns({}, n, k).m.core.sp)
    decreases k
  {
    hide Turn, Allowed, DirtyAfter, ExposedAfter, Covered, Effect;
    if k > 0 {
      StaysCovered(feeble, n.core, dirty, exposed);
      TurnSp(feeble, img, n, dirty);
      RunStaysCovered(feeble, img, Turn({}, n).m, DirtyAfter(feeble, n.core, dirty), ExposedAfter(n.core, exposed), k - 1);
    }
  }

  lemma TurnSp(feeble: set<Op>, img: Image, n: Machine, dirty: set<int>)
    requires Allowed(feeble, img, n, dirty)
    ensures Turn({}, n).After? && Effect({}, n.core).Next? && Turn({}, n).m.core.sp == Effect({}, n.core).sp
  {
    hide Turn, Effect, Reads, Fetch, Permits, Perform, SameShown, Later;
    RetiresInside(n);
    TurnRetires({}, n);
  }

  /** Word i lies in the scratch space of instruction j of the program, an emulated one, and below the sp
      that instruction leaves. */
  ghost predicate ScratchedAt(feeble: set<Op>, m: Machine, j: nat, i: int)
    requires Valid(m.core)
  {
    var n := Turns({}, m, j);
    n.After? && Emulates(feeble, n.m.core) && Effect({}, n.m.core).Next?
    && ScratchLow(Fetch(n.m.core).t, n.m.core.sp) <= i < Effect({}, n.m.core).sp / 4
  }

  lemma ScratchNear(op: Op, sp: int)
    ensures sp / 4 - 13 <= ScratchLow(op, sp) < sp / 4
  {
  }

  /** Every dirty word is one that some instruction of the program has used as scratch space. */
  lemma {:induction false} DirtyScratched(feeble: set<Op>, img: Image, n: Machine, dirty: set<int>, k: nat, i: int)
    requires Valid(n.core) && Respects(feeble, img, n, dirty, k) && i in DirtyRun(feeble, img, n, dirty, k)
    ensures i in dirty || exists j: nat :: j < k && ScratchedAt(feeble, n, j, i)
    decreases k
  {
    hide Turn, Allowed, Effect, Fetch, Emulates, ScratchLow;
    if k > 0 {
      var d := Turn({}, n).m;
      DirtyScratched(feeble, img, d, DirtyAfter(feeble, n.core, dirty), k - 1, i);
      if i in DirtyAfter(feeble, n.core, dirty) {
        assert i in dirty || ScratchedAt(feeble, n, 0, i);
      } else {
        var j: nat :| j < k - 1 && ScratchedAt(feeble, d, j, i);
        assert Turns({}, n, j + 1) == Turns({}, d, j);
        assert ScratchedAt(feeble, n, j + 1, i);
      }
    }
  }

  /** From one state, both machines reach the same pc, sp and decode mask, the same board but for the
      time, and the same memory, except in words that emulation has used as scratch space below the sp of
      some instruction; at and above the final sp those are words popsp has exposed and the program has
      not written since. */
  lemma ProgramSimulated(feeble: set<Op>, img: Image, lay: Layout, m: Machine, k: nat) returns (t: Machine)
    requires Loaded(img, lay) && Ready(img, m.core) && !m.hitVector && Respects(feeble, img, m, {}, k)
    ensures Turns({}, m, k).After? && Gets(feeble, m, t)
    ensures var n := Turns({}, m, k).m;
      && t.core.pc == n.core.pc && t.core.sp == n.core.sp && t.core.decodeMask == n.core.decodeMask
      && SameShown(n.device, t.device) && |t.core.mem| == |n.core.mem| == RAM_WORDS
      && forall i :: 0 <= i < RAM_WORDS && n.core.sp / 4 <= i && i !in ExposedRun(m, {}, k) ==> t.core.mem[i] == n.core.mem[i]
    ensures forall i :: 0 <= i < RAM_WORDS && t.core.mem[i] != Turns({}, m, k).m.core.mem[i] ==>
      exists j: nat :: j < k && ScratchedAt(feeble, m, j, i)
  {
    hide Loaded, Turn, Allowed, Gets, DirtyRun, ExposedRun, Respects, InRam, SameShown, ScratchedAt;
    ShownRefl(m.device);
    t := RunSimulated(feeble, img, lay, m, m, {}, k);
    RunStaysCovered(feeble, img, m, {}, {}, k);
    forall i | 0 <= i < RAM_WORDS && t.core.mem[i] != Turns({}, m, k).m.core.mem[i]
      ensures exists j: nat :: j < k && ScratchedAt(feeble, m, j, i)
    {
      DirtyScratched(feeble, img, m, {}, k, i);
    }
  }

  /** A program whose popsp never lowers sp exposes nothing. */
  lemma {:induction false} NothingExposed(n: Machine, k: nat)
    requires Valid(n.core)
    requires forall j: nat :: j < k && Turns({}, n, j).After? ==> !Lowers(Turns({}, n, j).m.core)
    ensures ExposedRun(n, {}, k) == {}
    decreases k
  {
    hide Turn, Effect, Lowers;
    if k > 0 && Effect({}, n.core).Next? && Turn({}, n).After? {
      assert Turns({}, n, 0) == After(n);
      assert ExposedAfter(n.core, {}) == {};
      forall j: nat | j < k - 1 && Turns({}, Turn({}, n).m, j).After? ensures !Lowers(Turns({}, Turn({}, n).m, j).m.core) {
        assert Turns({}, n, j + 1) == Turns({}, Turn({}, n).m, j);
      }
      NothingExposed(Turn({}, n).m, k - 1);
    }
  }
}
