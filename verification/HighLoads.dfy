/** Emulated byte and half-word loads from the last three addresses: the processor reads word 0
    there, the routine runs into a fault. */
module HighLoads {
  import opened Words
  import opened Isa
  import opened Cpu
  import opened Runs
  import opened Crt0
  import opened StackCode
  import opened Images
  import opened CodeRuns
  import opened Emulation

  function LoadMask(op: Op): word {
    if op == LoadB then 0xffff_fffc else 0xffff_fffd
  }

  /** An emulated load of an address in the last word of the address space. */
  ghost predicate HighLoad(feeble: set<Op>, img: Image, lay: Layout, c: State, op: Op, lo: int) {
    && (op == LoadB || op == LoadH) && Callable(feeble, img, lay, c, op, 1, lo) && c.sp / 4 < |c.mem|
    && c.mem[c.sp / 4] >= M - 3 && (op == LoadH ==> c.mem[c.sp / 4] % 2 == 0)
  }

  lemma LoadPrefix(img: Image, lay: Layout, op: Op)
    requires Loaded(img, lay) && (op == LoadB || op == LoadH)
    ensures var v := (EmulateCode(op) - 32) * VECTOR_SIZE;
      && OpIn(img, v, LoadSp(1)) && ImIn(img, v + 1, LoadMask(op))
      && OpIn(img, AfterIm(img, v + 1), Binary(And_)) && OpIn(img, AfterIm(img, v + 1) + 1, Load)
  {
    hide LoadBShift, LoadHShift, OpIn, ImIn, AfterIm, ShiftTable, SlowMult, StoreBTail, StoreHTail, LoopOffset, MaskTable;
    var v := (EmulateCode(op) - 32) * VECTOR_SIZE;
    var rest := if op == LoadB then LoadBShift() else LoadHShift();
    assert Holds(img, lay, v, Loadsp(1, Imm(LoadMask(op), Bin(And_, Other(Load, rest)))));
    assert Holds(img, lay, AfterIm(img, v + 1), Bin(And_, Other(Load, rest)));
  }

  lemma StillReady(img: Image, c: State, pc: int, sp: int, mask: bool, i: int, w: word)
    requires Ready(img, c) && 0 <= i < RAM_WORDS && i !in img && 0 <= pc <= RAM_SIZE && 0 <= sp < M && sp % 4 == 0
    ensures Ready(img, State(pc, sp, mask, c.mem[i := w]))
  {
  }

  /** The states the machine passes through up to the load that faults. */
  ghost function AfterLoadsp(c: State, op: Op): State
    requires Valid(c) && 2 <= c.sp / 4 < RAM_WORDS && c.pc < RAM_SIZE
  {
    var i, d := c.sp / 4, AtVector(c, op);
    State(d.pc + 1, c.sp - 8, false, d.mem[i - 2 := c.mem[i]])
  }

  ghost function WithinIm(c: State, op: Op, gs: seq<nat>): State
    requires Valid(c) && 3 <= c.sp / 4 < RAM_WORDS && c.pc < RAM_SIZE && Groups(gs)
  {
    var d := AfterLoadsp(c, op);
    State(d.pc + |gs|, c.sp - 12, true, d.mem[c.sp / 4 - 3 := ImmediateValue(gs)])
  }

  ghost function AfterAnd(c: State, op: Op, pc: int): State
    requires Valid(c) && 3 <= c.sp / 4 < RAM_WORDS && c.pc < RAM_SIZE
  {
    var i, d := c.sp / 4, AfterLoadsp(c, op);
    State(pc, c.sp - 8, false, d.mem[i - 3 := LoadMask(op)][i - 2 := AndWord(LoadMask(op), c.mem[i])])
  }

  ghost function MaskGroups(img: Image, op: Op): seq<nat> {
    ImGroups(img, (EmulateCode(op) - 32) * VECTOR_SIZE + 1)
  }

  lemma HighRoom(feeble: set<Op>, img: Image, lay: Layout, c: State, op: Op, lo: int)
    requires HighLoad(feeble, img, lay, c, op, lo)
    ensures Valid(c) && 10 <= c.sp / 4 < RAM_WORDS && c.pc < RAM_SIZE && Ready(img, c) && Loaded(img, lay)
    ensures c.sp / 4 !in img && c.sp / 4 - 1 !in img && c.sp / 4 - 2 !in img && c.sp / 4 - 3 !in img
    ensures Step(feeble, c) == Ran(AtVector(c, op)) && Ready(img, AtVector(c, op))
    ensures c.mem[c.sp / 4] >= M - 3 && (op == LoadB || (op == LoadH && c.mem[c.sp / 4] % 2 == 0))
  {
    hide Loaded, InRam, Fetch, HasRoutine, Step, StillThere;
    InsideRam(c);
    assert Emulatable(op) && Depth(op) == 10;
    StepEmulate(feeble, c, op);
    StillReady(img, c, (EmulateCode(op) - 32) * VECTOR_SIZE, c.sp - 4, false, c.sp / 4 - 1, c.pc + 1);
  }

  /** The vector and its first instruction. */
  lemma FirstTwo(feeble: set<Op>, img: Image, lay: Layout, c: State, op: Op, lo: int)
    requires HighLoad(feeble, img, lay, c, op, lo)
    ensures Valid(c) && 10 <= c.sp / 4 < RAM_WORDS && c.pc < RAM_SIZE
    ensures Run(feeble, c, 1) == Ran(AtVector(c, op)) && Run(feeble, c, 2) == Ran(AfterLoadsp(c, op))
    ensures Ready(img, AfterLoadsp(c, op))
  {
    hide Loaded, InRam, Fetch, Step, HighLoad, OpIn, ImIn, AfterIm;
    HighRoom(feeble, img, lay, c, op, lo);
    var d := AtVector(c, op);
    RunOne(feeble, c);
    LoadPrefix(img, lay, op);
    FetchImage(img, d, LoadSp(1));
    StepLoadSp(feeble, d, 1);
    RunAppend(feeble, c, 1, d, 1);
    RunOne(feeble, d);
    StillReady(img, d, d.pc + 1, c.sp - 8, false, c.sp / 4 - 2, c.mem[c.sp / 4]);
  }

  /** Part of the mask has been pushed. */
  lemma Pushing(feeble: set<Op>, img: Image, lay: Layout, c: State, op: Op, lo: int, j: nat)
    requires HighLoad(feeble, img, lay, c, op, lo) && 1 <= j <= |MaskGroups(img, op)|
    ensures Valid(c) && 10 <= c.sp / 4 < RAM_WORDS && c.pc < RAM_SIZE && Groups(MaskGroups(img, op)[..j])
    ensures Run(feeble, c, 2 + j) == Ran(WithinIm(c, op, MaskGroups(img, op)[..j]))
  {
    hide Loaded, InRam, Fetch, Step, HighLoad, OpIn, ImIn, Run, ImAt, Outside, Groups;
    FirstTwo(feeble, img, lay, c, op, lo);
    HighRoom(feeble, img, lay, c, op, lo);
    var gs, d := MaskGroups(img, op), AfterLoadsp(c, op);
    ImGroupsAt(img, d.pc);
    ImAtImage(img, d);
    ImmediatePrefix(d.mem, d.pc, gs, d.sp / 4 - 1, j);
    ImmediateRun(feeble, d, gs[..j]);
    RunAppend(feeble, c, 2, d, j);
  }

  /** The load of the masked address faults. */
  lemma Faulting(feeble: set<Op>, img: Image, lay: Layout, c: State, op: Op, lo: int) returns (e: State)
    requires HighLoad(feeble, img, lay, c, op, lo) && Valid(c)
    ensures Valid(e) && e.sp < c.sp && Run(feeble, c, 3 + |MaskGroups(img, op)|) == Ran(e) && Step(feeble, e) == Stuck
  {
    hide Loaded, InRam, Fetch, Step, HighLoad, OpIn, Run;
    HighRoom(feeble, img, lay, c, op, lo);
    FirstTwo(feeble, img, lay, c, op, lo);
    LoadPrefix(img, lay, op);
    var gs := MaskGroups(img, op);
    assert gs[..|gs|] == gs;
    Pushing(feeble, img, lay, c, op, lo, |gs|);
    var d, t := AfterLoadsp(c, op), WithinIm(c, op, gs);
    StillReady(img, d, t.pc, t.sp, true, c.sp / 4 - 3, LoadMask(op));
    FetchImage(img, t, Binary(And_));
    StepBinary(feeble, t, And_);
    e := AfterAnd(c, op, t.pc + 1);
    assert Step(feeble, t) == Ran(e);
    RunAppend(feeble, c, 2 + |gs|, t, 1);
    RunOne(feeble, t);
    StillReady(img, t, e.pc, e.sp, false, c.sp / 4 - 2, e.mem[c.sp / 4 - 2]);
    FetchImage(img, e, Load);
    HighFault(feeble, e, op, c.mem[c.sp / 4]);
  }

  lemma HighFault(feeble: set<Op>, e: State, op: Op, a: word)
    requires Valid(e) && Fetch(e) == Got(Load) && e.sp < RAM_SIZE && a >= M - 3 && (op == LoadB || (op == LoadH && a % 2 == 0))
    requires e.mem[e.sp / 4] == AndWord(LoadMask(op), a)
    ensures Step(feeble, e) == Stuck
  {
    hide OpAt, OnNone, OnTwo, EmulateCode;
    InsideRam(e);
    AlignMasks(a);
  }

  /** However long it runs, the machine never gets back to the sp of the program. */
  lemma NeverReturns(feeble: set<Op>, img: Image, lay: Layout, c: State, op: Op, lo: int, t: State)
    requires HighLoad(feeble, img, lay, c, op, lo) && Valid(c) && Reaches(feeble, c, t)
    ensures t == c || t.sp < c.sp
  {
    hide HighLoad, Step;
    var n: nat :| Run(feeble, c, n) == Ran(t);
    var k := |MaskGroups(img, op)|;
    FirstTwo(feeble, img, lay, c, op, lo);
    var e := Faulting(feeble, img, lay, c, op, lo);
    if n > 3 + k {
      RunAppend(feeble, c, 3 + k, e, n - (3 + k));
    } else if 2 < n < 3 + k {
      Pushing(feeble, img, lay, c, op, lo, n - 2);
    }
  }
}
