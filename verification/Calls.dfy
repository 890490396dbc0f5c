/** The number of instructions a call takes: one, or eight when it is emulated. */
module Calls {
  import opened Isa
  import opened Cpu
  import opened Runs
  import opened Crt0
  import opened StackCode
  import opened Images
  import opened CodeRuns
  import opened MemoryEmulation

  function CallLength(feeble: set<Op>): nat {
    if Call in feeble then 8 else 1
  }

  /** One more instruction. */
  lemma Onward(feeble: set<Op>, c: State, n: nat, d: State)
    requires Valid(c) && Run(feeble, c, n) == Ran(d) && Valid(d) && Step(feeble, d).Ran?
    ensures Run(feeble, c, n + 1) == Step(feeble, d)
  {
    hide Step;
    RunAppend(feeble, c, n, d, 1);
    RunOne(feeble, d);
  }

  lemma StepCall(feeble: set<Op>, c: State)
    requires Valid(c) && Fetch(c) == Got(Call) && c.sp < RAM_SIZE && Call !in feeble && c.mem[c.sp / 4] <= RAM_SIZE
    ensures Step(feeble, c) == Ran(State(c.mem[c.sp / 4], c.sp, false, c.mem[c.sp / 4 := c.pc + 1]))
  {
    hide EmulateCode, OpAt, OnNone, OnTwo;
    InsideRam(c);
  }

  const CALL_VECTOR: int := 416

  lemma CallAt(img: Image, lay: Layout)
    requires Loaded(img, lay)
    ensures var v := CALL_VECTOR;
      && v == (EmulateCode(Call) - 32) * VECTOR_SIZE
      && OpIn(img, v, LoadSp(1)) && OpIn(img, v + 1, LoadSp(1)) && OpIn(img, v + 2, StoreSp(3)) && OpIn(img, v + 3, StoreSp(1))
      && OpIn(img, v + 4, PushSp) && OpIn(img, v + 5, PopSp) && OpIn(img, v + 6, PopPc)
  {
    hide OpIn, ShiftTable, SlowMult, StoreBTail, StoreHTail, LoopOffset, MaskTable;
    var v := CALL_VECTOR;
    assert HasRoutine(Call);
    assert Holds(img, lay, v, CallCode());
    assert Holds(img, lay, v + 1, Loadsp(1, Storesp(3, Storesp(1, FlushReturn()))));
    assert Holds(img, lay, v + 2, Storesp(3, Storesp(1, FlushReturn())));
    assert Holds(img, lay, v + 3, Storesp(1, FlushReturn()));
    assert Holds(img, lay, v + 4, FlushReturn());
    assert Holds(img, lay, v + 5, Other(PopSp, Other(PopPc, End)));
    assert Holds(img, lay, v + 6, Other(PopPc, End));
  }

  /** Control is at the vector with a return address below the target, and room for three more words. */
  ghost predicate AtCall(img: Image, c: State, i: int) {
    && Ready(img, c) && 3 <= i < RAM_WORDS && c.sp == 4 * i - 4 && c.pc == CALL_VECTOR && !c.decodeMask
    && c.mem[i] <= RAM_SIZE && i !in img && i - 1 !in img && i - 2 !in img && i - 3 !in img
  }

  ghost function Copied(c: State, i: int): State
    requires |c.mem| == RAM_WORDS && 3 <= i < RAM_WORDS
  {
    State(CALL_VECTOR + 2, 4 * i - 12, false, c.mem[i - 2 := c.mem[i]][i - 3 := c.mem[i - 1]])
  }

  ghost function Swapped(c: State, i: int): State
    requires |c.mem| == RAM_WORDS && 3 <= i < RAM_WORDS
  {
    State(CALL_VECTOR + 4, 4 * i - 4, false, Copied(c, i).mem[i := c.mem[i - 1]][i - 1 := c.mem[i]])
  }

  ghost function Gone(c: State, i: int): State
    requires |c.mem| == RAM_WORDS && 3 <= i < RAM_WORDS
  {
    State(c.mem[i], 4 * i, false, Swapped(c, i).mem[i - 2 := 4 * i - 4])
  }

  /** loadsp 4; loadsp 4. */
  lemma Copies(feeble: set<Op>, img: Image, lay: Layout, c: State, i: int)
    requires Loaded(img, lay) && AtCall(img, c, i)
    ensures Run(feeble, c, 2) == Ran(Copied(c, i)) && Ready(img, Copied(c, i))
  {
    hide Loaded, Step, OpIn, Run;
    CallAt(img, lay);
    FetchImage(img, c, LoadSp(1));
    StepLoadSp(feeble, c, 1);
    RunOne(feeble, c);
    var d := State(CALL_VECTOR + 1, 4 * i - 8, false, c.mem[i - 2 := c.mem[i]]);
    FetchImage(img, d, LoadSp(1));
    StepLoadSp(feeble, d, 1);
    Onward(feeble, c, 1, d);
  }

  /** storesp 12; storesp 4. */
  lemma Swaps(feeble: set<Op>, img: Image, lay: Layout, c: State, i: int)
    requires Loaded(img, lay) && AtCall(img, c, i)
    ensures Run(feeble, c, 4) == Ran(Swapped(c, i)) && Ready(img, Swapped(c, i))
  {
    hide Loaded, Step, OpIn, Run;
    CallAt(img, lay);
    Copies(feeble, img, lay, c, i);
    var d := Copied(c, i);
    FetchImage(img, d, StoreSp(3));
    StepStoreSp(feeble, d, 3);
    Onward(feeble, c, 2, d);
    var e := State(CALL_VECTOR + 3, 4 * i - 8, false, d.mem[i := c.mem[i - 1]]);
    FetchImage(img, e, StoreSp(1));
    StepStoreSp(feeble, e, 1);
    Onward(feeble, c, 3, e);
  }

  /** pushsp; popsp; poppc. */
  lemma Goes(feeble: set<Op>, img: Image, lay: Layout, c: State, i: int)
    requires Loaded(img, lay) && AtCall(img, c, i)
    ensures Run(feeble, c, 7) == Ran(Gone(c, i)) && Ready(img, Gone(c, i))
  {
    hide Loaded, Step, OpIn, Run;
    CallAt(img, lay);
    Swaps(feeble, img, lay, c, i);
    var d := Swapped(c, i);
    FetchImage(img, d, PushSp);
    StepPushSp(feeble, d);
    Onward(feeble, c, 4, d);
    var e := State(CALL_VECTOR + 5, 4 * i - 8, false, d.mem[i - 2 := 4 * i - 4]);
    FetchImage(img, e, PopSp);
    StepPopSp(feeble, e);
    Onward(feeble, c, 5, e);
    var f := State(CALL_VECTOR + 6, 4 * i - 4, false, e.mem);
    FetchImage(img, f, PopPc);
    StepPopPc(feeble, f);
    Onward(feeble, c, 6, f);
  }

  /** A call in emulation code, executed or emulated. */
  lemma CallRuns(feeble: set<Op>, img: Image, lay: Layout, c: State, lo: int) returns (t: State)
    requires Loaded(img, lay) && Ready(img, c) && OpIn(img, c.pc, Call) && Window(img, lo, c.sp / 4 + 1)
    requires lo + 3 <= c.sp / 4 && c.mem[c.sp / 4] <= RAM_SIZE
    ensures Valid(c) && c.pc < RAM_SIZE && Run(feeble, c, CallLength(feeble)) == Ran(t) && Ready(img, t)
    ensures t.pc == c.mem[c.sp / 4] && t.sp == c.sp && !t.decodeMask && Frame(c.mem, t.mem, lo, c.sp / 4 + 1)
    ensures t.mem[c.sp / 4] == c.pc + 1
  {
    hide Loaded, Step, OpIn, Run;
    FetchImage(img, c, Call);
    InsideRam(c);
    if Call in feeble {
      CallAt(img, lay);
      CodeStays(img, c, Call, lo, c.sp / 4 + 1);
      StepEmulate(feeble, c, Call);
      var d := AtVector(c, Call);
      Goes(feeble, img, lay, d, c.sp / 4);
      t := Gone(d, c.sp / 4);
      RunOne(feeble, c);
      RunAppend(feeble, c, 1, d, 7);
    } else {
      StepCall(feeble, c);
      RunOne(feeble, c);
      t := Step(feeble, c).c;
    }
  }
}
