/** Emulated byte and half-word accesses, calls and sp arithmetic end where the processor
    would have ended, with only the scratch window below sp overwritten. */
module MemoryEmulation {
  import opened Words
  import opened Isa
  import opened Cpu
  import opened Runs
  import opened Crt0
  import opened StackCode
  import opened Images
  import opened Routines
  import opened MemoryRoutines
  import opened CodeRuns
  import opened Emulation

  // ---- The instructions that read or move more than the stack ----

  lemma StepLoad(feeble: set<Op>, c: State)
    requires Valid(c) && Fetch(c) == Got(Load) && c.sp < RAM_SIZE
    requires c.mem[c.sp / 4] % 4 == 0 && c.mem[c.sp / 4] < RAM_SIZE
    ensures Step(feeble, c) == Ran(State(c.pc + 1, c.sp, false, c.mem[c.sp / 4 := c.mem[c.mem[c.sp / 4] / 4]]))
  {
    InsideRam(c);
    hide Fetch;
  }

  lemma StepStore(feeble: set<Op>, c: State)
    requires Valid(c) && Fetch(c) == Got(Store) && c.sp + 4 < RAM_SIZE
    requires c.mem[c.sp / 4] % 4 == 0 && c.mem[c.sp / 4] < RAM_SIZE
    ensures Step(feeble, c) == Ran(State(c.pc + 1, c.sp + 8, false, c.mem[c.mem[c.sp / 4] / 4 := c.mem[c.sp / 4 + 1]]))
  {
    InsideRam(c);
    hide Fetch;
  }

  lemma StepPushSp(feeble: set<Op>, c: State)
    requires Valid(c) && Fetch(c) == Got(PushSp) && 4 <= c.sp <= RAM_SIZE
    ensures Step(feeble, c) == Ran(State(c.pc + 1, c.sp - 4, false, c.mem[c.sp / 4 - 1 := c.sp]))
  {
    InsideRam(c);
    hide Fetch;
  }

  lemma StepPopSp(feeble: set<Op>, c: State)
    requires Valid(c) && Fetch(c) == Got(PopSp) && c.sp < RAM_SIZE && c.mem[c.sp / 4] % 4 == 0
    ensures Step(feeble, c) == Ran(State(c.pc + 1, c.mem[c.sp / 4], false, c.mem))
  {
    InsideRam(c);
    hide Fetch;
  }

  lemma ItemLoad(feeble: set<Op>, img: Image, c: State, s: Stack, env: Env, lo: int, hi: int)
    returns (t: State)
    requires Knows(img, c, s, env, lo, hi) && OpIn(img, c.pc, Load) && s.Cons?
    requires Eval(s.top, env) % 4 == 0 && Eval(s.top, env) < RAM_SIZE
    ensures Leads(feeble, img, c, t, Cons(K(c.mem[Eval(s.top, env) / 4]), s.below), env, lo, hi)
    ensures t.pc == c.pc + 1 && t.sp == c.sp && !t.decodeMask && Run(feeble, c, 1) == Ran(t)
  {
    hide Step, Effect;
    FetchImage(img, c, Load);
    StepLoad(feeble, c);
    ReachesStep(feeble, c);
    RunOne(feeble, c);
    OnStackTop(c.mem, c.sp / 4, s, env, K(c.mem[Eval(s.top, env) / 4]));
    t := Step(feeble, c).c;
  }

  lemma ItemPushSp(feeble: set<Op>, img: Image, c: State, s: Stack, env: Env, lo: int, hi: int)
    returns (t: State)
    requires Knows(img, c, s, env, lo, hi) && OpIn(img, c.pc, PushSp) && lo < c.sp / 4
    ensures Leads(feeble, img, c, t, Cons(K(c.sp), s), env, lo, hi)
    ensures t.pc == c.pc + 1 && t.sp == c.sp - 4 && !t.decodeMask
  {
    hide Step, Effect;
    FetchImage(img, c, PushSp);
    StepPushSp(feeble, c);
    ReachesStep(feeble, c);
    OnStackPush(c.mem, c.sp / 4, s, env, K(c.sp));
    t := Step(feeble, c).c;
  }

  /** pushsp; popsp leaves sp where it was. */
  lemma ItemFlush(feeble: set<Op>, img: Image, c: State, s: Stack, env: Env, lo: int, hi: int)
    returns (t: State)
    requires Knows(img, c, s, env, lo, hi) && OpIn(img, c.pc, PushSp) && OpIn(img, c.pc + 1, PopSp) && lo < c.sp / 4
    ensures Leads(feeble, img, c, t, s, env, lo, hi) && t.pc == c.pc + 2
  {
    hide Step, Effect;
    var d := ItemPushSp(feeble, img, c, s, env, lo, hi);
    FetchImage(img, d, PopSp);
    StepPopSp(feeble, d);
    ReachesThen(feeble, c, d);
    t := Step(feeble, d).c;
  }

  /** Straight-line code continues where control has arrived. */
  lemma Continue(feeble: set<Op>, img: Image, lay: Layout, c: State, d: State, code: Code, s: Stack, rest: Code, u: Stack,
                 env: Env, lo: int, hi: int, room: int, rank: nat)
    returns (t: State)
    requires Loaded(img, lay) && Leads(feeble, img, c, d, s, env, lo, hi) && env.lay == lay && env.feeble == feeble
    requires Holds(img, lay, d.pc, code) && !d.decodeMask && lo + room + Height(s) <= hi
    requires Safe(code, Height(s), room, rank) && Yields(code, s, rest, u)
    ensures Leads(feeble, img, c, t, u, env, lo, hi) && Holds(img, lay, t.pc, rest)
  {
    hide Leads, Knows, Safe, Loaded, Holds, Exec, Rest, OnStack, Height;
    LeadsKnows(feeble, img, c, d, s, env, lo, hi);
    SafeWithMore(code, Height(s), room, d.sp / 4 - lo, rank);
    t := Straight(feeble, img, lay, d, code, s, env, lo, hi, rank);
    LeadsJoin(feeble, img, c, d, t, s, env, u, env, lo, hi);
  }

  // ---- loadb and loadh ----

  function LoadAddress(op: Op): Expr {
    if op == LoadB then ByteAddress() else HalfAddress()
  }

  function LoadRest(op: Op): Code {
    if op == LoadB then LoadBShift() else LoadHShift()
  }

  function LoadExpr(op: Op, w: word): Expr {
    if op == LoadB then LoadBExpr(w) else LoadHExpr(w)
  }

  /** The bytes at offset k of the word w, as the processor reads them. */
  function LoadResult(op: Op, w: word, k: int): word
    requires 0 <= k < 4
  {
    if op == LoadB then Byte(w, k) else Byte(w, k) * 256 + Byte(w, (k + 1) % 4)
  }

  predicate Readable(op: Op, a: word) {
    (op == LoadB || (op == LoadH && a % 2 == 0)) && a < RAM_SIZE
  }

  lemma LoadSuits(op: Op)
    requires op == LoadB || op == LoadH
    ensures Suits(op, 1, Operand1(), Other(Load, LoadRest(op)), Cons(LoadAddress(op), Two()))
  {
    hide Safe, Yields, LoadBCode, LoadHCode, LoadBShift, LoadHShift;
    assert Cons(V(0), Operand1()) == Two();
    LoadBStarts();
    LoadHStarts();
  }

  lemma LoadRuns(op: Op, env: Env, a: word, w: word)
    requires |env.vars| >= 2 && env.vars[1] == a && Readable(op, a)
    ensures Yields(LoadRest(op), Cons(K(w), Two()), Other(PopPc, End), Returning(LoadExpr(op, w)))
    ensures Safe(LoadRest(op), 3, 8, 2)
    ensures Height(Cons(K(w), Two())) == 3
  {
    hide Safe, Yields, LoadBShift, LoadHShift, Eval, LoadBExpr, LoadHExpr, Returning;
    if op == LoadB {
      LoadBSteps(w);
      LoadBSafe();
    } else {
      LoadHSteps(w);
      LoadHSafe();
    }
  }

  lemma LoadComputes(op: Op, env: Env, a: word, w: word)
    requires |env.vars| >= 2 && env.vars[1] == a && Readable(op, a)
    ensures Eval(LoadAddress(op), env) == a - a % 4
    ensures Eval(LoadExpr(op, w), env) == LoadResult(op, w, a % 4)
  {
    hide Eval, LoadBExpr, LoadHExpr;
    AddressValue(env, a);
    if op == LoadB {
      LoadBValue(env, a, w);
    } else {
      LoadHValue(env, a, w);
    }
  }

  /** Words outside the scratch space still hold what they held at entry, the operand included. */
  lemma LoadedWord(feeble: set<Op>, img: Image, lay: Layout, c: State, d: State, e: Expr, lo: int, i: int)
    requires Valid(c) && c.sp / 4 + 1 <= RAM_WORDS && 0 <= i < RAM_WORDS && !(lo <= i < c.sp / 4)
    requires Leads(feeble, img, c, d, Cons(e, Two()), EntryEnv(feeble, c, lay, 1), lo, c.sp / 4 + 1)
    ensures d.mem[i] == c.mem[i]
  {
    hide InRam, Window, Reaches;
    var s, env := Cons(e, Two()), EntryEnv(feeble, c, lay, 1);
    assert Height(s) == 3;
    assert OnStack(d.mem, d.sp / 4 + 1, Two(), env);
    assert OnStack(d.mem, d.sp / 4 + 2, Cons(V(1), Nil), env);
  }

  lemma EmulateLoad(feeble: set<Op>, img: Image, lay: Layout, c: State, op: Op, a: word, lo: int) returns (t: State)
    requires Valid(c) && c.sp / 4 < RAM_WORDS && a == c.mem[c.sp / 4] && Readable(op, a)
    requires Callable(feeble, img, lay, c, op, 1, lo) && !(lo <= a / 4 < c.sp / 4)
    ensures Returned(feeble, img, c, t, 1, LoadResult(op, c.mem[a / 4], a % 4), lo)
  {
    hide Reaches, Frame, Knows;
    hide Entry, Suits, Leads, Returned, Operand1, Loaded, LoadAddress, LoadRest, LoadExpr, LoadResult, Routine, Two;
    hide Safe, Yields, InRam, Window, OnStack, Eval, Height, Fetch, HasRoutine, Returning;
    EntryOne(feeble, img, lay, c, op, lo);
    var env, hi := EntryEnv(feeble, c, lay, 1), c.sp / 4 + 1;
    var w := c.mem[a / 4];
    LoadSuits(op);
    LoadRuns(op, env, a, w);
    LoadComputes(op, env, a, w);
    t := RunRoutine(feeble, img, lay, c, op, 1, Operand1(), env, Other(Load, LoadRest(op)), Cons(LoadAddress(op), Two()), lo);
    LoadedWord(feeble, img, lay, c, t, LoadAddress(op), lo, a / 4);
    LeadsKnows(feeble, img, c, t, Cons(LoadAddress(op), Two()), env, lo, hi);
    var d := ItemLoad(feeble, img, t, Cons(LoadAddress(op), Two()), env, lo, hi);
    LeadsJoin(feeble, img, c, t, d, Cons(LoadAddress(op), Two()), env, Cons(K(w), Two()), env, lo, hi);
    t := Continue(feeble, img, lay, c, d, LoadRest(op), Cons(K(w), Two()), Other(PopPc, End),
                  Returning(LoadExpr(op, w)), env, lo, hi, 8, 2);
    assert Returning(LoadExpr(op, w)) == Cons(V(0), Cons(LoadExpr(op, w), Nil)) by { ReturningIs(LoadExpr(op, w)); }
    t := Leave(feeble, img, c, t, LoadExpr(op, w), env, lo, hi);
  }

  lemma ReturningIs(e: Expr)
    ensures Returning(e) == Cons(V(0), Cons(e, Nil))
  {
  }

  // ---- pushspadd ----

  lemma PushSpAddSuits()
    ensures Suits(PushSpAdd, 1, Operand1(), PushSpAddCode(), Two())
  {
    hide Safe, Yields, PushSpAddCode;
    assert Cons(V(0), Operand1()) == Two();
    PushSpAddSteps(0);
    PushSpAddSafe();
  }

  lemma PushSpAddRuns(env: Env, sp: word)
    ensures Yields(ScaleAndAdd(), Cons(K(sp), Two()), Other(PopPc, End), Returning(ScaledExpr(sp)))
    ensures Safe(ScaleAndAdd(), 3, 1, 0)
    ensures Height(Cons(K(sp), Two())) == 3 && Height(Two()) == 2
  {
    hide Safe, Yields, ScaleAndAdd;
    PushSpAddSteps(sp);
    PushSpAddSafe();
  }

  function ScaledSp(sp: int, a: int): word {
    Wrap(sp + 4 * a)
  }

  lemma EmulatePushSpAdd(feeble: set<Op>, img: Image, lay: Layout, c: State, a: word, lo: int) returns (t: State)
    requires Valid(c) && c.sp / 4 < RAM_WORDS && a == c.mem[c.sp / 4]
    requires Callable(feeble, img, lay, c, PushSpAdd, 1, lo)
    ensures Returned(feeble, img, c, t, 1, ScaledSp(c.sp, a), lo)
  {
    hide Entry, Suits, Leads, Returned, Operand1, Loaded, Two, ScaledExpr, ScaleAndAdd, Holds;
    hide Safe, Yields, InRam, OnStack, Eval, Height, Fetch, HasRoutine, Returning;
    EntryOne(feeble, img, lay, c, PushSpAdd, lo);
    var env, hi, sp := EntryEnv(feeble, c, lay, 1), c.sp / 4 + 1, c.sp - 4;
    PushSpAddSuits();
    t := RunRoutine(feeble, img, lay, c, PushSpAdd, 1, Operand1(), env, PushSpAddCode(), Two(), lo);
    PushSpAddAt(img, lay, t.pc);
    LeadsKnows(feeble, img, c, t, Two(), env, lo, hi);
    PushSpAddRuns(env, sp);
    var d := ItemPushSp(feeble, img, t, Two(), env, lo, hi);
    LeadsJoin(feeble, img, c, t, d, Two(), env, Cons(K(sp), Two()), env, lo, hi);
    t := Continue(feeble, img, lay, c, d, ScaleAndAdd(), Cons(K(sp), Two()), Other(PopPc, End),
                  Returning(ScaledExpr(sp)), env, lo, hi, 1, 0);
    ReturningIs(ScaledExpr(sp));
    ScaledValue(env, a, c.sp);
    PopPcAt(img, lay, t.pc);
    t := Leave(feeble, img, c, t, ScaledExpr(sp), env, lo, hi);
  }

  lemma PushSpAddAt(img: Image, lay: Layout, a: int)
    requires Holds(img, lay, a, PushSpAddCode())
    ensures OpIn(img, a, PushSp) && Holds(img, lay, a + 1, ScaleAndAdd())
  {
    hide ScaleAndAdd, OpIn;
  }

  lemma PopPcAt(img: Image, lay: Layout, a: int)
    requires Holds(img, lay, a, Other(PopPc, End))
    ensures OpIn(img, a, PopPc)
  {
  }

  // ---- call, callpcrel and poppcrel ----

  /** Control has arrived at pc with sp, having written only inside the window. */
  ghost predicate Landed(feeble: set<Op>, img: Image, c: State, t: State, pc: int, sp: int, lo: int, hi: int) {
    && Valid(c) && Ready(img, t) && Reaches(feeble, c, t)
    && t.pc == pc && t.sp == sp && !t.decodeMask && Frame(c.mem, t.mem, lo, hi)
  }

  lemma LandedFrom(feeble: set<Op>, img: Image, c: State, t: State, s: Stack, env: Env, lo: int, hi: int)
    requires Leads(feeble, img, c, t, s, env, lo, hi) && !t.decodeMask
    ensures Landed(feeble, img, c, t, t.pc, 4 * (hi - Height(s)), lo, hi)
    ensures s.Cons? ==> 0 <= t.sp / 4 < |t.mem| && t.mem[t.sp / 4] == Eval(s.top, env)
  {
    hide InRam, Window, Reaches, Frame, Eval;
    LeadsKnows(feeble, img, c, t, s, env, lo, hi);
  }

  function CallTarget(op: Op): Expr {
    if op == Call then V(1) else RelativeTarget()
  }

  /** Where call and callpcrel, with operand a, and poppcrel continue. */
  function CallGoal(op: Op, pc: int, a: word): int {
    if op == Call then a else Wrap(a + pc)
  }

  lemma CallSuits(op: Op)
    ensures op == Call || op == CallPcRel ==>
      Suits(op, 1, Operand1(), FlushReturn(), Cons(CallTarget(op), Cons(V(0), Nil)))
    ensures op == PopPcRel ==>
      Suits(op, 1, Operand1(), Other(PopPc, End), Cons(CallTarget(op), Nil))
  {
    hide Safe, Yields, CallCode, CallPcRelCode, PopPcRelCode, RelativeTarget, FlushReturn;
    assert Cons(V(0), Operand1()) == Two();
    CallSteps();
    CallSafe();
  }

  lemma CallValue(op: Op, env: Env, pc: int, a: word)
    requires |env.vars| >= 2 && env.vars[0] == pc + 1 && env.vars[1] == a && 0 <= pc < RAM_SIZE
    ensures Eval(CallTarget(op), env) == CallGoal(op, pc, a) && Eval(V(0), env) == pc + 1
  {
    hide RelativeTarget;
    RelativeValue(env, pc, a);
  }

  lemma FlushAt(img: Image, lay: Layout, a: int)
    requires Holds(img, lay, a, FlushReturn())
    ensures OpIn(img, a, PushSp) && OpIn(img, a + 1, PopSp) && OpIn(img, a + 2, PopPc)
  {
    hide OpIn;
  }

  lemma EmulateCall(feeble: set<Op>, img: Image, lay: Layout, c: State, op: Op, lo: int) returns (t: State)
    requires Callable(feeble, img, lay, c, op, 1, lo) && (op == Call || op == CallPcRel)
    requires Valid(c) && c.sp / 4 < RAM_WORDS && CallGoal(op, c.pc, c.mem[c.sp / 4]) <= RAM_SIZE
    ensures Landed(feeble, img, c, t, CallGoal(op, c.pc, c.mem[c.sp / 4]), c.sp, lo, c.sp / 4 + 1)
    ensures |t.mem| == RAM_WORDS && t.mem[c.sp / 4] == c.pc + 1
  {
    hide Entry, Suits, Operand1, Loaded, CallTarget, Holds, FlushReturn, Landed, Frame;
    hide InRam, Window, OnStack, Eval, Fetch, HasRoutine, Reaches, CallGoal, Leads, Knows;
    EntryOne(feeble, img, lay, c, op, lo);
    var env, a, hi := EntryEnv(feeble, c, lay, 1), c.mem[c.sp / 4], c.sp / 4 + 1;
    var s := Cons(V(0), Nil);
    assert Height(s) == 1 && Height(Cons(CallTarget(op), s)) == 2;
    CallSuits(op);
    CallValue(op, env, c.pc, a);
    t := RunRoutine(feeble, img, lay, c, op, 1, Operand1(), env, FlushReturn(), Cons(CallTarget(op), s), lo);
    FlushAt(img, lay, t.pc);
    LeadsKnows(feeble, img, c, t, Cons(CallTarget(op), s), env, lo, hi);
    var d := ItemFlush(feeble, img, t, Cons(CallTarget(op), s), env, lo, hi);
    LeadsJoin(feeble, img, c, t, d, Cons(CallTarget(op), s), env, Cons(CallTarget(op), s), env, lo, hi);
    t := Jump(feeble, img, c, d, Cons(CallTarget(op), s), env, lo, hi);
    LandedFrom(feeble, img, c, t, s, env, lo, hi);
    LeadsKnows(feeble, img, c, t, s, env, lo, hi);
  }

  lemma NilHeight()
    ensures Height(Nil) == 0
  {
  }

  lemma EmulatePopPcRel(feeble: set<Op>, img: Image, lay: Layout, c: State, lo: int) returns (t: State)
    requires Callable(feeble, img, lay, c, PopPcRel, 1, lo)
    requires Valid(c) && c.sp / 4 < RAM_WORDS && CallGoal(PopPcRel, c.pc, c.mem[c.sp / 4]) <= RAM_SIZE
    ensures Landed(feeble, img, c, t, CallGoal(PopPcRel, c.pc, c.mem[c.sp / 4]), c.sp + 4, lo, c.sp / 4 + 1)
  {
    hide Callable, Two, Routine, Depth, Rank, Height, FlushReturn;
    hide Entry, Suits, Operand1, Loaded, CallTarget, Holds, Landed, Frame;
    hide InRam, Window, OnStack, Eval, Fetch, HasRoutine, Reaches, CallGoal, Leads, Knows;
    EntryOne(feeble, img, lay, c, PopPcRel, lo);
    var env, a, hi := EntryEnv(feeble, c, lay, 1), c.mem[c.sp / 4], c.sp / 4 + 1;
    CallSuits(PopPcRel);
    CallValue(PopPcRel, env, c.pc, a);
    t := RunRoutine(feeble, img, lay, c, PopPcRel, 1, Operand1(), env, Other(PopPc, End), Cons(CallTarget(PopPcRel), Nil), lo);
    PopPcAt(img, lay, t.pc);
    t := Jump(feeble, img, c, t, Cons(CallTarget(PopPcRel), Nil), env, lo, hi);
    assert Height(Nil) == 0 by { NilHeight(); }
    LandedFrom(feeble, img, c, t, Nil, env, lo, hi);
  }

  // ---- storeb and storeh ----

  /** Effective stores: in RAM, even for halves, to a word outside the scratch space and the image. */
  ghost predicate Storable(img: Image, op: Op, a: word, lo: int, hi: int) {
    && (op == StoreB || (op == StoreH && a % 2 == 0)) && a < RAM_SIZE
    && !(lo <= a / 4 < hi - 2) && a / 4 !in img
  }

  function StoreResult(op: Op, w: word, k: int, v: word): word
    requires 0 <= k < 4
  {
    if op == StoreB then SetByte(w, k, v) else SetHalf(w, if k < 2 then 0 else 2, v)
  }

  /** At the store instruction of the tail: the word address, the new word and the entry stack. */
  ghost predicate AtStore(feeble: set<Op>, img: Image, lay: Layout, c: State, d: State, env: Env, y: Expr, lo: int, hi: int) {
    && Leads(feeble, img, c, d, Cons(ByteAddress(), Cons(y, Three())), env, lo, hi)
    && Holds(img, lay, d.pc, Other(Store, Drop2()))
  }

  /** The store and the epilogue, from the tail both routines share. */
  lemma FinishStore(feeble: set<Op>, img: Image, lay: Layout, c: State, d: State, env: Env, y: Expr, a: word, lo: int, hi: int)
    returns (t: State)
    requires Loaded(img, lay) && AtStore(feeble, img, lay, c, d, env, y, lo, hi) && env.lay == lay && env.feeble == feeble
    requires |env.vars| == 3 && env.vars[0] == c.pc + 1 <= RAM_SIZE && env.vars[1] == a
    requires a < RAM_SIZE && !(lo <= a / 4 < hi - 2) && a / 4 !in img && |c.mem| == RAM_WORDS && lo + 3 <= hi
    ensures Valid(c) && Ready(img, t) && Reaches(feeble, c, t)
    ensures t.pc == c.pc + 1 && t.sp == 4 * hi && !t.decodeMask
    ensures Frame(c.mem[a / 4 := Eval(y, env)], t.mem, lo, hi)
  {
    hide Leads, Knows, Loaded, Eval, ByteAddress, Drop2, Frame, InRam, Window, Reaches, Safe;
    hide Yields, OnStack, Holds, ReturnOver;
    StoreAt(img, lay, d.pc);
    var e := ItemStore(feeble, img, c, d, env, y, a, lo, hi);
    var s := ReturnOver(e.mem[hi - 2], e.mem[hi - 1]);
    DropSteps(e.mem[hi - 2], e.mem[hi - 1]);
    StayPut(feeble, img, e, s, env, lo, hi);
    t := Continue(feeble, img, lay, e, e, Drop2(), s, Other(PopPc, End), Cons(V(0), Nil), env, lo, hi, 0, 0);
    PopPcAt(img, lay, t.pc);
    VarValue(env, 0);
    t := Jump(feeble, img, e, t, Cons(V(0), Nil), env, lo, hi);
    LandedFrom(feeble, img, e, t, Nil, env, lo, hi);
    ReachesJoin(feeble, c, e, t);
    FrameJoin(c.mem[a / 4 := Eval(y, env)], e.mem, t.mem, lo, hi);
  }

  lemma FrameJoin(x: seq<word>, y: seq<word>, z: seq<word>, lo: int, hi: int)
    requires Frame(x, y, lo, hi) && Frame(y, z, lo, hi)
    ensures Frame(x, z, lo, hi)
  {
  }

  lemma StoreAt(img: Image, lay: Layout, a: int)
    requires Holds(img, lay, a, Other(Store, Drop2()))
    ensures OpIn(img, a, Store) && Holds(img, lay, a + 1, Drop2())
  {
    hide Drop2, OpIn;
  }

  lemma ItemStore(feeble: set<Op>, img: Image, c: State, d: State, env: Env, y: Expr, a: word, lo: int, hi: int)
    returns (e: State)
    requires Leads(feeble, img, c, d, Cons(ByteAddress(), Cons(y, Three())), env, lo, hi) && OpIn(img, d.pc, Store)
    requires |env.vars| == 3 && env.vars[1] == a && |c.mem| == RAM_WORDS
    requires a < RAM_SIZE && !(lo <= a / 4 < hi - 2) && a / 4 !in img
    ensures 3 <= hi <= RAM_WORDS == |e.mem|
    ensures Valid(c) && Reaches(feeble, c, e) && Knows(img, e, ReturnOver(e.mem[hi - 2], e.mem[hi - 1]), env, lo, hi)
    ensures e.pc == d.pc + 1 && !e.decodeMask && Frame(c.mem[a / 4 := Eval(y, env)], e.mem, lo, hi)
  {
    hide Step, Effect, Eval, ByteAddress, Reaches;
    var s := Cons(ByteAddress(), Cons(y, Three()));
    assert Height(Cons(y, Three())) == 4;
    AddressValue(env, a);
    FetchImage(img, d, Store);
    OnStackNth(d.mem, d.sp / 4, s, env, 1);
    StepStore(feeble, d);
    ReachesThen(feeble, c, d);
    e := Step(feeble, d).c;
    assert OnStack(d.mem, d.sp / 4 + 1, Cons(y, Three()), env);
    assert OnStack(d.mem, d.sp / 4 + 2, Three(), env);
    ReturnKnown(e.mem, hi, env);
  }

  lemma ReturnKnown(mem: seq<word>, hi: int, env: Env)
    requires 3 <= hi <= |mem| && mem[hi - 3] == Eval(V(0), env)
    ensures OnStack(mem, hi - 3, ReturnOver(mem[hi - 2], mem[hi - 1]), env) && Height(ReturnOver(mem[hi - 2], mem[hi - 1])) == 3
  {
    var s := Cons(K(mem[hi - 2]), Cons(K(mem[hi - 1]), Nil));
    assert OnStack(mem, hi - 1, s.below, env) && Height(s.below) == 1;
    assert OnStack(mem, hi - 2, s, env) && Height(s) == 2;
  }

  lemma StoreBSuits()
    ensures Suits(StoreB, 2, Operands2(), Other(Load, StoreBMask()), Cons(ByteAddress(), Three()))
  {
    hide Safe, Yields, StoreBCode, StoreBMask;
    assert Cons(V(0), Operands2()) == Three();
    StoreBStarts(0, 0);
    StoreBStartsSafe();
  }

  lemma StoreHSuits()
    ensures Suits(StoreH, 2, Operands2(), Other(Load, StoreHMask()), Cons(HalfAddress(), Three()))
  {
    hide Safe, Yields, StoreHCode, StoreHMask;
    assert Cons(V(0), Operands2()) == Three();
    StoreHStarts(0);
    StoreHStartsSafe();
  }

  lemma StoreHeights(x: Expr, y: Expr, z: Expr)
    ensures Height(Three()) == 3 && Height(Cons(x, Three())) == 4 && Height(Cons(x, Cons(y, Three()))) == 5
    ensures Height(Cons(x, Cons(y, Cons(z, Three())))) == 6
  {
    assert Height(Three()) == 3;
    assert Height(Cons(x, Three())) == 4 && Height(Cons(y, Three())) == 4 && Height(Cons(z, Three())) == 4;
    assert Height(Cons(x, Cons(y, Three()))) == 5 && Height(Cons(y, Cons(z, Three()))) == 5;
  }

  lemma LoadAt(img: Image, lay: Layout, a: int, code: Code)
    requires Holds(img, lay, a, Other(Load, code))
    ensures OpIn(img, a, Load) && Holds(img, lay, a + 1, code)
  {
  }

  /** A load in a routine, of a word that still holds what it held at entry. */
  lemma LoadNext(feeble: set<Op>, img: Image, lay: Layout, c: State, d: State, e: Expr, s: Stack, code: Code,
                 env: Env, a: int, lo: int, hi: int)
    returns (t: State)
    requires Leads(feeble, img, c, d, Cons(e, s), env, lo, hi) && Holds(img, lay, d.pc, Other(Load, code))
    requires Eval(e, env) == 4 * a && 0 <= a < RAM_WORDS && |c.mem| == RAM_WORDS == |d.mem| && d.mem[a] == c.mem[a]
    ensures Leads(feeble, img, c, t, Cons(K(c.mem[a]), s), env, lo, hi) && Holds(img, lay, t.pc, code) && !t.decodeMask
  {
    hide Knows, Eval, Holds, InRam, Reaches;
    LoadAt(img, lay, d.pc, code);
    LeadsKnows(feeble, img, c, d, Cons(e, s), env, lo, hi);
    t := ItemLoad(feeble, img, d, Cons(e, s), env, lo, hi);
    LeadsJoin(feeble, img, c, d, t, Cons(e, s), env, Cons(K(c.mem[a]), s), env, lo, hi);
  }

  /** poppc to a tail whose address is on top. */
  lemma JumpTail(feeble: set<Op>, img: Image, lay: Layout, c: State, d: State, r: Symbol, s: Stack, env: Env, lo: int, hi: int)
    returns (t: State)
    requires Leads(feeble, img, c, d, Cons(Ref(r), s), env, lo, hi) && Holds(img, lay, d.pc, Other(PopPc, End))
    requires env.lay == lay && Address(r, lay) <= RAM_SIZE
    ensures Leads(feeble, img, c, t, s, env, lo, hi) && t.pc == Address(r, lay) && !t.decodeMask
  {
    hide Leads, Holds;
    PopPcAt(img, lay, d.pc);
    t := Jump(feeble, img, c, d, Cons(Ref(r), s), env, lo, hi);
  }

  lemma Tails(img: Image, lay: Layout)
    requires Loaded(img, lay)
    ensures lay.storeBTail <= RAM_SIZE && Holds(img, lay, lay.storeBTail, StoreBTail())
    ensures lay.storeHTail <= RAM_SIZE && Holds(img, lay, lay.storeHTail, StoreHTail())
  {
    hide Routine, ShiftTable, SlowMult, LoopOffset, MaskTable, Holds;
  }

  /** The mask table lies in the image, outside every window. */
  lemma MaskTableWord(img: Image, lay: Layout, c: State, lo: int, hi: int, k: nat)
    requires Loaded(img, lay) && Ready(img, c) && Window(img, lo, hi) && k < 4
    ensures lay.mask % 4 == 0 && lay.mask + 16 <= RAM_SIZE && |c.mem| == RAM_WORDS
    ensures !(lo <= lay.mask / 4 + k < hi) && c.mem[lay.mask / 4 + k] == MaskWord(k)
  {
    hide Routine, ShiftTable, SlowMult, LoopOffset, Holds, StoreBTail, StoreHTail;
  }

  /** Words outside the scratch space still hold what they held at entry, the operands included. */
  lemma OperandsKept(feeble: set<Op>, img: Image, lay: Layout, c: State, d: State, e: Expr, lo: int, i: int)
    requires Valid(c) && c.sp / 4 + 2 <= RAM_WORDS && 0 <= i < RAM_WORDS && !(lo <= i < c.sp / 4)
    requires Leads(feeble, img, c, d, Cons(e, Three()), EntryEnv(feeble, c, lay, 2), lo, c.sp / 4 + 2)
    ensures |d.mem| == RAM_WORDS && d.mem[i] == c.mem[i]
  {
    hide InRam, Window, Reaches;
    var s, env := Cons(e, Three()), EntryEnv(feeble, c, lay, 2);
    assert Height(s) == 4;
    assert OnStack(d.mem, d.sp / 4 + 1, Three(), env);
    OnStackNth(d.mem, d.sp / 4, s, env, 2);
    OnStackNth(d.mem, d.sp / 4, s, env, 3);
  }

  lemma KeptOutside(feeble: set<Op>, img: Image, c: State, d: State, s: Stack, env: Env, lo: int, hi: int, i: int)
    requires Leads(feeble, img, c, d, s, env, lo, hi) && 0 <= i < RAM_WORDS && !(lo <= i < hi)
    ensures |d.mem| == RAM_WORDS == |c.mem| && d.mem[i] == c.mem[i]
  {
    hide InRam, Window, Reaches, OnStack;
  }

  lemma StoreBTop(feeble: set<Op>, img: Image, lay: Layout, c: State, lo: int, a: word) returns (d: State)
    requires Valid(c) && c.sp / 4 + 2 <= RAM_WORDS && a == c.mem[c.sp / 4] && a < RAM_SIZE
    requires Callable(feeble, img, lay, c, StoreB, 2, lo) && !(lo <= a / 4 < c.sp / 4)
    ensures Leads(feeble, img, c, d, Cons(ByteCleared(MaskWord(a % 4), c.mem[a / 4]), Three()),
                  EntryEnv(feeble, c, lay, 2), lo, c.sp / 4 + 2)
    ensures d.pc == lay.storeBTail && !d.decodeMask
  {
    hide Entry, Suits, Leads, Operands2, Loaded, Holds, Frame, InRam, Eval, Fetch, HasRoutine, Three, Height;
    hide ByteAddress, MaskAddress, StoreBMask, StoreBClear, ByteCleared, Safe, Yields, MaskWord;
    EntryTwo(feeble, img, lay, c, StoreB, lo);
    var env, hi, k, w, m := EntryEnv(feeble, c, lay, 2), c.sp / 4 + 2, a % 4, c.mem[a / 4], MaskWord(a % 4);
    StoreBSuits();
    d := RunRoutine(feeble, img, lay, c, StoreB, 2, Operands2(), env, Other(Load, StoreBMask()), Cons(ByteAddress(), Three()), lo);
    AddressValue(env, a);
    OperandsKept(feeble, img, lay, c, d, ByteAddress(), lo, a / 4);
    d := LoadNext(feeble, img, lay, c, d, ByteAddress(), Three(), StoreBMask(), env, a / 4, lo, hi);
    StoreBStarts(w, m);
    StoreBStartsSafe();
    StoreHeights(K(w), K(m), K(m));
    StoreHeights(K(m), K(w), K(w));
    d := Continue(feeble, img, lay, c, d, StoreBMask(), Cons(K(w), Three()), Other(Load, StoreBClear()),
                  Cons(MaskAddress(), Cons(K(w), Three())), env, lo, hi, 6, 1);
    MaskTableWord(img, lay, c, lo, hi, k);
    MaskAddressValue(env, a);
    KeptOutside(feeble, img, c, d, Cons(MaskAddress(), Cons(K(w), Three())), env, lo, hi, lay.mask / 4 + k);
    d := LoadNext(feeble, img, lay, c, d, MaskAddress(), Cons(K(w), Three()), StoreBClear(), env, lay.mask / 4 + k, lo, hi);
    d := Continue(feeble, img, lay, c, d, StoreBClear(), Cons(K(m), Cons(K(w), Three())), Other(PopPc, End),
                  Cons(Ref(STOREB_TAIL), Cons(ByteCleared(m, w), Three())), env, lo, hi, 5, 1);
    Tails(img, lay);
    d := JumpTail(feeble, img, lay, c, d, STOREB_TAIL, Cons(ByteCleared(m, w), Three()), env, lo, hi);
  }

  lemma StoreHTop(feeble: set<Op>, img: Image, lay: Layout, c: State, lo: int, a: word) returns (d: State)
    requires Valid(c) && c.sp / 4 + 2 <= RAM_WORDS && a == c.mem[c.sp / 4] && a < RAM_SIZE && a % 2 == 0
    requires Callable(feeble, img, lay, c, StoreH, 2, lo) && !(lo <= a / 4 < c.sp / 4)
    ensures Leads(feeble, img, c, d, Cons(K(0xffff), Cons(V(2), Cons(HalfCleared(c.mem[a / 4]), Three()))),
                  EntryEnv(feeble, c, lay, 2), lo, c.sp / 4 + 2)
    ensures d.pc == lay.storeHTail && !d.decodeMask
  {
    hide Entry, Suits, Leads, Operands2, Loaded, Holds, Frame, InRam, Eval, Fetch, HasRoutine, Three, Height;
    hide HalfAddress, StoreHMask, HalfCleared, Safe, Yields;
    EntryTwo(feeble, img, lay, c, StoreH, lo);
    var env, hi, w := EntryEnv(feeble, c, lay, 2), c.sp / 4 + 2, c.mem[a / 4];
    var s := Cons(K(0xffff), Cons(V(2), Cons(HalfCleared(w), Three())));
    StoreHSuits();
    d := RunRoutine(feeble, img, lay, c, StoreH, 2, Operands2(), env, Other(Load, StoreHMask()), Cons(HalfAddress(), Three()), lo);
    AddressValue(env, a);
    OperandsKept(feeble, img, lay, c, d, HalfAddress(), lo, a / 4);
    d := LoadNext(feeble, img, lay, c, d, HalfAddress(), Three(), StoreHMask(), env, a / 4, lo, hi);
    StoreHStarts(w);
    StoreHMaskSafe();
    StoreHeights(K(w), K(w), K(w));
    d := Continue(feeble, img, lay, c, d, StoreHMask(), Cons(K(w), Three()), Other(PopPc, End),
                  Cons(Ref(STOREH_TAIL), s), env, lo, hi, 7, 1);
    Tails(img, lay);
    d := JumpTail(feeble, img, lay, c, d, STOREH_TAIL, s, env, lo, hi);
  }

  lemma StoreBBottom(feeble: set<Op>, img: Image, lay: Layout, c: State, d: State, e: Expr, env: Env, a: word, lo: int, hi: int)
    returns (t: State)
    requires Loaded(img, lay) && Leads(feeble, img, c, d, Cons(e, Three()), env, lo, hi) && env.lay == lay && env.feeble == feeble
    requires d.pc == lay.storeBTail && !d.decodeMask && |env.vars| >= 2 && env.vars[1] == a && lo + 10 <= hi
    ensures AtStore(feeble, img, lay, c, t, env, Inserted(Times8(Back(3)), 255, e), lo, hi)
  {
    hide Leads, Loaded, Holds, Eval, Three, Height, StoreBTail, Safe, Yields, Inserted, Times8, Drop2, ByteAddress;
    Tails(img, lay);
    StoreBTailSteps(e);
    StoreBTailSafe();
    StoreHeights(e, e, e);
    t := Continue(feeble, img, lay, c, d, StoreBTail(), Cons(e, Three()), Other(Store, Drop2()),
                  Cons(ByteAddress(), Cons(Inserted(Times8(Back(3)), 255, e), Three())), env, lo, hi, 6, 1);
  }

  lemma StoreHBottom(feeble: set<Op>, img: Image, lay: Layout, c: State, d: State, e: Expr, env: Env, a: word, lo: int, hi: int)
    returns (t: State)
    requires Loaded(img, lay) && env.lay == lay && env.feeble == feeble
    requires Leads(feeble, img, c, d, Cons(K(0xffff), Cons(V(2), Cons(e, Three()))), env, lo, hi)
    requires d.pc == lay.storeHTail && !d.decodeMask && |env.vars| >= 2 && env.vars[1] == a && a % 2 == 0 && lo + 11 <= hi
    ensures AtStore(feeble, img, lay, c, t, env, Inserted(HalfShift(), 0xffff, e), lo, hi)
  {
    hide Leads, Loaded, Holds, Eval, Three, Height, StoreHTail, Safe, Yields, Inserted, HalfShift, Drop2, ByteAddress;
    Tails(img, lay);
    StoreHTailSteps(e);
    StoreHTailSafe();
    StoreHeights(K(0xffff), V(2), e);
    t := Continue(feeble, img, lay, c, d, StoreHTail(), Cons(K(0xffff), Cons(V(2), Cons(e, Three()))), Other(Store, Drop2()),
                  Cons(ByteAddress(), Cons(Inserted(HalfShift(), 0xffff, e), Three())), env, lo, hi, 5, 1);
  }

  /** Storing a byte or a half through the routine replaces exactly those bytes of one word. */
  lemma EmulateStore(feeble: set<Op>, img: Image, lay: Layout, c: State, op: Op, a: word, b: word, lo: int)
    returns (t: State)
    requires Valid(c) && c.sp / 4 + 2 <= RAM_WORDS && a == c.mem[c.sp / 4] && b == c.mem[c.sp / 4 + 1]
    requires Callable(feeble, img, lay, c, op, 2, lo) && Storable(img, op, a, lo, c.sp / 4 + 2)
    ensures Valid(c) && Ready(img, t) && Reaches(feeble, c, t)
    ensures t.pc == c.pc + 1 && t.sp == c.sp + 8 && !t.decodeMask
    ensures Frame(c.mem[a / 4 := StoreResult(op, c.mem[a / 4], a % 4, b)], t.mem, lo, c.sp / 4 + 2)
  {
    hide Leads, Loaded, Holds, Eval, Frame, InRam, Fetch, Inserted, ByteCleared, HalfCleared, Reaches, AtStore, SetByte, SetHalf;
    EntryTwo(feeble, img, lay, c, op, lo);
    StoreRoom(feeble, img, lay, c, op, lo);
    var env, hi, w := EntryEnv(feeble, c, lay, 2), c.sp / 4 + 2, c.mem[a / 4];
    if op == StoreB {
      var d := StoreBTop(feeble, img, lay, c, lo, a);
      d := StoreBBottom(feeble, img, lay, c, d, ByteCleared(MaskWord(a % 4), w), env, a, lo, hi);
      StoreBValue(env, c.pc + 1, a, b, w);
      t := FinishStore(feeble, img, lay, c, d, env, Inserted(Times8(Back(3)), 255, ByteCleared(MaskWord(a % 4), w)), a, lo, hi);
    } else {
      var d := StoreHTop(feeble, img, lay, c, lo, a);
      d := StoreHBottom(feeble, img, lay, c, d, HalfCleared(w), env, a, lo, hi);
      StoreHValue(env, c.pc + 1, a, b, w);
      t := FinishStore(feeble, img, lay, c, d, env, Inserted(HalfShift(), 0xffff, HalfCleared(w)), a, lo, hi);
    }
  }

  lemma StoreRoom(feeble: set<Op>, img: Image, lay: Layout, c: State, op: Op, lo: int)
    requires Callable(feeble, img, lay, c, op, 2, lo) && (op == StoreB || op == StoreH)
    ensures lo + (if op == StoreB then 10 else 11) <= c.sp / 4 + 2
  {
    hide Loaded, InRam, Window, Fetch, HasRoutine;
  }
}
