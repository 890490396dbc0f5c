/** The emulation code runs on the machine as the symbolic execution predicts, whichever
    of the instructions it uses are themselves emulated. */
module CodeRuns {
  import opened Words
  import opened Isa
  import opened Cpu
  import opened Runs
  import opened Crt0
  import opened StackCode
  import opened Images

  /** Every routine is at its vector, and the text and data they share where the layout says. */
  ghost predicate Loaded(img: Image, lay: Layout) {
    && (forall op :: HasRoutine(op) ==> Holds(img, lay, (EmulateCode(op) - 32) * VECTOR_SIZE, Routine(op)))
    && 31 <= lay.shiftEnd <= RAM_SIZE && Holds(img, lay, lay.shiftEnd - 31, ShiftTable(31))
    && lay.slowMult <= RAM_SIZE && Holds(img, lay, lay.slowMult, SlowMult())
    && lay.storeBTail <= RAM_SIZE && Holds(img, lay, lay.storeBTail, StoreBTail())
    && lay.storeHTail <= RAM_SIZE && Holds(img, lay, lay.storeHTail, StoreHTail())
    && LoopOffset(img, lay)
    && MaskTable(img, lay)
  }

  /** The loop branch of _slowmultImpl is encoded relative to its own address. */
  ghost predicate LoopOffset(img: Image, lay: Layout) {
    BranchAddress(img, lay.slowMult, SlowMult()) + lay.moreMult - M == LoopAddress(img, lay)
  }

  ghost function LoopAddress(img: Image, lay: Layout): int {
    AfterIm(img, lay.slowMult + 2)
  }

  /** The address of the first instruction that stops straight-line execution. */
  ghost function BranchAddress(img: Image, a: int, code: Code): int
    decreases code
  {
    match code
    case End => a
    case Other(op, next) => a
    case Imm(v, next) => BranchAddress(img, AfterIm(img, a), next)
    case ImmOf(s, next) => BranchAddress(img, AfterIm(img, a), next)
    case Loadsp(k, next) => BranchAddress(img, a + 1, next)
    case Storesp(k, next) => BranchAddress(img, a + 1, next)
    case Addsp(k, next) => BranchAddress(img, a + 1, next)
    case Un(g, next) => BranchAddress(img, a + 1, next)
    case Bin(f, next) => BranchAddress(img, a + 1, next)
    case Noop(next) => BranchAddress(img, a + 1, next)
  }

  /** _mask: word k has byte k clear and the others set. */
  ghost predicate MaskTable(img: Image, lay: Layout) {
    && lay.mask % 4 == 0 && lay.mask + 16 <= RAM_SIZE
    && lay.mask / 4 in img && lay.mask / 4 + 1 in img && lay.mask / 4 + 2 in img && lay.mask / 4 + 3 in img
    && img[lay.mask / 4] == 0x00ff_ffff && img[lay.mask / 4 + 1] == 0xff00_ffff
    && img[lay.mask / 4 + 2] == 0xffff_00ff && img[lay.mask / 4 + 3] == 0xffff_ff00
  }

  /** The machine at c holds the words s at the top of its stack; lo..hi is its scratch window. */
  ghost predicate Knows(img: Image, c: State, s: Stack, env: Env, lo: int, hi: int) {
    && Ready(img, c) && Window(img, lo, hi)
    && lo <= c.sp / 4 && c.sp / 4 + Height(s) == hi
    && OnStack(c.mem, c.sp / 4, s, env)
  }

  /** From c the machine reaches t, which holds s, having written only inside the window. */
  ghost predicate Leads(feeble: set<Op>, img: Image, c: State, t: State, s: Stack, env: Env, lo: int, hi: int) {
    Valid(c) && Reaches(feeble, c, t) && Knows(img, t, s, env, lo, hi) && Frame(c.mem, t.mem, lo, hi)
  }

  lemma LeadsJoin(feeble: set<Op>, img: Image, c: State, d: State, t: State, s0: Stack, env0: Env, s: Stack,
                  env: Env, lo: int, hi: int)
    requires Leads(feeble, img, c, d, s0, env0, lo, hi) && Leads(feeble, img, d, t, s, env, lo, hi)
    ensures Leads(feeble, img, c, t, s, env, lo, hi)
  {
    ReachesJoin(feeble, c, d, t);
  }

  lemma LeadsKnows(feeble: set<Op>, img: Image, c: State, t: State, s: Stack, env: Env, lo: int, hi: int)
    requires Leads(feeble, img, c, t, s, env, lo, hi)
    ensures Valid(c) && Valid(t) && Knows(img, t, s, env, lo, hi) && t.sp == 4 * (hi - Height(s))
  {
    hide InRam, Window, Reaches, Frame, OnStack, Height;
  }

  lemma StayPut(feeble: set<Op>, img: Image, c: State, s: Stack, env: Env, lo: int, hi: int)
    requires Knows(img, c, s, env, lo, hi)
    ensures Leads(feeble, img, c, c, s, env, lo, hi)
  {
    ReachesSelf(feeble, c);
  }

  // ---- One item of straight-line code ----

  lemma ItemLoadsp(feeble: set<Op>, img: Image, c: State, k: nat, s: Stack, env: Env, lo: int, hi: int)
    returns (t: State)
    requires Knows(img, c, s, env, lo, hi) && OpIn(img, c.pc, LoadSp(k)) && k < Height(s) && lo < c.sp / 4
    ensures Leads(feeble, img, c, t, Cons(Nth(s, k), s), env, lo, hi) && t.pc == c.pc + 1 && !t.decodeMask
    ensures t.sp == c.sp - 4
  {
    hide Step, Effect;
    FetchImage(img, c, LoadSp(k));
    OnStackNth(c.mem, c.sp / 4, s, env, k);
    StepLoadSp(feeble, c, k);
    ReachesStep(feeble, c);
    OnStackPush(c.mem, c.sp / 4, s, env, Nth(s, k));
    t := Step(feeble, c).c;
  }

  lemma ItemStoresp(feeble: set<Op>, img: Image, c: State, k: nat, s: Stack, env: Env, lo: int, hi: int)
    returns (t: State)
    requires Knows(img, c, s, env, lo, hi) && OpIn(img, c.pc, StoreSp(k)) && 1 <= k < Height(s)
    ensures Leads(feeble, img, c, t, Put(s.below, k - 1, s.top), env, lo, hi) && t.pc == c.pc + 1 && !t.decodeMask
    ensures t.sp == c.sp + 4
  {
    hide Step, Effect;
    FetchImage(img, c, StoreSp(k));
    StepStoreSp(feeble, c, k);
    ReachesStep(feeble, c);
    OnStackPut(c.mem, c.sp / 4 + 1, s.below, env, k - 1, s.top);
    t := Step(feeble, c).c;
  }

  /** Replacing the top word. */
  lemma OnStackTop(mem: seq<word>, i: int, s: Stack, env: Env, e: Expr)
    requires OnStack(mem, i, s, env) && s.Cons?
    ensures OnStack(mem[i := Eval(e, env)], i, Cons(e, s.below), env)
  {
    OnStackSame(mem, mem[i := Eval(e, env)], i + 1, s.below, env);
  }

  lemma ItemAddsp(feeble: set<Op>, img: Image, c: State, k: nat, s: Stack, env: Env, lo: int, hi: int)
    returns (t: State)
    requires Knows(img, c, s, env, lo, hi) && OpIn(img, c.pc, AddSp(k)) && k < Height(s)
    ensures Leads(feeble, img, c, t, Cons(B(Add, s.top, Nth(s, k)), s.below), env, lo, hi)
    ensures t.pc == c.pc + 1 && t.sp == c.sp && !t.decodeMask
  {
    hide Step, Effect;
    FetchImage(img, c, AddSp(k));
    OnStackNth(c.mem, c.sp / 4, s, env, k);
    StepAddSp(feeble, c, k);
    ReachesStep(feeble, c);
    OnStackTop(c.mem, c.sp / 4, s, env, B(Add, s.top, Nth(s, k)));
    t := Step(feeble, c).c;
  }

  lemma ItemNoop(feeble: set<Op>, img: Image, c: State, s: Stack, env: Env, lo: int, hi: int)
    returns (t: State)
    requires Knows(img, c, s, env, lo, hi) && OpIn(img, c.pc, Nop)
    ensures Leads(feeble, img, c, t, s, env, lo, hi) && t.pc == c.pc + 1 && t.sp == c.sp && !t.decodeMask
  {
    hide Step, Effect;
    FetchImage(img, c, Nop);
    StepNop(feeble, c);
    ReachesStep(feeble, c);
    t := Step(feeble, c).c;
  }

  lemma ItemIm(feeble: set<Op>, img: Image, c: State, e: Expr, s: Stack, env: Env, lo: int, hi: int)
    returns (t: State)
    requires Knows(img, c, s, env, lo, hi) && ImIn(img, c.pc, Eval(e, env)) && lo < c.sp / 4 && !c.decodeMask
    ensures Leads(feeble, img, c, t, Cons(e, s), env, lo, hi) && t.pc == AfterIm(img, c.pc) && t.sp == c.sp - 4
    ensures Run(feeble, c, |ImGroups(img, c.pc)|) == Ran(t)
  {
    hide Reaches, Run, ImIn, Eval;
    t := State(AfterIm(img, c.pc), c.sp - 4, true, c.mem[c.sp / 4 - 1 := Eval(e, env)]);
    RunIm(feeble, img, c, Eval(e, env));
    OnStackPush(c.mem, c.sp / 4, s, env, e);
  }

  lemma ItemUn(feeble: set<Op>, img: Image, c: State, g: Alu1, s: Stack, env: Env, lo: int, hi: int)
    returns (t: State)
    requires Knows(img, c, s, env, lo, hi) && OpIn(img, c.pc, Unary(g)) && s.Cons?
    requires Unary(g) !in feeble || !HasRoutine(Unary(g))
    ensures Leads(feeble, img, c, t, Cons(U(g, s.top), s.below), env, lo, hi)
    ensures t.pc == c.pc + 1 && t.sp == c.sp && !t.decodeMask
  {
    hide Step, Effect, Alu1Value;
    FetchImage(img, c, Unary(g));
    StepUnary(feeble, c, g);
    ReachesStep(feeble, c);
    OnStackTop(c.mem, c.sp / 4, s, env, U(g, s.top));
    t := Step(feeble, c).c;
  }

  lemma ComputedNatively(feeble: set<Op>, f: Alu2, a: word, b: word)
    requires Binary(f) !in feeble || !HasRoutine(Binary(f))
    ensures Computed(feeble, f, a, b) == Alu2Value(f, a, b)
  {
  }

  lemma ItemBin(feeble: set<Op>, img: Image, c: State, f: Alu2, s: Stack, env: Env, lo: int, hi: int)
    returns (t: State)
    requires Knows(img, c, s, env, lo, hi) && OpIn(img, c.pc, Binary(f)) && s.Cons? && s.below.Cons?
    requires env.feeble == feeble
    requires Binary(f) !in feeble || !HasRoutine(Binary(f))
    ensures Leads(feeble, img, c, t, Cons(B(f, s.top, s.below.top), s.below.below), env, lo, hi)
    ensures t.pc == c.pc + 1 && t.sp == c.sp + 4 && !t.decodeMask
  {
    hide Step, Effect, Alu2Value, Computed, HasRoutine, Reaches;
    FetchImage(img, c, Binary(f));
    assert Height(s) == 2 + Height(s.below.below);
    assert OnStack(c.mem, c.sp / 4 + 1, s.below, env);
    StepBinary(feeble, c, f);
    ComputedNatively(feeble, f, c.mem[c.sp / 4], c.mem[c.sp / 4 + 1]);
    ReachesStep(feeble, c);
    var e := B(f, s.top, s.below.top);
    OnStackTop(c.mem, c.sp / 4 + 1, s.below, env, e);
    t := Step(feeble, c).c;
    assert t.mem == c.mem[c.sp / 4 + 1 := Eval(e, env)];
    assert Height(Cons(e, s.below.below)) == 1 + Height(s.below.below);
  }

  // ---- Entering a vector and leaving it ----

  /** Control has returned from emulating an instruction: its result is in place. */
  ghost predicate Returned(feeble: set<Op>, img: Image, c: State, t: State, pops: nat, v: word, lo: int) {
    && Valid(c) && Ready(img, t) && Reaches(feeble, c, t)
    && t.pc == c.pc + 1 && t.sp == c.sp + 4 * (pops - 1) && !t.decodeMask
    && 0 <= t.sp / 4 < RAM_WORDS && t.mem[t.sp / 4] == v
    && Frame(c.mem, t.mem, lo, c.sp / 4 + pops)
  }

  lemma Vector(img: Image, lay: Layout, c: State, op: Op)
    requires Loaded(img, lay) && HasRoutine(op) && Valid(c) && Fetch(c) == Got(op)
    ensures Emulatable(op) && 34 <= EmulateCode(op) <= 63 && c.pc + 1 < M
    ensures Holds(img, lay, (EmulateCode(op) - 32) * VECTOR_SIZE, Routine(op))
  {
    hide Holds, Routine, Decode;
  }

  /** emulate() pushes the return address and continues at the routine. */
  lemma Enter(feeble: set<Op>, img: Image, lay: Layout, c: State, op: Op, s: Stack, env: Env, lo: int, hi: int)
    returns (d: State)
    requires Loaded(img, lay) && Knows(img, c, s, env, lo, hi) && lo < c.sp / 4
    requires Fetch(c) == Got(op) && op in feeble && HasRoutine(op)
    requires |env.vars| > 0 && env.vars[0] == c.pc + 1 && StillThere(c, op)
    ensures Leads(feeble, img, c, d, Cons(V(0), s), env, lo, hi)
    ensures Holds(img, lay, d.pc, Routine(op)) && d.sp == c.sp - 4 && !d.decodeMask
  {
    hide Step, Effect, Routine, Holds, EmulateCode, Emulatable, HasRoutine, Fetch, Loaded, StillThere;
    Vector(img, lay, c, op);
    StepEmulate(feeble, c, op);
    ReachesStep(feeble, c);
    assert Eval(V(0), env) == c.pc + 1;
    OnStackPush(c.mem, c.sp / 4, s, env, V(0));
    d := Step(feeble, c).c;
  }

  /** poppc with a known target. */
  lemma Jump(feeble: set<Op>, img: Image, c: State, t: State, s: Stack, env: Env, lo: int, hi: int)
    returns (u: State)
    requires Leads(feeble, img, c, t, s, env, lo, hi) && OpIn(img, t.pc, PopPc)
    requires s.Cons? && Eval(s.top, env) <= RAM_SIZE
    ensures Leads(feeble, img, c, u, s.below, env, lo, hi)
    ensures u.pc == Eval(s.top, env) && u.sp == t.sp + 4 && !u.decodeMask
    ensures Valid(t) && Reaches(feeble, t, u) && u.mem == t.mem
  {
    hide Step, Effect, Eval;
    FetchImage(img, t, PopPc);
    StepPopPc(feeble, t);
    ReachesStep(feeble, t);
    ReachesThen(feeble, c, t);
    u := Step(feeble, t).c;
  }

  lemma Leave(feeble: set<Op>, img: Image, c: State, t: State, e: Expr, env: Env, lo: int, hi: int)
    returns (u: State)
    requires Leads(feeble, img, c, t, Cons(V(0), Cons(e, Nil)), env, lo, hi) && OpIn(img, t.pc, PopPc)
    requires c.pc < RAM_SIZE && |env.vars| > 0 && env.vars[0] == c.pc + 1 && c.sp / 4 <= hi
    ensures Returned(feeble, img, c, u, hi - c.sp / 4, Eval(e, env), lo)
    ensures Valid(t) && Reaches(feeble, t, u) && u.mem == t.mem
  {
    hide Reaches, InRam, Window, Frame, OpIn;
    u := Jump(feeble, img, c, t, Cons(V(0), Cons(e, Nil)), env, lo, hi);
    assert OnStack(u.mem, u.sp / 4, Cons(e, Nil), env);
    assert Height(Cons(e, Nil)) == 1;
  }

  /** A returned result continues the caller's symbolic stack. */
  lemma BackOnStack(feeble: set<Op>, img: Image, c: State, t: State, s: Stack, below: Stack, pops: nat, e: Expr,
                    env: Env, lo: int, hi: int)
    requires Knows(img, c, s, env, lo, hi) && Returned(feeble, img, c, t, pops, Eval(e, env), lo)
    requires pops == 1 || pops == 2
    requires s.Cons? && (pops == 2 ==> s.below.Cons?) && below == if pops == 1 then s.below else s.below.below
    ensures Leads(feeble, img, c, t, Cons(e, below), env, lo, hi)
  {
    hide Reaches, InRam, Window, Eval;
    assert OnStack(c.mem, c.sp / 4 + 1, s.below, env) && Height(s) == 1 + Height(s.below);
    assert OnStack(c.mem, c.sp / 4 + pops, below, env) && Height(s) == pops + Height(below);
    OnStackSame(c.mem, t.mem, c.sp / 4 + pops, below, env);
  }

  // ---- Straight-line code, with the instructions it uses emulated or not ----

  /** The machine at c is about to run this code on this stack. */
  ghost predicate Runnable(feeble: set<Op>, img: Image, lay: Layout, c: State, code: Code, s: Stack, env: Env,
                           lo: int, hi: int, rank: nat) {
    && env.lay == lay && env.feeble == feeble && Knows(img, c, s, env, lo, hi)
    && Holds(img, lay, c.pc, code) && (c.decodeMask ==> !StartsWithIm(code))
    && Safe(code, hi - c.sp / 4, c.sp / 4 - lo, rank)
  }

  ghost predicate Stops(code: Code) {
    code.End? || code.Other?
  }

  ghost predicate StackOp(code: Code) {
    code.Loadsp? || code.Storesp? || code.Addsp? || code.Noop?
  }

  /** One stack-moving item. */
  lemma MoveStep(feeble: set<Op>, img: Image, lay: Layout, c: State, code: Code, s: Stack,
                 env: Env, lo: int, hi: int, rank: nat)
    returns (d: State, s': Stack)
    requires Runnable(feeble, img, lay, c, code, s, env, lo, hi, rank) && StackOp(code)
    ensures Leads(feeble, img, c, d, s', env, lo, hi) && Runnable(feeble, img, lay, d, code.next, s', env, lo, hi, rank)
    ensures Exec(code.next, s') == Exec(code, s) && d.pc == c.pc + 1
    ensures BranchAddress(img, d.pc, code.next) == BranchAddress(img, c.pc, code)
  {
    hide OnStack, InRam, Window, Frame, Reaches, OpIn, ImIn, Alu1Value, Alu2Value, Valid;
    match code {
      case Noop(n) =>
        d := ItemNoop(feeble, img, c, s, env, lo, hi);
        s' := s;
      case Loadsp(k, n) =>
        d := ItemLoadsp(feeble, img, c, k, s, env, lo, hi);
        s' := Cons(Nth(s, k), s);
      case Storesp(k, n) =>
        d := ItemStoresp(feeble, img, c, k, s, env, lo, hi);
        s' := Put(s.below, k - 1, s.top);
      case Addsp(k, n) =>
        d := ItemAddsp(feeble, img, c, k, s, env, lo, hi);
        s' := Cons(B(Add, s.top, Nth(s, k)), s.below);
    }
  }

  /** One `im`. */
  lemma ImStep(feeble: set<Op>, img: Image, lay: Layout, c: State, code: Code, s: Stack,
               env: Env, lo: int, hi: int, rank: nat)
    returns (d: State, s': Stack)
    requires Runnable(feeble, img, lay, c, code, s, env, lo, hi, rank) && StartsWithIm(code)
    ensures Leads(feeble, img, c, d, s', env, lo, hi) && Runnable(feeble, img, lay, d, code.next, s', env, lo, hi, rank)
    ensures Exec(code.next, s') == Exec(code, s) && d.pc == AfterIm(img, c.pc)
    ensures BranchAddress(img, d.pc, code.next) == BranchAddress(img, c.pc, code)
  {
    hide OnStack, InRam, Window, Frame, Reaches, OpIn, ImIn, Alu1Value, Alu2Value, Valid, Run, ImGroups, AfterIm;
    var e := if code.Imm? then K(code.v) else Ref(code.s);
    d := ItemIm(feeble, img, c, e, s, env, lo, hi);
    s' := Cons(e, s);
  }

}
