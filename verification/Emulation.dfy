/** Straight-line emulation code and the arithmetic instructions and branches it uses, by
    induction on the nesting rank: every emulated instruction ends where the processor
    would have ended, whichever others are emulated as well. */
module Emulation {
  import opened Words
  import opened Isa
  import opened Cpu
  import opened Runs
  import opened Crt0
  import opened StackCode
  import opened Images
  import opened Routines
  import opened Values
  import opened LongRoutines
  import opened CodeRuns

  /** An emulated instruction is about to execute with enough scratch space below sp. */
  ghost predicate Callable(feeble: set<Op>, img: Image, lay: Layout, c: State, op: Op, pops: nat, lo: int) {
    && Loaded(img, lay) && Ready(img, c) && Fetch(c) == Got(op) && op in feeble && HasRoutine(op)
    && Window(img, lo, c.sp / 4 + pops) && lo + Depth(op) <= c.sp / 4 && StillThere(c, op)
  }

  /** Return address and operands at entry to a vector. */
  ghost function EntryEnv(feeble: set<Op>, c: State, lay: Layout, pops: nat): Env
    requires Valid(c) && c.sp / 4 + pops <= RAM_WORDS
  {
    Env([c.pc + 1] + c.mem[c.sp / 4..c.sp / 4 + pops], lay, feeble)
  }

  function Operand1(): Stack {
    Cons(V(1), Nil)
  }

  function Operands2(): Stack {
    Cons(V(1), Cons(V(2), Nil))
  }

  /** The operands are the words s, and env says what they and the return address are. */
  ghost predicate Entry(feeble: set<Op>, c: State, lay: Layout, pops: nat, s: Stack, env: Env) {
    && Valid(c) && Height(s) == pops && OnStack(c.mem, c.sp / 4, s, env)
    && env.lay == lay && env.feeble == feeble && |env.vars| > 0 && env.vars[0] == c.pc + 1
  }

  lemma EntryOne(feeble: set<Op>, img: Image, lay: Layout, c: State, op: Op, lo: int)
    requires Callable(feeble, img, lay, c, op, 1, lo)
    ensures Loaded(img, lay) && Valid(c) && 0 <= c.pc < RAM_SIZE && c.sp / 4 + 1 <= RAM_WORDS
    ensures Entry(feeble, c, lay, 1, Operand1(), EntryEnv(feeble, c, lay, 1))
    ensures Cons(V(0), Operand1()) == Two()
  {
    hide Loaded, InRam, HasRoutine, Depth, Decode, Byte;
  }

  lemma EntryTwo(feeble: set<Op>, img: Image, lay: Layout, c: State, op: Op, lo: int)
    requires Callable(feeble, img, lay, c, op, 2, lo)
    ensures Loaded(img, lay) && Valid(c) && 0 <= c.pc < RAM_SIZE && c.sp / 4 + 2 <= RAM_WORDS
    ensures Entry(feeble, c, lay, 2, Operands2(), EntryEnv(feeble, c, lay, 2))
    ensures Cons(V(0), Operands2()) == Three() && op in EntryEnv(feeble, c, lay, 2).feeble
    ensures Operands(EntryEnv(feeble, c, lay, 2), c.pc + 1, c.mem[c.sp / 4], c.mem[c.sp / 4 + 1])
  {
    hide Loaded, InRam, HasRoutine, Depth, Decode, Byte;
    assert OnStack(c.mem, c.sp / 4 + 1, Cons(V(2), Nil), EntryEnv(feeble, c, lay, 2));
  }

  /** Up to its first jump the routine of op fits its scratch space and leaves the stack t. */
  ghost predicate Suits(op: Op, pops: nat, s: Stack, rest: Code, t: Stack) {
    && Safe(Routine(op), pops + 1, Depth(op) - 1, Rank(op))
    && Yields(Routine(op), Cons(V(0), s), rest, t)
  }

  /** The machine enters the vector and is ready to run the routine. */
  lemma Begin(feeble: set<Op>, img: Image, lay: Layout, c: State, op: Op, pops: nat, s: Stack, env: Env,
              rest: Code, u: Stack, lo: int)
    returns (d: State)
    requires Callable(feeble, img, lay, c, op, pops, lo) && Entry(feeble, c, lay, pops, s, env)
    requires Suits(op, pops, s, rest, u)
    ensures Leads(feeble, img, c, d, Cons(V(0), s), env, lo, c.sp / 4 + pops)
    ensures Runnable(feeble, img, lay, d, Routine(op), Cons(V(0), s), env, lo, c.sp / 4 + pops, Rank(op))
  {
    hide Routine, Depth, Rank, Holds, Loaded, Window, Reaches, Frame, InRam, HasRoutine, Fetch, Safe;
    hide Yields;
    DepthPositive(op);
    d := Enter(feeble, img, lay, c, op, s, env, lo, c.sp / 4 + pops);
    SafeWithMore(Routine(op), pops + 1, Depth(op) - 1, d.sp / 4 - lo, Rank(op));
  }

  lemma DepthPositive(op: Op)
    ensures Depth(op) > 0
  {
  }

  /** Straight-line code runs to where it stops, and leaves the stack Exec predicts. */
  lemma {:induction false} Straight(feeble: set<Op>, img: Image, lay: Layout, c: State, code: Code, s: Stack,
                                    env: Env, lo: int, hi: int, rank: nat)
    returns (t: State)
    requires Loaded(img, lay) && Runnable(feeble, img, lay, c, code, s, env, lo, hi, rank)
    ensures Leads(feeble, img, c, t, Exec(code, s), env, lo, hi)
    ensures Holds(img, lay, t.pc, Rest(code)) && t.pc == BranchAddress(img, c.pc, code)
    decreases rank, 1, code
  {
    hide Leads, Knows, Safe, Loaded;
    if Stops(code) {
      t := c;
      StayPut(feeble, img, c, s, env, lo, hi);
    } else {
      var d, s';
      if StackOp(code) {
        d, s' := MoveStep(feeble, img, lay, c, code, s, env, lo, hi, rank);
      } else if StartsWithIm(code) {
        d, s' := ImStep(feeble, img, lay, c, code, s, env, lo, hi, rank);
      } else {
        d, s' := AluStep(feeble, img, lay, c, code, s, env, lo, hi, rank);
      }
      t := Straight(feeble, img, lay, d, code.next, s', env, lo, hi, rank);
      LeadsJoin(feeble, img, c, d, t, s', env, Exec(code, s), env, lo, hi);
    }
  }

  lemma TwoHigh(s: Stack)
    requires Height(s) >= 2
    ensures s.Cons? && s.below.Cons?
  {
  }

  /** One arithmetic item: executed by the processor, or emulated by a routine of lower rank. */
  lemma {:induction false} AluStep(feeble: set<Op>, img: Image, lay: Layout, c: State, code: Code, s: Stack,
                                   env: Env, lo: int, hi: int, rank: nat)
    returns (d: State, s': Stack)
    requires Loaded(img, lay) && Runnable(feeble, img, lay, c, code, s, env, lo, hi, rank) && (code.Un? || code.Bin?)
    ensures Leads(feeble, img, c, d, s', env, lo, hi) && Runnable(feeble, img, lay, d, code.next, s', env, lo, hi, rank)
    ensures Exec(code.next, s') == Exec(code, s)
    ensures BranchAddress(img, d.pc, code.next) == BranchAddress(img, c.pc, code)
    decreases rank, 1, code.next
  {
    hide OnStack, InRam, Window, Frame, Reaches, OpIn, ImIn, Alu1Value, Computed, Valid, Loaded, Nests;
    match code {
      case Un(g, n) =>
        s' := Cons(U(g, s.top), s.below);
        d := UnaryItem(feeble, img, lay, c, g, s, env, lo, hi, rank);
      case Bin(f, n) =>
        TwoHigh(s);
        s' := Cons(B(f, s.top, s.below.top), s.below.below);
        d := BinaryItem(feeble, img, lay, c, f, s, env, lo, hi, rank);
    }
  }

  lemma {:induction false} UnaryItem(feeble: set<Op>, img: Image, lay: Layout, c: State, g: Alu1, s: Stack,
                                     env: Env, lo: int, hi: int, rank: nat)
    returns (t: State)
    requires Loaded(img, lay) && Knows(img, c, s, env, lo, hi) && OpIn(img, c.pc, Unary(g)) && s.Cons?
    requires Nests(Unary(g), c.sp / 4 - lo, rank)
    ensures Leads(feeble, img, c, t, Cons(U(g, s.top), s.below), env, lo, hi)
    ensures t.pc == c.pc + 1 && t.sp == c.sp && !t.decodeMask
    decreases rank, 0
  {
    hide Reaches, InRam, Frame, Loaded, Depth, StillThere;
    if Unary(g) in feeble && HasRoutine(Unary(g)) {
      FetchImage(img, c, Unary(g));
      DepthPositive(Unary(g));
      CodeStays(img, c, Unary(g), lo, hi);
      t := EmulateNeg(feeble, img, lay, c, lo);
      BackOnStack(feeble, img, c, t, s, s.below, 1, U(g, s.top), env, lo, hi);
    } else {
      t := ItemUn(feeble, img, c, g, s, env, lo, hi);
    }
  }

  lemma ReturnedTo(feeble: set<Op>, img: Image, c: State, t: State, pops: nat, v: word, lo: int)
    requires Returned(feeble, img, c, t, pops, v, lo)
    ensures t.pc == c.pc + 1 && t.sp == c.sp + 4 * (pops - 1) && !t.decodeMask
  {
    hide Reaches, InRam, Frame;
  }

  lemma {:induction false} BinaryItem(feeble: set<Op>, img: Image, lay: Layout, c: State, f: Alu2, s: Stack,
                                      env: Env, lo: int, hi: int, rank: nat)
    returns (t: State)
    requires Loaded(img, lay) && Knows(img, c, s, env, lo, hi) && OpIn(img, c.pc, Binary(f))
    requires s.Cons? && s.below.Cons? && env.feeble == feeble
    requires Nests(Binary(f), c.sp / 4 - lo, rank)
    ensures Leads(feeble, img, c, t, Cons(B(f, s.top, s.below.top), s.below.below), env, lo, hi)
    ensures t.pc == c.pc + 1 && t.sp == c.sp + 4 && !t.decodeMask
    decreases rank, 0
  {
    hide Reaches, InRam, Frame, Loaded, Depth, Computed, HasRoutine, OpIn, Fetch, Leads, Returned, Rank, StillThere;
    assert Height(s) >= 2;
    if Binary(f) in feeble && HasRoutine(Binary(f)) {
      FetchImage(img, c, Binary(f));
      DepthPositive(Binary(f));
      CodeStays(img, c, Binary(f), lo, hi);
      OnStackNth(c.mem, c.sp / 4, s, env, 1);
      t := EmulateBinary(feeble, img, lay, c, f, lo);
      ReturnedTo(feeble, img, c, t, 2, Computed(feeble, f, c.mem[c.sp / 4], c.mem[c.sp / 4 + 1]), lo);
      BackOnStack(feeble, img, c, t, s, s.below.below, 2, B(f, s.top, s.below.top), env, lo, hi);
    } else {
      t := ItemBin(feeble, img, c, f, s, env, lo, hi);
    }
  }

  /** The vector is entered and its code runs up to the first jump. */
  lemma {:induction false} RunRoutine(feeble: set<Op>, img: Image, lay: Layout, c: State, op: Op, pops: nat,
                                      s: Stack, env: Env, rest: Code, u: Stack, lo: int)
    returns (t: State)
    requires Callable(feeble, img, lay, c, op, pops, lo) && Entry(feeble, c, lay, pops, s, env)
    requires Suits(op, pops, s, rest, u)
    ensures Leads(feeble, img, c, t, u, env, lo, c.sp / 4 + pops) && Holds(img, lay, t.pc, rest)
    decreases Rank(op), 2
  {
    hide Leads, Runnable, Loaded, Routine, Depth, Rank, Exec, Rest, Safe, Holds, OnStack, Entry, Fetch;
    hide InRam, Window, HasRoutine;
    var hi := c.sp / 4 + pops;
    var d := Begin(feeble, img, lay, c, op, pops, s, env, rest, u, lo);
    t := Straight(feeble, img, lay, d, Routine(op), Cons(V(0), s), env, lo, hi, Rank(op));
    LeadsJoin(feeble, img, c, d, t, Cons(V(0), s), env, u, env, lo, hi);
  }

  lemma {:induction false} EmulateNeg(feeble: set<Op>, img: Image, lay: Layout, c: State, lo: int) returns (t: State)
    requires Callable(feeble, img, lay, c, Unary(Neg_), 1, lo)
    ensures Returned(feeble, img, c, t, 1, Alu1Value(Neg_, c.mem[c.sp / 4]), lo)
    decreases 0, 3
  {
    hide Callable, Entry, Suits, Leads, Returned, Operand1, Loaded, Negated, Alu1Value, Routine;
    EntryOne(feeble, img, lay, c, Unary(Neg_), lo);
    var env := EntryEnv(feeble, c, lay, 1);
    NegSuits();
    t := RunRoutine(feeble, img, lay, c, Unary(Neg_), 1, Operand1(), env, Other(PopPc, End), Returning(Negated(V(1))), lo);
    NegValue(env, c.mem[c.sp / 4]);
    t := Leave(feeble, img, c, t, Negated(V(1)), env, lo, c.sp / 4 + 1);
  }

  lemma NegSuits()
    ensures Suits(Unary(Neg_), 1, Operand1(), Other(PopPc, End), Returning(Negated(V(1))))
  {
    hide Safe, Yields, NegCode;
    assert Cons(V(0), Operand1()) == Two();
    NegSafe();
    NegSteps();
  }

  lemma NegValue(env: Env, a: word)
    requires |env.vars| >= 2 && env.vars[1] == a
    ensures Eval(Negated(V(1)), env) == Alu1Value(Neg_, a)
  {
  }

  lemma {:induction false} EmulateBinary(feeble: set<Op>, img: Image, lay: Layout, c: State, f: Alu2, lo: int)
    returns (t: State)
    requires Callable(feeble, img, lay, c, Binary(f), 2, lo)
    ensures Returned(feeble, img, c, t, 2, Computed(feeble, f, c.mem[c.sp / 4], c.mem[c.sp / 4 + 1]), lo)
    decreases Rank(Binary(f)), 7
  {
    hide Returned, Computed, Loaded, Fetch, InRam, Depth;
    if f == Mult {
      var rounds;
      t, rounds := EmulateMult(feeble, img, lay, c, lo);
    } else if f == AShiftLeft {
      t := EmulateAShiftLeft(feeble, img, lay, c, lo);
    } else {
      t := EmulateStraightLine(feeble, img, lay, c, f, lo);
    }
  }

  lemma {:induction false} EmulateStraightLine(feeble: set<Op>, img: Image, lay: Layout, c: State, f: Alu2, lo: int)
    returns (t: State)
    requires Callable(feeble, img, lay, c, Binary(f), 2, lo) && StraightLine(f)
    ensures Returned(feeble, img, c, t, 2, Computed(feeble, f, c.mem[c.sp / 4], c.mem[c.sp / 4 + 1]), lo)
    decreases Rank(Binary(f)), 5
  {
    hide Callable, Entry, Suits, Leads, Returned, Operands2, Rank, Loaded, ResultExpr, Computed, StraightLine, Eval;
    EntryTwo(feeble, img, lay, c, Binary(f), lo);
    var env, a, b := EntryEnv(feeble, c, lay, 2), c.mem[c.sp / 4], c.mem[c.sp / 4 + 1];
    StraightSuits(f);
    t := RunRoutine(feeble, img, lay, c, Binary(f), 2, Operands2(), env, Other(PopPc, End), Returning(ResultExpr(f)), lo);
    RoutineValue(f, env, c.pc + 1, a, b);
    t := Leave(feeble, img, c, t, ResultExpr(f), env, lo, c.sp / 4 + 2);
  }

  lemma StraightSuits(f: Alu2)
    requires StraightLine(f)
    ensures Suits(Binary(f), 2, Operands2(), Other(PopPc, End), Returning(ResultExpr(f)))
  {
    hide Safe, Yields, Routine, ResultExpr, Rank, Depth, Returning, StraightLine;
    assert Cons(V(0), Operands2()) == Three();
    RoutineSafe(f);
    RoutineSteps(f);
  }

  // ---- ashiftleft: the computed jump into the table of doublings ----

  lemma {:induction false} TableSuffix(img: Image, lay: Layout, a: int, n: nat, k: nat)
    requires k <= n && Holds(img, lay, a, ShiftTable(n))
    ensures Holds(img, lay, a + n - k, ShiftTable(k))
    decreases n
  {
    hide OpIn, ImIn, AfterIm, Return2;
    if k < n {
      assert Holds(img, lay, a + 1, ShiftTable(n - 1));
      TableSuffix(img, lay, a + 1, n - 1, k);
    }
  }

  lemma {:induction false} EmulateAShiftLeft(feeble: set<Op>, img: Image, lay: Layout, c: State, lo: int)
    returns (t: State)
    requires Callable(feeble, img, lay, c, Binary(AShiftLeft), 2, lo)
    ensures Returned(feeble, img, c, t, 2, Computed(feeble, AShiftLeft, c.mem[c.sp / 4], c.mem[c.sp / 4 + 1]), lo)
    decreases 0, 6
  {
    hide Callable, Entry, Leads, Returned, Operands2, Computed, Eval, Loaded, ShiftTable, Three, Doubled, Knows, ShiftLeft;
    EntryTwo(feeble, img, lay, c, Binary(AShiftLeft), lo);
    var env, a, b, hi := EntryEnv(feeble, c, lay, 2), c.mem[c.sp / 4], c.mem[c.sp / 4 + 1], c.sp / 4 + 2;
    var start, e := Cons(V(2), Three()), Doubled(V(2), a % 32);
    var d := JumpIntoTable(feeble, img, lay, c, a, b, lo);
    LeadsKnows(feeble, img, c, d, start, env, lo, hi);
    t := RunTable(feeble, img, lay, d, a % 32, env, lo, hi);
    LeadsJoin(feeble, img, c, d, t, start, env, Returning(e), env, lo, hi);
    DoubledValue(env, V(2), a % 32);
    ShiftLeftEmulated(feeble, env, c.pc + 1, a, b);
    t := Leave(feeble, img, c, t, e, env, lo, hi);
  }

  lemma {:induction false} JumpIntoTable(feeble: set<Op>, img: Image, lay: Layout, c: State, a: word, b: word, lo: int)
    returns (t: State)
    requires Valid(c) && c.sp / 4 + 2 <= RAM_WORDS && a == c.mem[c.sp / 4] && b == c.mem[c.sp / 4 + 1]
    requires Callable(feeble, img, lay, c, Binary(AShiftLeft), 2, lo)
    ensures Leads(feeble, img, c, t, Cons(V(2), Three()), EntryEnv(feeble, c, lay, 2), lo, c.sp / 4 + 2)
    ensures Holds(img, lay, t.pc, ShiftTable(a % 32)) && !t.decodeMask
    decreases 0, 5
  {
    hide Callable, Entry, Suits, Leads, Operands2, Eval, Loaded, ShiftTable, ShiftTarget, Three, Routine, Knows, Reaches, InRam, Window, Frame, HasRoutine;
    EntryTwo(feeble, img, lay, c, Binary(AShiftLeft), lo);
    var env := EntryEnv(feeble, c, lay, 2);
    var s := Cons(ShiftTarget(), Cons(V(2), Three()));
    AShiftLeftSuits();
    t := RunRoutine(feeble, img, lay, c, Binary(AShiftLeft), 2, Operands2(), env, Other(PopPc, End), s, lo);
    TableTarget(img, lay, env, c.pc + 1, a, b);
    t := Jump(feeble, img, c, t, s, env, lo, c.sp / 4 + 2);
  }

  /** The computed jump arrives a % 32 doublings in front of the end of the table. */
  lemma TableTarget(img: Image, lay: Layout, env: Env, ret: word, a: word, b: word)
    requires Loaded(img, lay) && Operands(env, ret, a, b) && env.lay == lay
    ensures Eval(ShiftTarget(), env) == lay.shiftEnd - a % 32 <= RAM_SIZE
    ensures Holds(img, lay, lay.shiftEnd - a % 32, ShiftTable(a % 32))
  {
    hide Routine, Holds, ShiftTable, SlowMult, StoreBTail, StoreHTail, LoopOffset, MaskTable, Eval, ShiftTarget;
    ShiftTargetValue(env, ret, a, b);
    TableSuffix(img, lay, lay.shiftEnd - 31, 31, a % 32);
  }

  /** Running the last k doublings and the epilogue. */
  lemma {:induction false} RunTable(feeble: set<Op>, img: Image, lay: Layout, c: State, k: nat, env: Env, lo: int, hi: int)
    returns (t: State)
    requires Loaded(img, lay) && Knows(img, c, Cons(V(2), Three()), env, lo, hi) && env.lay == lay && env.feeble == feeble
    requires Holds(img, lay, c.pc, ShiftTable(k)) && !c.decodeMask
    ensures Leads(feeble, img, c, t, Returning(Doubled(V(2), k)), env, lo, hi)
    ensures Holds(img, lay, t.pc, Other(PopPc, End))
    decreases 0, 4
  {
    hide Leads, Safe, OnStack, InRam, Window, Loaded, Holds, Exec, Rest;
    var start := Cons(V(2), Three());
    assert Height(start) == 4;
    ShiftTableSafe(k, c.sp / 4 - lo);
    ShiftTableSteps(V(2), k);
    t := Straight(feeble, img, lay, c, ShiftTable(k), start, env, lo, hi, 0);
  }

  lemma AShiftLeftSuits()
    ensures Suits(Binary(AShiftLeft), 2, Operands2(), Other(PopPc, End), Cons(ShiftTarget(), Cons(V(2), Three())))
  {
    hide Safe, Yields, AShiftLeftCode, ShiftTarget;
    assert Cons(V(0), Operands2()) == Three();
    AShiftLeftSafe();
    AShiftLeftSteps();
  }

  lemma ShiftLeftEmulated(feeble: set<Op>, env: Env, ret: word, a: word, b: word)
    requires Operands(env, ret, a, b) && Binary(AShiftLeft) in feeble
    ensures Computed(feeble, AShiftLeft, a, b) == ShiftLeft(b, a % 32) && Eval(V(2), env) == b
  {
  }

  // ---- Conditional branches ----

  /** Where a conditional branch at pc goes, for the offset and the word it tests. */
  function BranchGoal(op: Op, pc: int, off: word, cmp: word): int {
    if (op == EqBranch) == (cmp == 0) then Wrap(off + pc) else pc + 1
  }

  /** A branch has been taken or not, with both operands gone. */
  ghost predicate Branched(feeble: set<Op>, img: Image, c: State, t: State, op: Op, lo: int)
    requires Valid(c) && c.sp + 4 < RAM_SIZE
  {
    && Ready(img, t) && Reaches(feeble, c, t)
    && t.pc == BranchGoal(op, c.pc, c.mem[c.sp / 4], c.mem[c.sp / 4 + 1])
    && t.sp == c.sp + 8 && !t.decodeMask && Frame(c.mem, t.mem, lo, c.sp / 4 + 2)
  }

  lemma {:induction false} EmulateBranch(feeble: set<Op>, img: Image, lay: Layout, c: State, op: Op, lo: int)
    returns (t: State)
    requires Callable(feeble, img, lay, c, op, 2, lo) && (op == EqBranch || op == NeqBranch)
    requires BranchGoal(op, c.pc, c.mem[c.sp / 4], c.mem[c.sp / 4 + 1]) <= RAM_SIZE
    ensures Branched(feeble, img, c, t, op, lo)
    decreases 0, 5
  {
    hide Callable, Entry, Suits, Operands2, Routine, Loaded, InRam, Eval, BranchExpr, Frame, Reaches, Knows, BranchGoal, Window, HasRoutine, Leads;
    EntryTwo(feeble, img, lay, c, op, lo);
    var env := EntryEnv(feeble, c, lay, 2);
    BranchSuits(op);
    t := RunRoutine(feeble, img, lay, c, op, 2, Operands2(), env, Other(PopPc, End), Cons(BranchExpr(op), Nil), lo);
    BranchValue(op, env, c.pc, c.mem[c.sp / 4], c.mem[c.sp / 4 + 1]);
    t := Jump(feeble, img, c, t, Cons(BranchExpr(op), Nil), env, lo, c.sp / 4 + 2);
    LeadsOut(feeble, img, c, t, Nil, env, lo, c.sp / 4 + 2);
  }

  lemma LeadsOut(feeble: set<Op>, img: Image, c: State, t: State, s: Stack, env: Env, lo: int, hi: int)
    requires Leads(feeble, img, c, t, s, env, lo, hi)
    ensures Valid(c) && Ready(img, t) && Reaches(feeble, c, t) && Frame(c.mem, t.mem, lo, hi)
    ensures t.sp == 4 * (hi - Height(s))
  {
    hide InRam, Window, Reaches, Frame, OnStack, Height;
  }

  function BranchExpr(op: Op): Expr {
    TargetExpr(if op == EqBranch then EqBranchMask() else NeqBranchMask())
  }

  lemma BranchSuits(op: Op)
    requires op == EqBranch || op == NeqBranch
    ensures Suits(op, 2, Operands2(), Other(PopPc, End), Cons(BranchExpr(op), Nil))
  {
    hide Safe, Yields, EqBranchCode, NeqBranchCode, TargetExpr;
    assert Cons(V(0), Operands2()) == Three();
    BranchSafe();
    EqBranchSteps();
    NeqBranchSteps();
  }

  lemma BranchValue(op: Op, env: Env, pc: int, a: word, b: word)
    requires (op == EqBranch || op == NeqBranch) && 0 <= pc < RAM_SIZE && Operands(env, pc + 1, a, b)
    ensures Eval(BranchExpr(op), env) == BranchGoal(op, pc, a, b)
  {
    hide Eval;
    EqBranchValue(env, pc + 1, a, b);
    BranchSum(a, pc);
  }

  lemma BranchSum(off: word, pc: int)
    requires 0 <= pc < RAM_SIZE
    ensures Sum(0xffff_ffff, Sum(off, pc + 1)) == Wrap(off + pc)
  {
  }

  lemma StepBranch(feeble: set<Op>, c: State, op: Op)
    requires Valid(c) && Fetch(c) == Got(op) && c.sp + 4 < RAM_SIZE && (op == EqBranch || op == NeqBranch)
    requires op !in feeble && BranchGoal(op, c.pc, c.mem[c.sp / 4], c.mem[c.sp / 4 + 1]) <= RAM_SIZE
    ensures Step(feeble, c)
         == Ran(State(BranchGoal(op, c.pc, c.mem[c.sp / 4], c.mem[c.sp / 4 + 1]), c.sp + 8, false, c.mem))
  {
    hide EmulateCode, OpAt, OnNone, OnTop;
    InsideRam(c);
  }

  lemma {:induction false} TakeBranch(feeble: set<Op>, img: Image, lay: Layout, c: State, op: Op, lo: int)
    returns (t: State)
    requires Loaded(img, lay) && Ready(img, c) && Window(img, lo, c.sp / 4 + 2) && OpIn(img, c.pc, op)
    requires (op == EqBranch || op == NeqBranch) && lo + Depth(op) <= c.sp / 4
    requires BranchGoal(op, c.pc, c.mem[c.sp / 4], c.mem[c.sp / 4 + 1]) <= RAM_SIZE
    ensures Branched(feeble, img, c, t, op, lo)
    decreases 0, 6
  {
    hide Step, Effect, Reaches, InRam, Loaded, Fetch, BranchGoal, OpIn, StillThere, Depth;
    FetchImage(img, c, op);
    if op in feeble {
      DepthPositive(op);
      CodeStays(img, c, op, lo, c.sp / 4 + 2);
      t := EmulateBranch(feeble, img, lay, c, op, lo);
    } else {
      StepBranch(feeble, c, op);
      ReachesStep(feeble, c);
      t := Step(feeble, c).c;
    }
  }

  /** A branch in emulation code, executed or emulated. */
  lemma {:induction false} BranchItem(feeble: set<Op>, img: Image, lay: Layout, c: State, op: Op, s: Stack,
                                      env: Env, lo: int, hi: int)
    returns (t: State)
    requires Loaded(img, lay) && Knows(img, c, s, env, lo, hi) && OpIn(img, c.pc, op)
    requires (op == EqBranch || op == NeqBranch) && s.Cons? && s.below.Cons? && lo + Depth(op) <= c.sp / 4
    requires BranchGoal(op, c.pc, Eval(s.top, env), Eval(s.below.top, env)) <= RAM_SIZE
    ensures Leads(feeble, img, c, t, s.below.below, env, lo, hi) && !t.decodeMask
    ensures t.pc == BranchGoal(op, c.pc, Eval(s.top, env), Eval(s.below.top, env)) && t.sp == c.sp + 8
    decreases 0, 7
  {
    hide Reaches, InRam, Loaded, OpIn, Eval, BranchGoal, Depth;
    TwoKnown(img, c, s, env, lo, hi);
    t := TakeBranch(feeble, img, lay, c, op, lo);
    OnStackSame(c.mem, t.mem, c.sp / 4 + 2, s.below.below, env);
  }

  lemma TwoKnown(img: Image, c: State, s: Stack, env: Env, lo: int, hi: int)
    requires Knows(img, c, s, env, lo, hi) && s.Cons? && s.below.Cons?
    ensures c.sp / 4 + 2 <= hi <= RAM_WORDS == |c.mem| && Height(s) == 2 + Height(s.below.below)
    ensures c.mem[c.sp / 4] == Eval(s.top, env) && c.mem[c.sp / 4 + 1] == Eval(s.below.top, env)
    ensures OnStack(c.mem, c.sp / 4 + 2, s.below.below, env)
  {
    hide Eval;
    assert OnStack(c.mem, c.sp / 4 + 1, s.below, env) && Height(s) == 1 + Height(s.below);
  }

  // ---- mult: _slowmultImpl ----

  /** From c the machine reaches t, having written only inside the window. */
  ghost predicate Within(feeble: set<Op>, img: Image, c: State, t: State, lo: int, hi: int) {
    Valid(c) && Ready(img, t) && Reaches(feeble, c, t) && Frame(c.mem, t.mem, lo, hi)
  }

  lemma WithinJoin(feeble: set<Op>, img: Image, c: State, d: State, t: State, lo: int, hi: int)
    requires Within(feeble, img, c, d, lo, hi) && Within(feeble, img, d, t, lo, hi)
    ensures Within(feeble, img, c, t, lo, hi)
  {
    ReachesJoin(feeble, c, d, t);
  }

  /** At the top of the loop, with room for a round: accumulator, B, A, return address, operands. */
  ghost predicate AtLoop(img: Image, lay: Layout, c: State, lo: int, hi: int) {
    && Loaded(img, lay) && Ready(img, c) && Window(img, lo, hi)
    && lo + 7 <= c.sp / 4 && c.sp / 4 + 6 == hi
    && c.pc == LoopAddress(img, lay) && Holds(img, lay, c.pc, MoreMult())
  }

  ghost function RoundEnv(feeble: set<Op>, c: State, lay: Layout): Env
    requires Valid(c) && c.sp / 4 + 6 <= RAM_WORDS
  {
    Env(c.mem[c.sp / 4..c.sp / 4 + 6], lay, feeble)
  }

  lemma OnStackRound(feeble: set<Op>, c: State, lay: Layout)
    requires Valid(c) && c.sp / 4 + 6 <= RAM_WORDS
    ensures OnStack(c.mem, c.sp / 4, Round(), RoundEnv(feeble, c, lay)) && Height(Round()) == 6
  {
    var env, i := RoundEnv(feeble, c, lay), c.sp / 4;
    assert OnStack(c.mem, i + 3, Cons(V(3), Cons(V(4), Cons(V(5), Nil))), env);
  }

  /** The one-byte im in front of the loop branch is relative to that branch. */
  lemma LoopTarget(img: Image, lay: Layout)
    requires Loaded(img, lay)
    ensures BranchAddress(img, LoopAddress(img, lay), MoreMult()) + lay.moreMult - M == LoopAddress(img, lay)
    ensures 0 <= LoopAddress(img, lay)
  {
    hide Holds, MoreMult, Routine;
    assert BranchAddress(img, lay.slowMult, SlowMult())
        == BranchAddress(img, AfterIm(img, lay.slowMult + 2), MoreMult());
  }

  /** The words of one round in memory. */
  ghost predicate RoundAt(mem: seq<word>, i: int, acc: word, b: word, a: word, ret: word) {
    0 <= i <= i + 6 <= |mem| && mem[i] == acc && mem[i + 1] == b && mem[i + 2] == a && mem[i + 3] == ret
  }

  lemma {:induction false} OneRound(feeble: set<Op>, img: Image, lay: Layout, c: State, lo: int, hi: int,
                                    acc: word, b: word, a: word, ret: word)
    returns (t: State)
    requires AtLoop(img, lay, c, lo, hi) && RoundAt(c.mem, c.sp / 4, acc, b, a, ret)
    ensures Within(feeble, img, c, t, lo, hi) && t.sp == c.sp && !t.decodeMask
    ensures RoundAt(t.mem, t.sp / 4, if a % 2 == 1 then Sum(b, acc) else acc, Sum(b, b), a / 2, ret)
    ensures if a / 2 != 0 then AtLoop(img, lay, t, lo, hi) else Holds(img, lay, t.pc, MultReturn())
    decreases 1, 4
  {
    hide OnStack, Reaches, InRam, Frame, Loaded, Window, LoopAddress, MultReturn, MoreMult, Eval, NextC, Half, Round;
    hide Knows, AtLoop, RoundAt, Leads;
    AtLoopFacts(img, lay, c, lo, hi);
    var env, i := RoundEnv(feeble, c, lay), c.sp / 4;
    OnStackRound(feeble, c, lay);
    var d := RunRound(feeble, img, lay, c, env, lo, hi);
    BranchFacts(feeble, img, lay, c, d, lo, hi, acc, b, a, ret);
    t := BranchItem(feeble, img, lay, d, NeqBranch, AtBranch(), env, lo, hi);
    LeadsJoin(feeble, img, c, d, t, AtBranch(), env, AfterRound(), env, lo, hi);
    RoundDone(feeble, img, lay, c, t, lo, hi, acc, b, a, ret);
  }

  lemma AtLoopFacts(img: Image, lay: Layout, c: State, lo: int, hi: int)
    requires AtLoop(img, lay, c, lo, hi)
    ensures Loaded(img, lay) && Valid(c) && c.sp / 4 + 6 <= RAM_WORDS
  {
    hide Loaded, InRam, Holds, LoopAddress;
  }

  /** At the loop branch: A/2 is tested against the one-byte offset back to the loop. */
  lemma BranchFacts(feeble: set<Op>, img: Image, lay: Layout, c: State, d: State, lo: int, hi: int,
                    acc: word, b: word, a: word, ret: word)
    requires AtLoop(img, lay, c, lo, hi) && RoundAt(c.mem, c.sp / 4, acc, b, a, ret)
    requires Leads(feeble, img, c, d, AtBranch(), RoundEnv(feeble, c, lay), lo, hi)
    requires d.pc == BranchAddress(img, c.pc, MoreMult()) && OpIn(img, d.pc, NeqBranch)
    ensures Knows(img, d, AtBranch(), RoundEnv(feeble, c, lay), lo, hi) && lo + Depth(NeqBranch) <= d.sp / 4
    ensures d.sp + 8 == c.sp
    ensures BranchGoal(NeqBranch, d.pc, Eval(Ref(MORE_MULT), RoundEnv(feeble, c, lay)), Eval(Half(V(2)), RoundEnv(feeble, c, lay)))
         == if a / 2 != 0 then c.pc else d.pc + 1
    ensures d.pc < RAM_SIZE && c.pc <= RAM_SIZE
  {
    hide OnStack, Reaches, InRam, Frame, Window, Loaded, LoopAddress, MoreMult, Eval, NextC, Half, Holds;
    var env := RoundEnv(feeble, c, lay);
    LeadsKnows(feeble, img, c, d, AtBranch(), env, lo, hi);
    AtBranchHeight();
    LoopTarget(img, lay);
    VarValue(env, 2);
    RefValue(env);
    HalfValue(env, V(2), a);
  }

  lemma AtBranchHeight()
    ensures Height(AtBranch()) == 8
  {
    hide NextC, Half;
  }

  lemma VarValue(env: Env, k: nat)
    requires k < |env.vars|
    ensures Eval(V(k), env) == env.vars[k]
  {
  }

  lemma RefValue(env: Env)
    ensures Eval(Ref(MORE_MULT), env) == env.lay.moreMult
  {
  }

  lemma {:induction false} RunRound(feeble: set<Op>, img: Image, lay: Layout, c: State, env: Env, lo: int, hi: int)
    returns (d: State)
    requires AtLoop(img, lay, c, lo, hi) && env == RoundEnv(feeble, c, lay) && OnStack(c.mem, c.sp / 4, Round(), env)
    ensures Leads(feeble, img, c, d, AtBranch(), env, lo, hi) && Holds(img, lay, d.pc, Other(NeqBranch, MultReturn()))
    ensures d.pc == BranchAddress(img, c.pc, MoreMult())
    decreases 1, 3
  {
    hide Leads, Safe, OnStack, InRam, Window, Loaded, Holds, Exec, Rest, MoreMult, MultReturn;
    hide AtBranch, BranchAddress;
    assert Height(Round()) == 6;
    var i := c.sp / 4;
    MoreMultSafe();
    SafeWithMore(MoreMult(), 6, 7, i - lo, 1);
    MoreMultSteps();
    d := Straight(feeble, img, lay, c, MoreMult(), Round(), env, lo, hi, 1);
  }

  lemma AfterRoundAt(mem: seq<word>, i: int, env: Env, acc: word, b: word, a: word, ret: word)
    requires OnStack(mem, i, AfterRound(), env) && 0 <= i <= i + 6 <= |mem|
    requires |env.vars| == 6 && env.vars[..4] == [acc, b, a, ret]
    ensures RoundAt(mem, i, if a % 2 == 1 then Sum(b, acc) else acc, Sum(b, b), a / 2, ret)
  {
    hide NextC, Half, Computed;
    DoubleValue(env, b);
    VarValue(env, 3);
    assert env.vars[0] == acc && env.vars[1] == b && env.vars[2] == a && env.vars[3] == ret;
    HalfValue(env, V(2), a);
    NextCValue(env, acc, b, a);
    assert OnStack(mem, i + 2, AfterRound().below.below, env);
  }

  lemma RoundDone(feeble: set<Op>, img: Image, lay: Layout, c: State, t: State, lo: int, hi: int,
                  acc: word, b: word, a: word, ret: word)
    requires AtLoop(img, lay, c, lo, hi) && RoundAt(c.mem, c.sp / 4, acc, b, a, ret)
    requires Leads(feeble, img, c, t, AfterRound(), RoundEnv(feeble, c, lay), lo, hi) && t.sp == c.sp
    ensures Within(feeble, img, c, t, lo, hi)
    ensures RoundAt(t.mem, t.sp / 4, if a % 2 == 1 then Sum(b, acc) else acc, Sum(b, b), a / 2, ret)
    ensures t.pc == c.pc ==> AtLoop(img, lay, t, lo, hi)
  {
    hide OnStack, Reaches, InRam, Frame, Window, Loaded, LoopAddress, MoreMult, Eval, NextC, Half, Holds, AfterRound;
    AfterRoundAt(t.mem, c.sp / 4, RoundEnv(feeble, c, lay), acc, b, a, ret);
  }

  /** The epilogue below the loop returns the accumulator. */
  lemma {:induction false} LeaveLoop(feeble: set<Op>, img: Image, lay: Layout, c: State, lo: int, hi: int)
    returns (t: State)
    requires Loaded(img, lay) && Ready(img, c) && Window(img, lo, hi) && !c.decodeMask
    requires lo + 7 <= c.sp / 4 && c.sp / 4 + 6 == hi && Holds(img, lay, c.pc, MultReturn())
    ensures Within(feeble, img, c, t, lo, hi) && t.sp == 4 * (hi - 2) && Holds(img, lay, t.pc, Other(PopPc, End))
    ensures t.mem[hi - 2] == c.mem[c.sp / 4 + 3] && t.mem[hi - 1] == c.mem[c.sp / 4]
    decreases 1, 3
  {
    hide Safe, OnStack, InRam, Loaded, Holds, Exec, Rest, MultReturn, Leads, Round;
    var env, i := RoundEnv(feeble, c, lay), c.sp / 4;
    OnStackRound(feeble, c, lay);
    MultSafe();
    SafeWithMore(MultReturn(), 6, 7, i - lo, 1);
    MultReturnSteps();
    t := Straight(feeble, img, lay, c, MultReturn(), Round(), env, lo, hi, 1);
    TwoLeft(feeble, img, c, t, V(3), V(0), env, lo, hi);
    VarValue(env, 0);
    VarValue(env, 3);
  }

  /** Two known words left at the top of the window. */
  lemma TwoLeft(feeble: set<Op>, img: Image, c: State, t: State, x: Expr, y: Expr, env: Env, lo: int, hi: int)
    requires Leads(feeble, img, c, t, Cons(x, Cons(y, Nil)), env, lo, hi)
    ensures Within(feeble, img, c, t, lo, hi) && t.sp == 4 * (hi - 2) && 0 <= hi - 2 <= hi <= RAM_WORDS
    ensures t.mem[hi - 2] == Eval(x, env) && t.mem[hi - 1] == Eval(y, env)
  {
    hide InRam, Window, Reaches, Frame, Eval;
    LeadsKnows(feeble, img, c, t, Cons(x, Cons(y, Nil)), env, lo, hi);
    assert Height(Cons(y, Nil)) == 1;
    assert OnStack(t.mem, hi - 1, Cons(y, Nil), env);
  }

  /** d is at the top of the loop with this A left, and its C + A*B is `sum` modulo 2^32. */
  ghost predicate LoopTop(img: Image, lay: Layout, d: State, lo: int, hi: int, sum: word, a: nat, ret: word) {
    && AtLoop(img, lay, d, lo, hi) && 0 <= d.sp / 4 <= d.sp / 4 + 6 <= |d.mem|
    && (var i := d.sp / 4; Wrap(d.mem[i] + a * d.mem[i + 1]) == sum && d.mem[i + 2] == a && d.mem[i + 3] == ret)
  }

  /** The states at the top of the loop, round after round: A is halved each time, C + A*B stays the same,
      and A is used up after the last round and not before. */
  ghost predicate Rounds(feeble: set<Op>, img: Image, lay: Layout, tops: seq<State>, lo: int, hi: int,
                         sum: word, a: nat, ret: word) {
    && |tops| > 0 && (forall j :: 0 <= j < |tops| ==> LoopTop(img, lay, tops[j], lo, hi, sum, Halved(a, j), ret))
    && (forall j :: 0 < j < |tops| ==> Within(feeble, img, tops[j - 1], tops[j], lo, hi))
    && Halved(a, |tops|) == 0 && (|tops| > 1 ==> Halved(a, |tops| - 1) != 0)
  }

  /** A after j rounds. */
  function Halved(a: nat, j: nat): nat
    decreases j
  {
    if j == 0 then a else Halved(a / 2, j - 1)
  }

  lemma HalveAgain(a: nat, j: nat)
    ensures Halved(a / 2, j) == Halved(a, j + 1) && Halved(a, 0) == a && Halved(a, 1) == a / 2
  {
    assert Halved(a, 1) == Halved(a / 2, 0);
  }

  lemma {:induction false} HalvedIs(a: nat, j: nat)
    ensures Halved(a, j) == a / Pow2(j)
    decreases j
  {
    if j > 0 {
      HalvedIs(a / 2, j - 1);
      HalfDivMod(a, Pow2(j - 1));
    }
  }

  lemma LastTop(feeble: set<Op>, img: Image, lay: Layout, c: State, lo: int, hi: int, sum: word, a: nat, ret: word)
    requires LoopTop(img, lay, c, lo, hi, sum, a, ret) && a / 2 == 0
    ensures Rounds(feeble, img, lay, [c], lo, hi, sum, a, ret)
  {
    hide LoopTop, Halved;
    HalveAgain(a, 0);
  }

  lemma AnotherTop(feeble: set<Op>, img: Image, lay: Layout, c: State, tops: seq<State>, lo: int, hi: int,
                   sum: word, a: nat, ret: word)
    requires LoopTop(img, lay, c, lo, hi, sum, a, ret) && Rounds(feeble, img, lay, tops, lo, hi, sum, a / 2, ret)
    requires Within(feeble, img, c, tops[0], lo, hi) && a / 2 != 0
    ensures Rounds(feeble, img, lay, [c] + tops, lo, hi, sum, a, ret)
  {
    hide LoopTop, Within, Halved;
    HalveAgain(a, 0);
    var all := [c] + tops;
    forall j | 0 <= j < |all| ensures LoopTop(img, lay, all[j], lo, hi, sum, Halved(a, j), ret) {
      if j > 0 {
        HalveAgain(a, j - 1);
      }
    }
    forall j | 0 < j < |all| ensures Within(feeble, img, all[j - 1], all[j], lo, hi) {
      if j > 1 {
        assert all[j - 1] == tops[j - 2] && all[j] == tops[j - 1];
      }
    }
    HalveAgain(a, |tops|);
    HalveAgain(a, |tops| - 1);
  }

  /** The loop makes as many rounds as A has bits, one if it has none, and returns C + A*B; `rounds` is any
      bound on the number of bits. */
  lemma {:induction false} MultLoop(feeble: set<Op>, img: Image, lay: Layout, c: State, lo: int, hi: int,
                                    acc: word, b: word, a: word, ret: word, rounds: nat)
    returns (t: State, tops: seq<State>)
    requires AtLoop(img, lay, c, lo, hi) && RoundAt(c.mem, c.sp / 4, acc, b, a, ret)
    requires a < Pow2(rounds) && rounds > 0
    ensures Within(feeble, img, c, t, lo, hi) && t.sp == 4 * (hi - 2) && Holds(img, lay, t.pc, Other(PopPc, End))
    ensures 0 <= hi - 2 <= hi <= |t.mem| && t.mem[hi - 2] == ret && t.mem[hi - 1] == Wrap(acc + a * b)
    ensures Rounds(feeble, img, lay, tops, lo, hi, Wrap(acc + a * b), a, ret) && tops[0] == c && |tops| <= rounds
    ensures Within(feeble, img, tops[|tops| - 1], t, lo, hi)
    decreases 1, 5, rounds
  {
    hide AtLoop, Within, Holds, LoopTop, Rounds, RoundAt, Sum, Pow2, Loaded, Window;
    var d := OneRound(feeble, img, lay, c, lo, hi, acc, b, a, ret);
    var acc' := if a % 2 == 1 then Sum(b, acc) else acc;
    RoundSum(acc, b, a, acc');
    TopHere(img, lay, c, lo, hi, acc, b, a, ret);
    if a / 2 != 0 {
      HalfBelow(a, rounds);
      t, tops := MultLoop(feeble, img, lay, d, lo, hi, acc', Sum(b, b), a / 2, ret, rounds - 1);
      AnotherTop(feeble, img, lay, c, tops, lo, hi, Wrap(acc + a * b), a, ret);
      tops := [c] + tops;
    } else {
      RoomLeft(feeble, img, lay, c, d, lo, hi);
      t := LeaveLoop(feeble, img, lay, d, lo, hi);
      WithinSize(feeble, img, d, t, lo, hi);
      LastSum(d, acc', Sum(b, b), ret);
      LastTop(feeble, img, lay, c, lo, hi, Wrap(acc + a * b), a, ret);
      tops := [c];
    }
    WithinJoin(feeble, img, c, d, t, lo, hi);
  }

  lemma TopHere(img: Image, lay: Layout, c: State, lo: int, hi: int, acc: word, b: word, a: word, ret: word)
    requires AtLoop(img, lay, c, lo, hi) && RoundAt(c.mem, c.sp / 4, acc, b, a, ret)
    ensures LoopTop(img, lay, c, lo, hi, Wrap(acc + a * b), a, ret)
  {
    hide AtLoop;
  }

  lemma WithinSize(feeble: set<Op>, img: Image, c: State, t: State, lo: int, hi: int)
    requires Within(feeble, img, c, t, lo, hi)
    ensures Valid(c) && |t.mem| == RAM_WORDS == |c.mem|
  {
    hide Reaches;
  }

  lemma LastSum(d: State, acc: word, b: word, ret: word)
    requires RoundAt(d.mem, d.sp / 4, acc, b, 0, ret)
    ensures 0 <= d.sp / 4 && d.sp / 4 + 3 < |d.mem| && d.mem[d.sp / 4] == acc && d.mem[d.sp / 4 + 3] == ret
    ensures Wrap(acc + 0 * b) == acc
  {
  }

  lemma HalfBelow(a: nat, rounds: nat)
    requires rounds > 0 && a < Pow2(rounds) && a / 2 != 0
    ensures a / 2 < Pow2(rounds - 1) && rounds > 1
  {
    Pow2Values();
  }

  lemma RoomLeft(feeble: set<Op>, img: Image, lay: Layout, c: State, d: State, lo: int, hi: int)
    requires AtLoop(img, lay, c, lo, hi) && Within(feeble, img, c, d, lo, hi) && d.sp == c.sp
    ensures Ready(img, d) && 6 <= hi <= RAM_WORDS == |d.mem|
    ensures Loaded(img, lay) && Window(img, lo, hi) && lo + 7 <= d.sp / 4 && d.sp / 4 + 6 == hi
  {
    hide Loaded, Holds, LoopAddress, Reaches, Frame;
  }

  /** The jump to _slowmultImpl and the copies it makes for the loop. */
  lemma {:induction false} EnterLoop(feeble: set<Op>, img: Image, lay: Layout, c: State, env: Env, lo: int, hi: int)
    returns (t: State)
    requires Loaded(img, lay) && Knows(img, c, Three(), env, lo, hi) && env.lay == lay
    requires c.pc == lay.slowMult && !c.decodeMask && lo + 13 <= hi
    ensures Leads(feeble, img, c, t, Cons(K(0), Cons(V(1), Cons(V(2), Three()))), env, lo, hi)
    ensures t.pc == LoopAddress(img, lay) && Holds(img, lay, t.pc, MoreMult())
    decreases 1, 3
  {
    hide OnStack, InRam, Window, Loaded, MoreMult, Reaches, Frame, Holds, LoopAddress, OpIn, ImIn, AfterIm, Eval;
    var s1 := Cons(V(2), Three());
    var s2 := Cons(V(1), s1);
    assert Height(Three()) == 3 && Height(s1) == 4 && Height(s2) == 5;
    SlowMultAt(img, lay);
    ZeroValue(env);
    var d := ItemLoadsp(feeble, img, c, 2, Three(), env, lo, hi);
    var e := ItemLoadsp(feeble, img, d, 2, s1, env, lo, hi);
    LeadsJoin(feeble, img, c, d, e, s1, env, s2, env, lo, hi);
    t := ItemIm(feeble, img, e, K(0), s2, env, lo, hi);
    LeadsJoin(feeble, img, c, e, t, s2, env, Cons(K(0), s2), env, lo, hi);
  }

  lemma ZeroValue(env: Env)
    ensures Eval(K(0), env) == 0
  {
  }

  lemma SlowMultAt(img: Image, lay: Layout)
    requires Loaded(img, lay)
    ensures OpIn(img, lay.slowMult, LoadSp(2)) && OpIn(img, lay.slowMult + 1, LoadSp(2))
    ensures ImIn(img, lay.slowMult + 2, 0) && LoopAddress(img, lay) == AfterIm(img, lay.slowMult + 2)
    ensures Holds(img, lay, LoopAddress(img, lay), MoreMult())
  {
    hide Routine, ShiftTable, StoreBTail, StoreHTail, LoopOffset, MaskTable, MoreMult;
  }

  /** The rounds of one multiplication, on the way from c to t. */
  ghost predicate Multiplied(feeble: set<Op>, img: Image, lay: Layout, c: State, t: State, tops: seq<State>,
                             a: word, b: word, lo: int, hi: int) {
    && Valid(c) && 0 <= c.pc < RAM_SIZE && Rounds(feeble, img, lay, tops, lo, hi, Product(a, b), b, c.pc + 1)
    && Within(feeble, img, c, tops[0], lo, hi) && Within(feeble, img, tops[|tops| - 1], t, lo, hi)
  }

  /** _mult returns the wrapped product after at most 32 rounds. */
  lemma {:induction false} EmulateMult(feeble: set<Op>, img: Image, lay: Layout, c: State, lo: int)
    returns (t: State, tops: seq<State>)
    requires Callable(feeble, img, lay, c, Binary(Mult), 2, lo)
    ensures Returned(feeble, img, c, t, 2, Computed(feeble, Mult, c.mem[c.sp / 4], c.mem[c.sp / 4 + 1]), lo)
    ensures Multiplied(feeble, img, lay, c, t, tops, c.mem[c.sp / 4], c.mem[c.sp / 4 + 1], lo, c.sp / 4 + 2)
    ensures |tops| <= 32
    decreases 1, 6
  {
    hide Callable, Entry, Suits, Leads, Returned, Operands2, Computed, Loaded, Three, Routine, Knows, Holds, Eval;
    hide OnStack, InRam, Window, MoreMult, Within, AtLoop, RoundAt;
    EntryTwo(feeble, img, lay, c, Binary(Mult), lo);
    var env, a, b, hi := EntryEnv(feeble, c, lay, 2), c.mem[c.sp / 4], c.mem[c.sp / 4 + 1], c.sp / 4 + 2;
    MultSuits();
    MultFacts(feeble, img, lay, c, lo, env, a, b);
    t := RunRoutine(feeble, img, lay, c, Binary(Mult), 2, Operands2(), env,
                    Other(PopPc, End), Cons(Ref(SLOWMULT), Three()), lo);
    SlowMultTarget(img, lay, env, t.pc);
    t := Jump(feeble, img, c, t, Cons(Ref(SLOWMULT), Three()), env, lo, hi);
    var d := t;
    d, tops := CallLoop(feeble, img, lay, c, t, env, c.pc + 1, a, b, lo, hi);
    t := Leave(feeble, img, c, d, K(Product(a, b)), env, lo, hi);
    Popped(feeble, img, c, d, t, 2, Computed(feeble, Mult, a, b), lo, hi);
    WithinJoin(feeble, img, tops[|tops| - 1], d, t, lo, hi);
  }

  lemma Popped(feeble: set<Op>, img: Image, c: State, d: State, t: State, pops: nat, v: word, lo: int, hi: int)
    requires Returned(feeble, img, c, t, pops, v, lo) && Valid(d) && Reaches(feeble, d, t) && t.mem == d.mem
    ensures Within(feeble, img, d, t, lo, hi)
  {
    hide Reaches, InRam;
  }

  lemma MultFacts(feeble: set<Op>, img: Image, lay: Layout, c: State, lo: int, env: Env, a: word, b: word)
    requires Callable(feeble, img, lay, c, Binary(Mult), 2, lo)
    ensures lo + 11 <= c.sp / 4
    ensures Eval(K(Product(a, b)), env) == Computed(feeble, Mult, a, b)
  {
    hide Loaded, InRam, Window, Fetch, HasRoutine;
  }

  lemma MultSuits()
    ensures Suits(Binary(Mult), 2, Operands2(), Other(PopPc, End), Cons(Ref(SLOWMULT), Three()))
  {
    hide Safe;
    assert Cons(V(0), Operands2()) == Three();
    MultSafe();
  }

  lemma SlowMultTarget(img: Image, lay: Layout, env: Env, a: int)
    requires Loaded(img, lay) && env.lay == lay && Holds(img, lay, a, Other(PopPc, End))
    ensures Eval(Ref(SLOWMULT), env) == lay.slowMult <= RAM_SIZE && OpIn(img, a, PopPc)
  {
    hide Routine, ShiftTable, StoreBTail, StoreHTail, LoopOffset, MaskTable, SlowMult;
  }

  /** From the jump to _slowmultImpl to its poppc. */
  lemma {:induction false} CallLoop(feeble: set<Op>, img: Image, lay: Layout, c: State, d: State, env: Env,
                                    ret: word, a: word, b: word, lo: int, hi: int)
    returns (t: State, tops: seq<State>)
    requires Loaded(img, lay) && Leads(feeble, img, c, d, Three(), env, lo, hi)
    requires env.lay == lay && Operands(env, ret, a, b)
    requires d.pc == lay.slowMult && !d.decodeMask && lo + 13 <= hi
    ensures Leads(feeble, img, c, t, Cons(V(0), Cons(K(Product(a, b)), Nil)), env, lo, hi)
    ensures OpIn(img, t.pc, PopPc)
    ensures Rounds(feeble, img, lay, tops, lo, hi, Product(a, b), b, ret) && |tops| <= 32
    ensures Within(feeble, img, c, tops[0], lo, hi) && Within(feeble, img, tops[|tops| - 1], t, lo, hi)
    decreases 1, 5, 33
  {
    hide OnStack, InRam, Window, Loaded, MoreMult, Reaches, Frame, LoopAddress, Eval, Knows, Rounds, LoopTop;
    var start := Cons(K(0), Cons(V(1), Cons(V(2), Three())));
    LeadsKnows(feeble, img, c, d, Three(), env, lo, hi);
    var e := EnterLoop(feeble, img, lay, d, env, lo, hi);
    LeadsJoin(feeble, img, c, d, e, Three(), env, start, env, lo, hi);
    LoopStart(img, lay, e, env, ret, a, b, lo, hi);
    Pow2Values();
    t, tops := MultLoop(feeble, img, lay, e, lo, hi, 0, a, b, ret, 32);
    assert Wrap(0 + b * a) == Product(a, b) by { assert b * a == a * b; }
    LeadsWithin(feeble, img, c, e, start, env, lo, hi);
    LoopResult(feeble, img, c, e, t, start, env, ret, a, b, lo, hi);
  }

  lemma LeadsWithin(feeble: set<Op>, img: Image, c: State, e: State, s: Stack, env: Env, lo: int, hi: int)
    requires Leads(feeble, img, c, e, s, env, lo, hi)
    ensures Within(feeble, img, c, e, lo, hi)
  {
    hide Reaches, InRam, Frame, OnStack, Window;
  }

  lemma LoopStart(img: Image, lay: Layout, e: State, env: Env, ret: word, a: word, b: word, lo: int, hi: int)
    requires Loaded(img, lay) && Knows(img, e, Cons(K(0), Cons(V(1), Cons(V(2), Three()))), env, lo, hi)
    requires Operands(env, ret, a, b) && lo + 13 <= hi
    requires e.pc == LoopAddress(img, lay) && Holds(img, lay, e.pc, MoreMult())
    ensures AtLoop(img, lay, e, lo, hi) && RoundAt(e.mem, e.sp / 4, 0, a, b, ret)
  {
    hide InRam, Window, Loaded, MoreMult, LoopAddress, Holds;
    var i := e.sp / 4;
    assert Height(Cons(V(1), Cons(V(2), Three()))) == 5;
    assert OnStack(e.mem, i + 2, Cons(V(2), Three()), env);
    assert OnStack(e.mem, i + 3, Three(), env);
  }

  lemma LoopResult(feeble: set<Op>, img: Image, c: State, e: State, t: State, s: Stack, env: Env,
                   ret: word, a: word, b: word, lo: int, hi: int)
    requires Leads(feeble, img, c, e, s, env, lo, hi) && Within(feeble, img, e, t, lo, hi)
    requires Operands(env, ret, a, b) && t.sp == 4 * (hi - 2) && 0 <= hi - 2 <= hi <= |t.mem|
    requires t.mem[hi - 2] == ret && t.mem[hi - 1] == Wrap(0 + b * a) && lo <= hi - 2
    ensures Leads(feeble, img, c, t, Cons(V(0), Cons(K(Product(a, b)), Nil)), env, lo, hi)
  {
    hide InRam, Window, Reaches;
    assert a * b == b * a;
    ReachesJoin(feeble, c, e, t);
    var s := Cons(K(Product(a, b)), Nil);
    assert Height(s) == 1 && OnStack(t.mem, hi - 1, s, env);
    assert Frame(c.mem, t.mem, lo, hi);
  }
}
