/** Emulation refines execution: one emulated instruction against the processor, for every set of
    emulated opcodes. */
module Refinement {
  import opened Words
  import opened Isa
  import opened Cpu
  import opened Runs
  import opened Crt0
  import opened StackCode
  import opened Images
  import opened CodeRuns
  import opened Emulation
  import opened MemoryEmulation
  import opened HighLoads
  import opened Agreement

  // ---- The processor's own step, for the instructions that have a routine ----

  lemma NativeBranch(c: State, op: Op)
    requires Valid(c) && Fetch(c) == Got(op) && c.sp + 4 < RAM_SIZE && (op == EqBranch || op == NeqBranch)
    requires Step({}, c).Ran?
    ensures var goal := BranchGoal(op, c.pc, c.mem[c.sp / 4], c.mem[c.sp / 4 + 1]);
      goal <= RAM_SIZE && Step({}, c).c == State(goal, c.sp + 8, false, c.mem)
  {
    hide EmulateCode, OpAt, OnNone, OnTop;
    InsideRam(c);
  }

  lemma NativeCall(c: State, op: Op)
    requires Valid(c) && Fetch(c) == Got(op) && c.sp < RAM_SIZE && (op == Call || op == CallPcRel)
    requires Step({}, c).Ran?
    ensures var goal := CallGoal(op, c.pc, c.mem[c.sp / 4]);
      goal <= RAM_SIZE && Step({}, c).c == State(goal, c.sp, false, c.mem[c.sp / 4 := c.pc + 1])
  {
    hide EmulateCode, OpAt, OnNone, OnTwo;
    InsideRam(c);
  }

  lemma NativePopPcRel(c: State)
    requires Valid(c) && Fetch(c) == Got(PopPcRel) && c.sp < RAM_SIZE && Step({}, c).Ran?
    ensures var goal := CallGoal(PopPcRel, c.pc, c.mem[c.sp / 4]);
      goal <= RAM_SIZE && Step({}, c).c == State(goal, c.sp + 4, false, c.mem)
  {
    hide EmulateCode, OpAt, OnNone, OnTwo;
    InsideRam(c);
  }

  lemma NativePushSpAdd(c: State)
    requires Valid(c) && Fetch(c) == Got(PushSpAdd) && c.sp < RAM_SIZE
    ensures Step({}, c)
         == Ran(State(c.pc + 1, c.sp, false, c.mem[c.sp / 4 := ScaledSp(c.sp, c.mem[c.sp / 4])]))
  {
    hide EmulateCode, OpAt, OnNone, OnTwo;
    InsideRam(c);
  }

  lemma NativeLoad(c: State, op: Op, a: word)
    requires Valid(c) && c.sp < RAM_SIZE && a == c.mem[c.sp / 4] && a < RAM_SIZE
    requires Fetch(c) == Got(op) && (op == LoadB || op == LoadH) && Step({}, c).Ran?
    ensures Readable(op, a)
    ensures Step({}, c).c
         == State(c.pc + 1, c.sp, false, c.mem[c.sp / 4 := LoadResult(op, c.mem[a / 4], a % 4)])
  {
    hide EmulateCode, OpAt, OnNone, OnTwo, Byte;
    InsideRam(c);
  }

  lemma NativeStore(c: State, op: Op, a: word, b: word)
    requires Valid(c) && c.sp + 4 < RAM_SIZE && a == c.mem[c.sp / 4] && b == c.mem[c.sp / 4 + 1]
    requires Fetch(c) == Got(op) && (op == StoreB || op == StoreH) && Step({}, c).Ran?
    ensures a < RAM_SIZE && (op == StoreH ==> a % 2 == 0)
    ensures Step({}, c).c
         == State(c.pc + 1, c.sp + 8, false, c.mem[a / 4 := StoreResult(op, c.mem[a / 4], a % 4, b)])
  {
    hide EmulateCode, OpAt, OnNone, OnTop, SetByte, SetHalf;
    InsideRam(c);
  }

  // ---- One emulated instruction ----

  /** A subtraction in the word that the return address is pushed to: the processor executes it, the
      emulating machine faults with its opcode overwritten. */
  lemma OverwrittenSub() returns (c: State)
    ensures Valid(c) && c.sp == 0x10_0000 && c.pc == 0xf_fffc && Fetch(c) == Got(Binary(Sub))
    ensures Step({}, c).Ran? && Effect({Binary(Sub)}, c) == Trap(MemoryAccess, Ram(0x3_ffff, Word(0xf_fffd)))
  {
    hide Effect, Step;
    c := State(0xf_fffc, 0x10_0000, false, seq(RAM_WORDS, i => if i == 0x3_ffff then 0x3100_0000 else 0));
    assert Byte(c.mem[c.pc / 4], c.pc % 4) == 49;
    StepBinary({}, c, Sub);
    OverwrittenFaults({Binary(Sub)}, c, Binary(Sub));
  }

  /** The lowest word an emulated instruction may overwrite. */
  function ScratchLow(op: Op, sp: int): int {
    sp / 4 - Depth(op)
  }

  /** What a program must respect where it executes an emulated instruction: room, the opcode left in
      place by the push of the return address, no shift the emulation computes differently, and no load
      from outside RAM. */
  ghost predicate Permits(feeble: set<Op>, img: Image, c: State, op: Op) {
    && HasRoom(img, c, op) && StillThere(c, op)
    && (op.Binary? ==> ShiftOk(feeble, op.f, c.mem[c.sp / 4], c.mem[c.sp / 4 + 1]))
    && (op == LoadB || op == LoadH ==> c.mem[c.sp / 4] < RAM_SIZE)
  }

  /** Room below sp clear of the emulation code; no byte is read from it, and none stored into it or
      into the emulation code. */
  ghost predicate HasRoom(img: Image, c: State, op: Op) {
    var lo, hi := ScratchLow(op, c.sp), c.sp / 4 + Pops(op, false);
    && Valid(c) && Window(img, lo, hi) && hi <= RAM_WORDS
    && (op == LoadB || op == LoadH ==> !(lo <= c.mem[c.sp / 4] / 4 < c.sp / 4))
    && (op == StoreB || op == StoreH ==> !(lo <= c.mem[c.sp / 4] / 4 < c.sp / 4) && c.mem[c.sp / 4] / 4 !in img)
  }

  /** The emulating machine went from c to t, which is n except for words lo.. below n's sp. */
  ghost predicate Matches(feeble: set<Op>, img: Image, c: State, t: State, n: State, lo: int) {
    && Valid(c) && Ready(img, t) && Reaches(feeble, c, t)
    && t.pc == n.pc && t.sp == n.sp && t.decodeMask == n.decodeMask
    && Frame(n.mem, t.mem, lo, n.sp / 4)
  }

  lemma MatchesReturned(feeble: set<Op>, img: Image, c: State, t: State, pops: nat, v: word, lo: int)
    requires Returned(feeble, img, c, t, pops, v, lo) && lo <= c.sp / 4 && 1 <= pops && c.sp / 4 + pops <= RAM_WORDS
    ensures Matches(feeble, img, c, t,
                    State(c.pc + 1, c.sp + 4 * (pops - 1), false, c.mem[c.sp / 4 + pops - 1 := v]), lo)
  {
    hide InRam, Reaches;
  }

  /** The side conditions in the form the emulation lemmas ask for. */
  lemma PermitsCall(feeble: set<Op>, img: Image, lay: Layout, c: State, op: Op)
    requires Loaded(img, lay) && Ready(img, c) && Fetch(c) == Got(op) && op in feeble && HasRoutine(op)
    requires Permits(feeble, img, c, op)
    ensures Callable(feeble, img, lay, c, op, Pops(op, false), ScratchLow(op, c.sp))
    ensures c.sp / 4 + Pops(op, false) <= RAM_WORDS && 1 <= Pops(op, false) <= 2
    ensures op.Unary? ==> op == Unary(Neg_)
  {
    hide Loaded, InRam, Depth, Fetch, ShiftOk, StillThere;
  }

  lemma EmulatedBinary(feeble: set<Op>, img: Image, lay: Layout, c: State, f: Alu2)
    returns (t: State)
    requires Loaded(img, lay) && Ready(img, c) && Fetch(c) == Got(Binary(f)) && Binary(f) in feeble && HasRoutine(Binary(f))
    requires Permits(feeble, img, c, Binary(f))
    ensures Step({}, c).Ran? && Matches(feeble, img, c, t, Step({}, c).c, ScratchLow(Binary(f), c.sp))
  {
    hide Loaded, InRam, Depth, Fetch, ShiftOk, Callable, Matches, Returned, Alu2Value, Computed, Step, HasRoutine;
    PermitsCall(feeble, img, lay, c, Binary(f));
    t := EmulateBinary(feeble, img, lay, c, f, ScratchLow(Binary(f), c.sp));
    var a, b := c.mem[c.sp / 4], c.mem[c.sp / 4 + 1];
    Agrees(feeble, f, a, b);
    DepthPositive(Binary(f));
    MatchesReturned(feeble, img, c, t, 2, Alu2Value(f, a, b), ScratchLow(Binary(f), c.sp));
    StepBinary({}, c, f);
  }

  lemma EmulatedNeg(feeble: set<Op>, img: Image, lay: Layout, c: State)
    returns (t: State)
    requires Loaded(img, lay) && Ready(img, c) && Fetch(c) == Got(Unary(Neg_)) && Unary(Neg_) in feeble
    requires Permits(feeble, img, c, Unary(Neg_))
    ensures Step({}, c).Ran? && Matches(feeble, img, c, t, Step({}, c).c, ScratchLow(Unary(Neg_), c.sp))
  {
    hide Loaded, InRam, Depth, Fetch, ShiftOk, Callable, Matches, Returned, Alu1Value, Step;
    PermitsCall(feeble, img, lay, c, Unary(Neg_));
    t := EmulateNeg(feeble, img, lay, c, ScratchLow(Unary(Neg_), c.sp));
    DepthPositive(Unary(Neg_));
    MatchesReturned(feeble, img, c, t, 1, Alu1Value(Neg_, c.mem[c.sp / 4]), ScratchLow(Unary(Neg_), c.sp));
    StepUnary({}, c, Neg_);
  }

  lemma EmulatedAccess(feeble: set<Op>, img: Image, lay: Layout, c: State, op: Op)
    returns (t: State)
    requires Loaded(img, lay) && Ready(img, c) && Fetch(c) == Got(op) && op in feeble && HasRoutine(op)
    requires Permits(feeble, img, c, op) && Step({}, c).Ran? && (op == LoadB || op == LoadH || op == PushSpAdd)
    ensures Matches(feeble, img, c, t, Step({}, c).c, ScratchLow(op, c.sp))
  {
    hide Loaded, InRam, Depth, Fetch, ShiftOk, Callable, Matches, Returned, Step, LoadResult, HasRoutine, StillThere, Window, Byte;
    PermitsCall(feeble, img, lay, c, op);
    DepthPositive(op);
    var a, lo := c.mem[c.sp / 4], ScratchLow(op, c.sp);
    if op == PushSpAdd {
      t := EmulatePushSpAdd(feeble, img, lay, c, a, lo);
      MatchesReturned(feeble, img, c, t, 1, ScaledSp(c.sp, a), lo);
      NativePushSpAdd(c);
    } else {
      NativeLoad(c, op, a);
      t := EmulateLoad(feeble, img, lay, c, op, a, lo);
      MatchesReturned(feeble, img, c, t, 1, LoadResult(op, c.mem[a / 4], a % 4), lo);
    }
  }

  lemma EmulatedStore(feeble: set<Op>, img: Image, lay: Layout, c: State, op: Op)
    returns (t: State)
    requires Loaded(img, lay) && Ready(img, c) && Fetch(c) == Got(op) && op in feeble && HasRoutine(op)
    requires Permits(feeble, img, c, op) && Step({}, c).Ran? && (op == StoreB || op == StoreH)
    ensures Matches(feeble, img, c, t, Step({}, c).c, ScratchLow(op, c.sp))
  {
    hide Loaded, InRam, Depth, Fetch, ShiftOk, Callable, Step, StoreResult, HasRoutine, Reaches, Frame;
    PermitsCall(feeble, img, lay, c, op);
    var a, b, lo := c.mem[c.sp / 4], c.mem[c.sp / 4 + 1], ScratchLow(op, c.sp);
    NativeStore(c, op, a, b);
    t := EmulateStore(feeble, img, lay, c, op, a, b, lo);
  }

  lemma EmulatedJump(feeble: set<Op>, img: Image, lay: Layout, c: State, op: Op)
    returns (t: State)
    requires Loaded(img, lay) && Ready(img, c) && Fetch(c) == Got(op) && op in feeble && HasRoutine(op)
    requires Permits(feeble, img, c, op) && Step({}, c).Ran?
    requires op == EqBranch || op == NeqBranch || op == Call || op == CallPcRel || op == PopPcRel
    ensures Matches(feeble, img, c, t, Step({}, c).c, ScratchLow(op, c.sp))
  {
    hide Loaded, InRam, Depth, Fetch, ShiftOk, Callable, Step, HasRoutine, Reaches, BranchGoal, CallGoal;
    PermitsCall(feeble, img, lay, c, op);
    DepthPositive(op);
    var lo := ScratchLow(op, c.sp);
    if op == EqBranch || op == NeqBranch {
      NativeBranch(c, op);
      t := EmulateBranch(feeble, img, lay, c, op, lo);
    } else if op == PopPcRel {
      NativePopPcRel(c);
      t := EmulatePopPcRel(feeble, img, lay, c, lo);
    } else {
      NativeCall(c, op);
      t := EmulateCall(feeble, img, lay, c, op, lo);
    }
  }

  /** Emulating one instruction, with any other opcodes emulated as well, reaches the state the
      processor reaches, but for at most Depth(op) words below the sp at entry. */
  lemma EmulatedStep(feeble: set<Op>, img: Image, lay: Layout, c: State, op: Op)
    returns (t: State)
    requires Loaded(img, lay) && Ready(img, c) && Fetch(c) == Got(op) && op in feeble && HasRoutine(op)
    requires Permits(feeble, img, c, op) && Step({}, c).Ran?
    ensures Matches(feeble, img, c, t, Step({}, c).c, ScratchLow(op, c.sp))
  {
    hide Loaded, InRam, Depth, Fetch, HasRoom, Matches, Step, StillThere;
    if op.Binary? {
      t := EmulatedBinary(feeble, img, lay, c, op.f);
    } else if op.Unary? {
      PermitsCall(feeble, img, lay, c, op);
      t := EmulatedNeg(feeble, img, lay, c);
    } else if op == LoadB || op == LoadH || op == PushSpAdd {
      t := EmulatedAccess(feeble, img, lay, c, op);
    } else if op == StoreB || op == StoreH {
      t := EmulatedStore(feeble, img, lay, c, op);
    } else {
      t := EmulatedJump(feeble, img, lay, c, op);
    }
  }

  /** A byte or half-word at the very end of the address space: the processor reads it from word 0. */
  lemma NativeHighLoad(c: State, op: Op, a: word)
    requires Valid(c) && c.sp < RAM_SIZE && a == c.mem[c.sp / 4] && a >= RAM_SIZE
    requires Fetch(c) == Got(op) && (op == LoadB || op == LoadH)
    ensures Step({}, c).Ran? <==> a >= M - 3 && (op == LoadH ==> a % 2 == 0)
    ensures Step({}, c).Ran? ==>
      Step({}, c).c == State(c.pc + 1, c.sp, false, c.mem[c.sp / 4 := LoadResult(op, c.mem[0], a % 4)])
  {
    hide EmulateCode, OpAt, OnNone, OnTwo, Byte;
    InsideRam(c);
  }

  /** A load the processor performs is matched by the emulating machine if and only if its address is
      in RAM. */
  lemma EmulatedLoadExact(feeble: set<Op>, img: Image, lay: Layout, c: State, op: Op)
    requires Loaded(img, lay) && Ready(img, c) && Fetch(c) == Got(op) && op in feeble && (op == LoadB || op == LoadH)
    requires HasRoom(img, c, op) && StillThere(c, op) && Step({}, c).Ran?
    ensures c.sp / 4 < RAM_WORDS
    ensures (exists t :: Matches(feeble, img, c, t, Step({}, c).c, ScratchLow(op, c.sp))) <==> c.mem[c.sp / 4] < RAM_SIZE
  {
    hide Loaded, InRam, Fetch, Step, Matches, StillThere;
    var lo, a := ScratchLow(op, c.sp), c.mem[c.sp / 4];
    assert HasRoutine(op) && Pops(op, false) == 1 && Depth(op) == 10;
    if a < RAM_SIZE {
      var t := EmulatedStep(feeble, img, lay, c, op);
    } else {
      NativeHighLoad(c, op, a);
      forall t | Matches(feeble, img, c, t, Step({}, c).c, lo) ensures false {
        MatchesPlace(feeble, img, c, t, Step({}, c).c, lo);
        NeverReturns(feeble, img, lay, c, op, lo, t);
      }
    }
  }

  lemma MatchesPlace(feeble: set<Op>, img: Image, c: State, t: State, n: State, lo: int)
    requires Matches(feeble, img, c, t, n, lo)
    ensures Valid(c) && Reaches(feeble, c, t) && t.pc == n.pc && t.sp == n.sp
  {
    hide Reaches, Frame;
  }

  /** Whatever the amount, an emulated shift returns in place of its operands; the word it leaves is
      the processor's exactly when ShiftOk holds. */
  lemma EmulatedShift(feeble: set<Op>, img: Image, lay: Layout, c: State, f: Alu2, lo: int) returns (t: State)
    requires Callable(feeble, img, lay, c, Binary(f), 2, lo) && IsShift(f)
    ensures Step({}, c).Ran? && Valid(c) && Valid(t) && Reaches(feeble, c, t)
    ensures var n := Step({}, c).c;
      && t.pc == n.pc && t.sp == n.sp && t.decodeMask == n.decodeMask && c.sp / 4 + 1 < RAM_WORDS
      && (t.mem[c.sp / 4 + 1] == n.mem[c.sp / 4 + 1]
          <==> ShiftOk(feeble, f, c.mem[c.sp / 4], c.mem[c.sp / 4 + 1]))
  {
    hide Loaded, InRam, Depth, Fetch, ShiftOk, Alu2Value, Computed, Step, HasRoutine, Reaches, Frame;
    t := EmulateBinary(feeble, img, lay, c, f, lo);
    Agrees(feeble, f, c.mem[c.sp / 4], c.mem[c.sp / 4 + 1]);
    StepBinary({}, c, f);
  }
}
