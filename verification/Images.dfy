/** The emulation code in memory, the known part of a stack in memory, and how single
    instructions of that code act on them. */
module Images {
  import opened Words
  import opened Isa
  import opened Cpu
  import opened Runs
  import opened Crt0
  import opened StackCode

  /** The words the emulation code and its mask table occupy. */
  type Image = map<int, word>

  ghost predicate InRam(img: Image, mem: seq<word>) {
    && |mem| == RAM_WORDS
    && forall i :: i in img ==> 0 <= i < RAM_WORDS && mem[i] == img[i]
  }

  ghost predicate Ready(img: Image, c: State) {
    Valid(c) && InRam(img, c.mem)
  }

  ghost predicate OpIn(img: Image, a: int, op: Op) {
    0 <= a < RAM_SIZE && a / 4 in img && Decode(Byte(img[a / 4], a % 4)) == op
  }

  lemma FetchImage(img: Image, c: State, op: Op)
    requires Ready(img, c) && OpIn(img, c.pc, op)
    ensures Fetch(c) == Got(op)
  {
  }

  /** The seven-bit groups of the IM bytes from address a on. */
  ghost function ImGroups(img: Image, a: int): seq<nat>
    decreases RAM_SIZE - a
  {
    if 0 <= a < RAM_SIZE && a / 4 in img && Byte(img[a / 4], a % 4) >= 128
    then [Byte(img[a / 4], a % 4) - 128] + ImGroups(img, a + 1)
    else []
  }

  lemma {:induction false} ImGroupsAt(img: Image, a: int)
    ensures forall j :: 0 <= j < |ImGroups(img, a)| ==>
      ImGroups(img, a)[j] < 128 && OpIn(img, a + j, Im(ImGroups(img, a)[j]))
    decreases RAM_SIZE - a
  {
    var gs := ImGroups(img, a);
    if gs != [] {
      ImGroupsAt(img, a + 1);
      var rest := ImGroups(img, a + 1);
      forall j | 0 <= j < |gs| ensures gs[j] < 128 && OpIn(img, a + j, Im(gs[j])) {
        if j > 0 {
          assert gs[j] == rest[j - 1];
          assert OpIn(img, (a + 1) + (j - 1), Im(rest[j - 1]));
        }
      }
    }
  }

  ghost predicate ImIn(img: Image, a: int, v: word) {
    var gs := ImGroups(img, a);
    && |gs| >= 1 && (forall j :: 0 <= j < |gs| ==> gs[j] < 128)
    && ImmediateValue(gs) == v
  }

  ghost function AfterIm(img: Image, a: int): int {
    a + |ImGroups(img, a)|
  }

  /** The bytes from address a on are this code. */
  ghost predicate Holds(img: Image, lay: Layout, a: int, code: Code)
    decreases code
  {
    match code
    case End => true
    case Imm(v, next) => ImIn(img, a, v) && Holds(img, lay, AfterIm(img, a), next)
    case ImmOf(s, next) => ImIn(img, a, Address(s, lay)) && Holds(img, lay, AfterIm(img, a), next)
    case Loadsp(k, next) => OpIn(img, a, LoadSp(k)) && Holds(img, lay, a + 1, next)
    case Storesp(k, next) => OpIn(img, a, StoreSp(k)) && Holds(img, lay, a + 1, next)
    case Addsp(k, next) => OpIn(img, a, AddSp(k)) && Holds(img, lay, a + 1, next)
    case Un(g, next) => OpIn(img, a, Unary(g)) && Holds(img, lay, a + 1, next)
    case Bin(f, next) => OpIn(img, a, Binary(f)) && Holds(img, lay, a + 1, next)
    case Noop(next) => OpIn(img, a, Nop) && Holds(img, lay, a + 1, next)
    case Other(op, next) => OpIn(img, a, op) && Holds(img, lay, a + 1, next)
  }

  // ---- The known stack in memory, from word index i upwards ----

  ghost predicate OnStack(mem: seq<word>, i: int, s: Stack, env: Env)
    decreases s
  {
    s.Cons? ==> 0 <= i < |mem| && mem[i] == Eval(s.top, env) && OnStack(mem, i + 1, s.below, env)
  }

  lemma {:induction false} OnStackSame(mem: seq<word>, mem': seq<word>, i: int, s: Stack, env: Env)
    requires OnStack(mem, i, s, env) && |mem| == |mem'|
    requires forall j :: i <= j < i + Height(s) && 0 <= j < |mem| ==> mem'[j] == mem[j]
    ensures OnStack(mem', i, s, env)
    decreases s
  {
    if s.Cons? {
      OnStackSame(mem, mem', i + 1, s.below, env);
    }
  }

  lemma {:induction false} OnStackNth(mem: seq<word>, i: int, s: Stack, env: Env, k: nat)
    requires OnStack(mem, i, s, env) && k < Height(s)
    ensures 0 <= i + k < |mem| && mem[i + k] == Eval(Nth(s, k), env)
    decreases k
  {
    if k > 0 {
      OnStackNth(mem, i + 1, s.below, env, k - 1);
    }
  }

  lemma OnStackPush(mem: seq<word>, i: int, s: Stack, env: Env, e: Expr)
    requires OnStack(mem, i, s, env) && 1 <= i <= |mem|
    ensures OnStack(mem[i - 1 := Eval(e, env)], i - 1, Cons(e, s), env)
  {
    OnStackSame(mem, mem[i - 1 := Eval(e, env)], i, s, env);
  }

  lemma {:induction false} OnStackPut(mem: seq<word>, i: int, s: Stack, env: Env, k: nat, e: Expr)
    requires OnStack(mem, i, s, env) && k < Height(s) && 0 <= i + k < |mem|
    ensures OnStack(mem[i + k := Eval(e, env)], i, Put(s, k, e), env)
    ensures Height(Put(s, k, e)) == Height(s)
    decreases k
  {
    var mem' := mem[i + k := Eval(e, env)];
    if k == 0 {
      OnStackSame(mem, mem', i + 1, s.below, env);
    } else {
      OnStackPut(mem, i + 1, s.below, env, k - 1, e);
      assert mem' == mem[(i + 1) + (k - 1) := Eval(e, env)];
    }
  }

  ghost predicate Frame(mem: seq<word>, mem': seq<word>, lo: int, hi: int) {
    && |mem| == |mem'|
    && forall j :: 0 <= j < |mem| && !(lo <= j < hi) ==> mem'[j] == mem[j]
  }

  /** Words lo..hi are RAM and hold none of the emulation code. */
  ghost predicate Window(img: Image, lo: int, hi: int) {
    0 <= lo <= hi <= RAM_WORDS && forall i :: lo <= i < hi ==> i !in img
  }

  // ---- Single instructions, executed by the processor itself ----

  lemma InsideRam(c: State)
    requires Valid(c) && Fetch(c).Got?
    ensures c.pc < RAM_SIZE
  {
  }

  lemma StepLoadSp(feeble: set<Op>, c: State, k: nat)
    requires Valid(c) && Fetch(c) == Got(LoadSp(k)) && 4 <= c.sp <= RAM_SIZE && c.sp / 4 + k < RAM_WORDS
    ensures Step(feeble, c)
         == Ran(State(c.pc + 1, c.sp - 4, false, c.mem[c.sp / 4 - 1 := c.mem[c.sp / 4 + k]]))
  {
    hide OpAt, EmulateCode, OnTop, OnTwo;
    InsideRam(c);
  }

  lemma StepStoreSp(feeble: set<Op>, c: State, k: nat)
    requires Valid(c) && Fetch(c) == Got(StoreSp(k)) && c.sp / 4 + k < RAM_WORDS
    ensures Step(feeble, c)
         == Ran(State(c.pc + 1, c.sp + 4, false, c.mem[c.sp / 4 + k := c.mem[c.sp / 4]]))
  {
    hide OpAt, EmulateCode, OnNone, OnTwo;
    InsideRam(c);
  }

  lemma StepAddSp(feeble: set<Op>, c: State, k: nat)
    requires Valid(c) && Fetch(c) == Got(AddSp(k)) && c.sp / 4 + k < RAM_WORDS
    ensures Step(feeble, c)
         == Ran(State(c.pc + 1, c.sp, false, c.mem[c.sp / 4 := Sum(c.mem[c.sp / 4], c.mem[c.sp / 4 + k])]))
  {
    hide OpAt, EmulateCode, OnNone, OnTwo;
    InsideRam(c);
  }

  lemma StepUnary(feeble: set<Op>, c: State, g: Alu1)
    requires Valid(c) && Fetch(c) == Got(Unary(g)) && c.sp < RAM_SIZE
    requires Unary(g) !in feeble || !HasRoutine(Unary(g))
    ensures Step(feeble, c)
         == Ran(State(c.pc + 1, c.sp, false, c.mem[c.sp / 4 := Alu1Value(g, c.mem[c.sp / 4])]))
  {
    hide Alu1Value;
  }

  lemma StepBinary(feeble: set<Op>, c: State, f: Alu2)
    requires Valid(c) && Fetch(c) == Got(Binary(f)) && c.sp + 4 < RAM_SIZE
    requires Binary(f) !in feeble || !HasRoutine(Binary(f))
    ensures Step(feeble, c)
         == Ran(State(c.pc + 1, c.sp + 4, false,
                      c.mem[c.sp / 4 + 1 := Alu2Value(f, c.mem[c.sp / 4], c.mem[c.sp / 4 + 1])]))
  {
    hide Alu2Value;
  }

  lemma StepNop(feeble: set<Op>, c: State)
    requires Valid(c) && Fetch(c) == Got(Nop)
    ensures Step(feeble, c) == Ran(State(c.pc + 1, c.sp, false, c.mem))
  {
  }

  lemma StepPopPc(feeble: set<Op>, c: State)
    requires Valid(c) && Fetch(c) == Got(PopPc) && c.sp < RAM_SIZE && c.mem[c.sp / 4] <= RAM_SIZE
    ensures Step(feeble, c) == Ran(State(c.mem[c.sp / 4], c.sp + 4, false, c.mem))
  {
    hide OpAt, EmulateCode, OnNone, OnTwo;
    InsideRam(c);
  }

  /** Pushing the return address leaves the opcode at pc what it is. */
  predicate StillThere(c: State, op: Op) {
    c.pc / 4 == c.sp / 4 - 1 ==> 0 <= c.pc < RAM_SIZE && Decode(Byte(c.pc + 1, c.pc % 4)) == op
  }

  /** The state in which the routine of op starts. */
  function AtVector(c: State, op: Op): State
    requires 1 <= c.sp / 4 <= |c.mem| && 0 <= c.pc < RAM_SIZE
  {
    State((EmulateCode(op) - 32) * VECTOR_SIZE, c.sp - 4, false, c.mem[c.sp / 4 - 1 := c.pc + 1])
  }

  /** Entering the vector of an emulated instruction. */
  lemma StepEmulate(feeble: set<Op>, c: State, op: Op)
    requires Valid(c) && Fetch(c) == Got(op) && op in feeble && Emulatable(op) && 4 <= c.sp <= RAM_SIZE
    requires StillThere(c, op)
    ensures Step(feeble, c) == Ran(AtVector(c, op))
  {
    hide Effect, Decode, Byte;
    EntersVector(feeble, c, op);
  }

  lemma OpcodeUnique(b: int, op: Op)
    requires 0 <= b < 256 && Emulatable(op)
    ensures Decode(b) == op <==> b == EmulateCode(op)
  {
  }

  /** The emulation code is never in the word a return address is pushed to. */
  lemma CodeStays(img: Image, c: State, op: Op, lo: int, hi: int)
    requires OpIn(img, c.pc, op) && Window(img, lo, hi) && lo < c.sp / 4 <= hi
    ensures StillThere(c, op)
  {
  }

  /** The first step of an emulated instruction. */
  lemma EmulateStep(feeble: set<Op>, c: State, op: Op)
    requires Valid(c) && Fetch(c) == Got(op) && op in feeble && Emulatable(op) && 4 <= c.sp <= RAM_SIZE
    ensures c.pc < RAM_SIZE
    ensures var i, ret := c.sp / 4 - 1, c.pc + 1;
      var b := if c.pc / 4 == i then Byte(ret, c.pc % 4) else Byte(c.mem[c.pc / 4], c.pc % 4);
      Effect(feeble, c) == if b < 32 then Trap(MemoryAccess, Ram(i, Word(ret)))
                           else Next((b - 32) * VECTOR_SIZE, c.sp - 4, false, Ram(i, Word(ret)))
  {
    hide EmulateCode, Native, Decode, Byte;
    InsideRam(c);
  }

  /** Emulation enters the vector of the instruction if and only if pushing the return address has not
      changed the opcode; otherwise control goes elsewhere or the processor faults. */
  lemma EntersVector(feeble: set<Op>, c: State, op: Op)
    requires Valid(c) && Fetch(c) == Got(op) && op in feeble && Emulatable(op) && 4 <= c.sp <= RAM_SIZE
    ensures c.pc < RAM_SIZE && (Step(feeble, c) == Ran(AtVector(c, op)) <==> StillThere(c, op))
  {
    hide EmulateCode, Native, Decode, Effect, Byte;
    EmulateStep(feeble, c, op);
    OpcodeUnique(Byte(c.mem[c.pc / 4], c.pc % 4), op);
    if c.pc / 4 == c.sp / 4 - 1 {
      OpcodeUnique(Byte(c.pc + 1, c.pc % 4), op);
    }
  }

  /** In the first two bytes of that word the opcode always becomes one below 32: the processor faults,
      with the return address left in memory. */
  lemma OverwrittenFaults(feeble: set<Op>, c: State, op: Op)
    requires Valid(c) && Fetch(c) == Got(op) && op in feeble && Emulatable(op) && 4 <= c.sp <= RAM_SIZE
    requires c.pc / 4 == c.sp / 4 - 1 && c.pc % 4 < 2
    ensures Effect(feeble, c) == Trap(MemoryAccess, Ram(c.sp / 4 - 1, Word(c.pc + 1))) && !StillThere(c, op)
  {
    hide EmulateCode, Native, Decode, Effect;
    EmulateStep(feeble, c, op);
    OpcodeUnique(Byte(c.pc + 1, c.pc % 4), op);
  }

  /** A run of IM bytes of the emulation code. */
  lemma RunIm(feeble: set<Op>, img: Image, c: State, v: word)
    requires Ready(img, c) && ImIn(img, c.pc, v) && !c.decodeMask && 4 <= c.sp <= RAM_SIZE
    requires c.sp / 4 - 1 !in img
    ensures var t := State(AfterIm(img, c.pc), c.sp - 4, true, c.mem[c.sp / 4 - 1 := v]);
      Valid(t) && Run(feeble, c, |ImGroups(img, c.pc)|) == Ran(t) && Reaches(feeble, c, t)
  {
    hide Step;
    var gs := ImGroups(img, c.pc);
    ImAtImage(img, c);
    ImmediateRun(feeble, c, gs);
  }

  lemma ImAtImage(img: Image, c: State)
    requires Ready(img, c) && |ImGroups(img, c.pc)| >= 1 && c.sp / 4 - 1 !in img
    ensures ImAt(c.mem, c.pc, ImGroups(img, c.pc)) && Outside(c.sp / 4 - 1, c.pc, |ImGroups(img, c.pc)|)
  {
    var gs, i := ImGroups(img, c.pc), c.sp / 4 - 1;
    ImGroupsAt(img, c.pc);
    forall j | 0 <= j < |gs| ensures c.pc + j < RAM_SIZE && OpAt(c.mem, c.pc + j) == Im(gs[j]) {
      assert OpIn(img, c.pc + j, Im(gs[j]));
    }
    assert OpIn(img, c.pc + (|gs| - 1), Im(gs[|gs| - 1]));
    if !Outside(i, c.pc, |gs|) {
      WordOfRun(img, c.pc, i);
    }
  }

  lemma WordOfRun(img: Image, a: int, i: int)
    requires |ImGroups(img, a)| >= 1 && !Outside(i, a, |ImGroups(img, a)|)
    ensures i in img
  {
    var gs := ImGroups(img, a);
    var j := if 4 * i < a then 0 else 4 * i - a;
    ImGroupsAt(img, a);
    assert OpIn(img, a + j, Im(gs[j]));
    assert (a + j) / 4 == i;
  }
}
