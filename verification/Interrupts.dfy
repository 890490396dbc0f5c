/** Interrupts from delivery to return.  The interrupted pc is pushed, the vector of crt0.S saves R0, calls
    the handler, restores R0 and returns to the interrupted program. */
module Interrupts {
  import opened Words
  import opened Isa
  import opened Cpu
  import opened Runs
  import opened Crt0
  import opened StackCode
  import opened Images
  import opened CodeRuns
  import opened MemoryEmulation
  import opened Calls
  import opened Phi
  import opened Machines
  import opened QuietRuns

  /** _zpu_interrupt_vector: memreg is the address of R0, handler that of _zpu_interrupt. */
  function VectorCode(memreg: word, handler: word): Code {
    Imm(memreg, Other(Load, Imm(handler, Other(Call, RestoreCode(memreg)))))
  }

  function RestoreCode(memreg: word): Code {
    Imm(memreg, Other(Store, Other(PopPc, End)))
  }

  /** The vector is in the image, and R0 is a word outside the image and the stack window. */
  ghost predicate Installed(img: Image, lay: Layout, memreg: word, handler: word, lo: int, hi: int) {
    && Loaded(img, lay) && Holds(img, lay, VECTOR_SIZE, VectorCode(memreg, handler))
    && memreg % 4 == 0 && memreg < RAM_SIZE && memreg / 4 !in img && !(lo <= memreg / 4 < hi)
    && handler <= RAM_SIZE && lo + 6 <= hi
  }

  /** The interrupted pc is on top of the stack and control is at the vector. */
  ghost predicate Interrupted(img: Image, c: State, lo: int, hi: int) {
    && Ready(img, c) && c.pc == VECTOR_SIZE && !c.decodeMask
    && Window(img, lo, hi) && hi == c.sp / 4 + 1
    && c.mem[c.sp / 4] <= RAM_SIZE
  }

  /** The next turn delivers an interrupt to the program on m, which has room below its sp. */
  ghost predicate Delivering(img: Image, m: Machine, lo: int, hi: int) {
    && Ready(img, m.core) && !m.hitVector && m.device.timerInterval >= 0
    && Checked(m.device, m.core.decodeMask).1
    && Window(img, lo, hi) && hi == m.core.sp / 4
  }

  /** The states in which the vector calls the handler of the interrupt delivered to m. */
  ghost predicate EntersHandler(img: Image, m: Machine, h: Machine, handler: word, lo: int, hi: int) {
    && Ready(img, h.core) && h.core.pc == handler && h.core.sp == m.core.sp - 12 && !h.core.decodeMask
    && 0 <= h.core.sp / 4 < RAM_WORDS && h.core.mem[h.core.sp / 4] <= RAM_SIZE && Frame(m.core.mem, h.core.mem, lo, hi)
    && !h.hitVector && Busy(h.device) && SameShown(m.device, h.device)
  }

  /** The handler returns with sp restored, and has changed no memory at or above it but R0.  It may read
      and write any device, and be interrupted itself; if an interrupt is delivered on its return, t is the
      state after that one has been served. */
  ghost predicate HandlerReturns(feeble: set<Op>, img: Image, h: Machine, t: Machine, memreg: word) {
    && Valid(h.core) && Ready(img, t.core) && Gets(feeble, h, t) && h.core.sp / 4 < RAM_WORDS
    && ReturnsTo(h.core, t.core, memreg) && !t.hitVector && Idle(t.device)
  }

  ghost predicate ReturnsTo(h: State, t: State, memreg: word)
    requires Valid(h) && Valid(t) && h.sp / 4 < RAM_WORDS
  {
    && t.pc == h.mem[h.sp / 4] && t.sp == h.sp + 4 && !t.decodeMask
    && forall i :: h.sp / 4 < i < RAM_WORDS && i != memreg / 4 ==> t.mem[i] == h.mem[i]
  }

  /** From m the machine gets to u, where the program finds its pc, sp, R0 and all memory at and above sp
      as on m. */
  ghost predicate Resumed(feeble: set<Op>, img: Image, m: Machine, u: Machine, memreg: word) {
    && Valid(m.core) && Gets(feeble, m, u) && Ready(img, u.core) && !u.hitVector
    && u.core.pc == m.core.pc && u.core.sp == m.core.sp && u.core.decodeMask == m.core.decodeMask
    && |m.core.mem| == |u.core.mem| == RAM_WORDS && memreg < RAM_SIZE && u.core.mem[memreg / 4] == m.core.mem[memreg / 4]
    && forall i :: m.core.sp / 4 <= i < RAM_WORDS ==> u.core.mem[i] == m.core.mem[i]
  }

  /** R0 has been restored and the interrupted pc is on top of the stack, to be popped next. */
  ghost predicate AtPopPc(img: Image, c: State, e: State, memreg: word, hi: int) {
    && Ready(img, c) && Ready(img, e) && !e.decodeMask
    && OpIn(img, e.pc, PopPc) && e.sp == 4 * (hi - 1) && 1 <= hi <= RAM_WORDS && memreg < RAM_SIZE
    && e.mem[hi - 1] == c.pc && e.mem[memreg / 4] == c.mem[memreg / 4]
    && forall i :: hi <= i < RAM_WORDS ==> e.mem[i] == c.mem[i]
  }

  function EntryStack(): Stack {
    Cons(V(0), Nil)
  }

  ghost function VectorEnv(feeble: set<Op>, c: State, lay: Layout): Env
    requires Valid(c) && c.sp / 4 < RAM_WORDS
  {
    Env([c.mem[c.sp / 4]], lay, feeble)
  }

  /** A call in straight-line code, executed or emulated: the return address replaces its target. */
  lemma ItemCall(feeble: set<Op>, img: Image, lay: Layout, c: State, s: Stack, env: Env, lo: int, hi: int)
    returns (t: State)
    requires Loaded(img, lay) && Knows(img, c, s, env, lo, hi) && OpIn(img, c.pc, Call) && s.Cons?
    requires Eval(s.top, env) <= RAM_SIZE && lo + 3 <= c.sp / 4
    ensures Valid(c) && c.pc < RAM_SIZE && Leads(feeble, img, c, t, Cons(K(c.pc + 1), s.below), env, lo, hi)
    ensures t.pc == Eval(s.top, env) && t.sp == c.sp && !t.decodeMask && Run(feeble, c, CallLength(feeble)) == Ran(t)
  {
    hide Run, Loaded, Eval, OpIn;
    KnownTop(img, c, s, env, lo, hi);
    t := CallRuns(feeble, img, lay, c, lo);
    RunReaches(feeble, c, CallLength(feeble), t);
    var e := K(c.pc + 1);
    ConstantValue(e, c.pc + 1, env);
    OnStackSame(c.mem, t.mem, c.sp / 4 + 1, s.below, env);
    assert OnStack(t.mem, t.sp / 4, Cons(e, s.below), env);
    assert Height(Cons(e, s.below)) == Height(s);
  }

  lemma RunReaches(feeble: set<Op>, c: State, n: nat, t: State)
    requires Valid(c) && Run(feeble, c, n) == Ran(t)
    ensures Reaches(feeble, c, t)
  {
  }

  lemma ConstantValue(e: Expr, w: word, env: Env)
    requires e == K(w)
    ensures Eval(e, env) == w
  {
  }

  lemma KnownTop(img: Image, c: State, s: Stack, env: Env, lo: int, hi: int)
    requires Knows(img, c, s, env, lo, hi) && s.Cons?
    ensures Valid(c) && c.sp / 4 < RAM_WORDS && c.mem[c.sp / 4] == Eval(s.top, env)
    ensures OnStack(c.mem, c.sp / 4 + 1, s.below, env) && Height(s) == 1 + Height(s.below)
  {
    hide Eval, Window;
  }

  /** R0 is saved above the interrupted pc. */
  lemma SavesR0(feeble: set<Op>, img: Image, lay: Layout, c: State, memreg: word, handler: word, lo: int, hi: int)
    returns (e: State)
    requires Installed(img, lay, memreg, handler, lo, hi) && Interrupted(img, c, lo, hi)
    ensures Valid(c)
    ensures Leads(feeble, img, c, e, Cons(K(c.mem[memreg / 4]), EntryStack()), VectorEnv(feeble, c, lay), lo, hi)
    ensures e.pc == AfterIm(img, VECTOR_SIZE) + 1 && !e.decodeMask && e.sp == c.sp - 4
    ensures Run(feeble, c, |ImGroups(img, VECTOR_SIZE)| + 1) == Ran(e)
  {
    hide Loaded, Reaches, Frame, InRam, OnStack, Eval, OpIn, ImIn, Height, RestoreCode, Run;
    var env, r := VectorEnv(feeble, c, lay), c.mem[memreg / 4];
    var s1 := Cons(K(memreg), EntryStack());
    VectorStart(feeble, img, lay, c, lo, hi);
    VectorAt(img, lay, memreg, handler);
    VectorHeights(memreg, r, handler);
    ConstantValue(K(memreg), memreg, env);
    var d := ItemIm(feeble, img, c, K(memreg), EntryStack(), env, lo, hi);
    Unmoved(c, d, memreg, lo, hi);
    e := ItemLoad(feeble, img, d, s1, env, lo, hi);
    LeadsJoin(feeble, img, c, d, e, s1, env, Cons(K(r), EntryStack()), env, lo, hi);
    RunAppend(feeble, c, |ImGroups(img, VECTOR_SIZE)|, d, 1);
  }

  /** im handler; call. */
  lemma CallsFrom(feeble: set<Op>, img: Image, lay: Layout, e: State, s: Stack, handler: word, env: Env, lo: int, hi: int)
    returns (h: State, ret: word)
    requires Loaded(img, lay) && Knows(img, e, s, env, lo, hi) && !e.decodeMask && lo + 4 <= e.sp / 4 && handler <= RAM_SIZE
    requires ImIn(img, e.pc, handler) && OpIn(img, AfterIm(img, e.pc), Call)
    ensures Valid(e) && Leads(feeble, img, e, h, Cons(K(ret), s), env, lo, hi)
    ensures h.pc == handler && h.sp == e.sp - 4 && !h.decodeMask && ret == AfterIm(img, e.pc) + 1 <= RAM_SIZE
    ensures Run(feeble, e, |ImGroups(img, e.pc)| + CallLength(feeble)) == Ran(h)
  {
    hide Loaded, Reaches, Frame, InRam, OnStack, Eval, OpIn, ImIn, Height, Leads, Knows, AfterIm, Run;
    ConstantValue(K(handler), handler, env);
    var f := ItemIm(feeble, img, e, K(handler), s, env, lo, hi);
    LeadsKnows(feeble, img, e, f, Cons(K(handler), s), env, lo, hi);
    h := ItemCall(feeble, img, lay, f, Cons(K(handler), s), env, lo, hi);
    ret := f.pc + 1;
    LeadsJoin(feeble, img, e, f, h, Cons(K(handler), s), env, Cons(K(ret), s), env, lo, hi);
    RunAppend(feeble, e, |ImGroups(img, e.pc)|, f, CallLength(feeble));
  }

  /** The instructions from the vector to the handler. */
  ghost function EntryLength(feeble: set<Op>, img: Image): nat {
    |ImGroups(img, VECTOR_SIZE)| + 1 + |ImGroups(img, AfterIm(img, VECTOR_SIZE) + 1)| + CallLength(feeble)
  }

  /** Where the handler returns to. */
  ghost function ReturnAddress(img: Image): int {
    AfterIm(img, AfterIm(img, VECTOR_SIZE) + 1) + 1
  }

  /** From the vector to the handler. */
  lemma CallsHandler(feeble: set<Op>, img: Image, lay: Layout, c: State, memreg: word, handler: word, lo: int, hi: int)
    returns (h: State, ret: word)
    requires Installed(img, lay, memreg, handler, lo, hi) && Interrupted(img, c, lo, hi)
    ensures Valid(c)
    ensures var s := Cons(K(ret), Cons(K(c.mem[memreg / 4]), EntryStack()));
      Leads(feeble, img, c, h, s, VectorEnv(feeble, c, lay), lo, hi)
    ensures h.pc == handler && h.sp == c.sp - 8 && !h.decodeMask
    ensures Holds(img, lay, ret, RestoreCode(memreg)) && ret == ReturnAddress(img) <= RAM_SIZE
    ensures Run(feeble, c, EntryLength(feeble, img)) == Ran(h)
  {
    hide Loaded, Reaches, Frame, InRam, OnStack, Eval, OpIn, ImIn, Height, RestoreCode, EntryStack, Leads, Knows, AfterIm, Run;
    var env, s := VectorEnv(feeble, c, lay), Cons(K(c.mem[memreg / 4]), EntryStack());
    VectorAt(img, lay, memreg, handler);
    var e := SavesR0(feeble, img, lay, c, memreg, handler, lo, hi);
    LeadsKnows(feeble, img, c, e, s, env, lo, hi);
    h, ret := CallsFrom(feeble, img, lay, e, s, handler, env, lo, hi);
    LeadsJoin(feeble, img, c, e, h, s, env, Cons(K(ret), s), env, lo, hi);
    RunAppend(feeble, c, |ImGroups(img, VECTOR_SIZE)| + 1, e, |ImGroups(img, e.pc)| + CallLength(feeble));
  }

  lemma VectorAt(img: Image, lay: Layout, memreg: word, handler: word)
    requires Holds(img, lay, VECTOR_SIZE, VectorCode(memreg, handler))
    ensures var a := AfterIm(img, VECTOR_SIZE);
      var b := AfterIm(img, a + 1);
      && ImIn(img, VECTOR_SIZE, memreg) && OpIn(img, a, Load) && ImIn(img, a + 1, handler) && OpIn(img, b, Call)
      && Holds(img, lay, b + 1, RestoreCode(memreg))
  {
    hide ImIn, OpIn, AfterIm, RestoreCode;
    var a := AfterIm(img, VECTOR_SIZE);
    assert Holds(img, lay, a, Other(Load, Imm(handler, Other(Call, RestoreCode(memreg)))));
    assert Holds(img, lay, a + 1, Imm(handler, Other(Call, RestoreCode(memreg))));
    assert Holds(img, lay, AfterIm(img, a + 1), Other(Call, RestoreCode(memreg)));
  }

  lemma VectorStart(feeble: set<Op>, img: Image, lay: Layout, c: State, lo: int, hi: int)
    requires Interrupted(img, c, lo, hi) && lo < hi
    ensures Knows(img, c, EntryStack(), VectorEnv(feeble, c, lay), lo, hi)
    ensures Eval(V(0), VectorEnv(feeble, c, lay)) == c.mem[c.sp / 4]
  {
    assert Height(EntryStack()) == 1;
  }

  lemma VectorHeights(x: word, y: word, z: word)
    ensures Height(EntryStack()) == 1 && Height(Cons(K(x), EntryStack())) == 2 && Height(Cons(K(y), EntryStack())) == 2
    ensures Height(Cons(K(z), Cons(K(y), EntryStack()))) == 3
  {
  }

  lemma Unmoved(c: State, d: State, memreg: word, lo: int, hi: int)
    requires Frame(c.mem, d.mem, lo, hi) && |c.mem| == RAM_WORDS && memreg < RAM_SIZE && !(lo <= memreg / 4 < hi)
    ensures d.mem[memreg / 4] == c.mem[memreg / 4]
  {
  }

  lemma RestoreAt(img: Image, lay: Layout, a: int, memreg: word)
    requires Holds(img, lay, a, RestoreCode(memreg))
    ensures ImIn(img, a, memreg) && OpIn(img, AfterIm(img, a), Store) && OpIn(img, AfterIm(img, a) + 1, PopPc)
  {
    hide ImIn, OpIn, AfterIm;
    assert Holds(img, lay, AfterIm(img, a), Other(Store, Other(PopPc, End)));
    assert Holds(img, lay, AfterIm(img, a) + 1, Other(PopPc, End));
  }

  lemma AtHandler(feeble: set<Op>, img: Image, c: State, h: State, ret: word, below: Stack, env: Env, lo: int, hi: int)
    requires Leads(feeble, img, c, h, Cons(K(ret), below), env, lo, hi)
    ensures Ready(img, h) && 0 <= h.sp / 4 < RAM_WORDS && h.mem[h.sp / 4] == ret && Frame(c.mem, h.mem, lo, hi)
  {
    hide Reaches, InRam, Window;
    ConstantValue(K(ret), ret, env);
  }

  /** When the handler has returned, the saved R0 and the interrupted pc are on the stack again. */
  lemma HandlerDone(feeble: set<Op>, img: Image, c: State, h: State, t: State, memreg: word, r: word, ret: word,
                    env: Env, lo: int, hi: int)
    requires Leads(feeble, img, c, h, Cons(K(ret), Cons(K(r), EntryStack())), env, lo, hi) && h.sp / 4 < RAM_WORDS
    requires Ready(img, t) && ReturnsTo(h, t, memreg) && !(lo <= memreg / 4 < hi)
    ensures Knows(img, t, Cons(K(r), EntryStack()), env, lo, hi)
    ensures t.pc == ret && forall i :: hi <= i < RAM_WORDS && i != memreg / 4 ==> t.mem[i] == c.mem[i]
  {
    hide InRam, Reaches;
    VectorHeights(r, r, ret);
    assert OnStack(h.mem, h.sp / 4 + 1, Cons(K(r), EntryStack()), env);
    OnStackSame(h.mem, t.mem, h.sp / 4 + 1, Cons(K(r), EntryStack()), env);
  }

  /** im memreg; store: R0 gets its saved value, and poppc comes next. */
  lemma RestoresR0(feeble: set<Op>, img: Image, lay: Layout, t: State, memreg: word, r: word, pc: word, env: Env,
                   lo: int, hi: int)
    returns (e: State)
    requires Knows(img, t, Cons(K(r), EntryStack()), env, lo, hi) && Holds(img, lay, t.pc, RestoreCode(memreg))
    requires memreg % 4 == 0 && memreg < RAM_SIZE && memreg / 4 !in img && !(lo <= memreg / 4 < hi)
    requires !t.decodeMask && Eval(V(0), env) == pc <= RAM_SIZE && lo + 3 <= hi
    ensures Valid(t) && Run(feeble, t, |ImGroups(img, t.pc)| + 1) == Ran(e) && Ready(img, e)
    ensures OpIn(img, e.pc, PopPc) && e.sp == 4 * (hi - 1) && !e.decodeMask && 1 <= hi <= RAM_WORDS
    ensures e.mem[hi - 1] == pc && e.mem[memreg / 4] == r
    ensures forall i :: hi <= i < RAM_WORDS && i != memreg / 4 ==> e.mem[i] == t.mem[i]
    ensures 4 <= t.sp <= RAM_SIZE && t.sp / 4 - 1 !in img && ImIn(img, t.pc, memreg)
  {
    hide Step, Effect, Run, OpIn, ImIn, Eval;
    RestoreAt(img, lay, t.pc, memreg);
    VectorHeights(r, r, memreg);
    ConstantValue(K(r), r, env);
    assert OnStack(t.mem, t.sp / 4 + 1, EntryStack(), env);
    var n := |ImGroups(img, t.pc)|;
    var d := State(AfterIm(img, t.pc), t.sp - 4, true, t.mem[t.sp / 4 - 1 := memreg]);
    RunIm(feeble, img, t, memreg);
    FetchImage(img, d, Store);
    StepStore(feeble, d);
    RunAppend(feeble, t, n, d, 1);
    RunOne(feeble, d);
    e := Step(feeble, d).c;
  }

  /** The machine after the push of checkVector. */
  ghost function AtEntry(m: Machine): (r: Machine)
    requires Valid(m.core) && 4 <= m.core.sp <= RAM_SIZE
    ensures Valid(r.core) && r.core.sp / 4 < RAM_WORDS && m.core.sp / 4 == r.core.sp / 4 + 1
  {
    m.(core := State(VECTOR_SIZE, m.core.sp - 4, m.core.decodeMask, m.core.mem[m.core.sp / 4 - 1 := m.core.pc]),
       device := Checked(m.device, m.core.decodeMask).0)
  }

  /** The turn that delivers and the push of pc in the next one. */
  lemma Delivery(feeble: set<Op>, m: Machine)
    requires Valid(m.core) && 4 <= m.core.sp <= RAM_SIZE && !m.hitVector && m.device.timerInterval >= 0
    requires Checked(m.device, m.core.decodeMask).1
    ensures var a := m.(device := Checked(m.device, m.core.decodeMask).0, hitVector := true);
      Turn(feeble, m) == After(a) && Turn(feeble, a) == Turn(feeble, AtEntry(m))
  {
    hide Attempt, Checked;
  }

  /** The timer waits for its acknowledgement. */
  lemma DeliversBusy(d: Device, mask: bool)
    requires Checked(d, mask).1
    ensures Busy(Checked(d, mask).0) && SameShown(d, Checked(d, mask).0) && !mask
  {
  }

  /** From behind the push the machine runs as from the delivery, one turn later. */
  lemma FromDelivery(feeble: set<Op>, m: Machine, n: nat)
    requires Valid(m.core) && 4 <= m.core.sp <= RAM_SIZE && !m.hitVector && m.device.timerInterval >= 0
    requires Checked(m.device, m.core.decodeMask).1 && n > 0
    ensures Turns(feeble, m, n + 1) == Turns(feeble, AtEntry(m), n)
  {
    hide Turn, Checked;
    Delivery(feeble, m);
    var a := Turn(feeble, m).m;
    assert Turns(feeble, a, n) == Turns(feeble, AtEntry(m), n);
    assert Turns(feeble, m, n + 1) == Turns(feeble, a, n);
  }

  lemma EntryInterrupted(img: Image, m: Machine, lo: int, hi: int)
    requires Delivering(img, m, lo, hi) && lo < hi
    ensures 4 <= m.core.sp <= RAM_SIZE && Interrupted(img, AtEntry(m).core, lo, hi)
    ensures Frame(m.core.mem, AtEntry(m).core.mem, lo, hi)
  {
    hide Checked;
    DeliversBusy(m.device, m.core.decodeMask);
  }

  /** h is the state in which the handler is called, with the return address ret. */
  ghost predicate Called(feeble: set<Op>, img: Image, lay: Layout, m: Machine, h: Machine, ret: word, memreg: word,
                         lo: int, hi: int)
    requires Valid(m.core) && 4 <= m.core.sp <= RAM_SIZE && memreg < RAM_SIZE
  {
    var c := AtEntry(m).core;
    Leads(feeble, img, c, h.core, Cons(K(ret), Cons(K(m.core.mem[memreg / 4]), EntryStack())), VectorEnv(feeble, c, lay), lo, hi)
  }

  /** The turn that delivers an interrupt to m leads to the handler in a fixed number of turns; the timer
      has moved on by one cycle for each. */
  ghost predicate HandlerEntered(feeble: set<Op>, img: Image, lay: Layout, m: Machine, h: Machine, memreg: word,
                                 handler: word, lo: int, hi: int) {
    && Valid(m.core) && 4 <= m.core.sp <= RAM_SIZE && memreg < RAM_SIZE && ReturnAddress(img) <= RAM_SIZE
    && EntersHandler(img, m, h, handler, lo, hi) && Called(feeble, img, lay, m, h, ReturnAddress(img), memreg, lo, hi)
    && h.core.mem[h.core.sp / 4] == ReturnAddress(img) && Holds(img, lay, ReturnAddress(img), RestoreCode(memreg))
    && Turns(feeble, m, EntryLength(feeble, img) + 1) == After(h) && h.halting == m.halting
    && forall k: nat :: InTime(Checked(m.device, m.core.decodeMask).0, EntryLength(feeble, img) + k) ==> InTime(h.device, k)
  }

  /** From delivery to the handler. */
  lemma ReachesHandler(feeble: set<Op>, img: Image, lay: Layout, m: Machine, memreg: word, handler: word, lo: int, hi: int)
    returns (h: Machine)
    requires Installed(img, lay, memreg, handler, lo, hi) && Delivering(img, m, lo, hi)
    ensures HandlerEntered(feeble, img, lay, m, h, memreg, handler, lo, hi)
  {
    hide Loaded, InRam, OnStack, RestoreCode, Eval, Checked, SameShown, Holds, OpIn, Window, Knows, Reaches, Frame;
    hide Run, Turns, InTime, EntryLength, ReturnAddress;
    EntryInterrupted(img, m, lo, hi);
    DeliversBusy(m.device, m.core.decodeMask);
    var a, r, n := AtEntry(m), m.core.mem[memreg / 4], EntryLength(feeble, img);
    var hc, ret := CallsHandler(feeble, img, lay, a.core, memreg, handler, lo, hi);
    Unmoved(m.core, a.core, memreg, lo, hi);
    AtHandler(feeble, img, a.core, hc, ret, Cons(K(r), EntryStack()), VectorEnv(feeble, a.core, lay), lo, hi);
    FrameJoin(m.core.mem, a.core.mem, hc.mem, lo, hi);
    SameInterval(m.device, a.device);
    h := LiftBusy(feeble, a, n);
    ShownTrans(m.device, a.device, h.device);
    SomeEntry(feeble, img);
    FromDelivery(feeble, m, n);
  }

  lemma SomeEntry(feeble: set<Op>, img: Image)
    ensures EntryLength(feeble, img) > 0
  {
  }

  /** The code behind the call restores R0. */
  lemma RestoreRuns(feeble: set<Op>, img: Image, lay: Layout, m: Machine, h: Machine, t: State, memreg: word,
                    handler: word, lo: int, hi: int)
    returns (e: State)
    requires Installed(img, lay, memreg, handler, lo, hi) && Delivering(img, m, lo, hi)
    requires HandlerEntered(feeble, img, lay, m, h, memreg, handler, lo, hi)
    requires Valid(h.core) && Ready(img, t) && ReturnsTo(h.core, t, memreg)
    ensures !t.decodeMask && t.pc == ReturnAddress(img) && 4 <= t.sp <= RAM_SIZE && t.sp / 4 - 1 !in img && ImIn(img, t.pc, memreg)
    ensures Run(feeble, t, |ImGroups(img, t.pc)| + 1) == Ran(e) && AtPopPc(img, m.core, e, memreg, hi)
  {
    hide Loaded, InRam, OnStack, RestoreCode, Eval, Checked, Holds, OpIn, Knows, Frame, Leads, Window, Run, Turns, InTime;
    hide EntryLength, ReturnAddress, ImIn;
    var c, r, ret := AtEntry(m).core, m.core.mem[memreg / 4], ReturnAddress(img);
    var env := VectorEnv(feeble, c, lay);
    HandlerDone(feeble, img, c, h.core, t, memreg, r, ret, env, lo, hi);
    EntryKnown(feeble, img, lay, m, lo, hi);
    e := RestoresR0(feeble, img, lay, t, memreg, r, m.core.pc, env, lo, hi);
  }

  /** After the handler R0 is restored, and no interrupt is delivered before the poppc behind that: a tick
      that falls due meanwhile waits for the decode mask. */
  lemma HandlerLeft(feeble: set<Op>, img: Image, lay: Layout, m: Machine, h: Machine, t: Machine, memreg: word,
                    handler: word, lo: int, hi: int)
    returns (e: Machine)
    requires Installed(img, lay, memreg, handler, lo, hi) && Delivering(img, m, lo, hi)
    requires HandlerEntered(feeble, img, lay, m, h, memreg, handler, lo, hi) && HandlerReturns(feeble, img, h, t, memreg)
    ensures Valid(t.core) && Turns(feeble, t, RestoreLength(img)) == After(e) && e.halting == t.halting
    ensures AtPopPc(img, m.core, e.core, memreg, hi) && !e.hitVector && e.device.timerInterval >= 0
  {
    hide Installed, Delivering, InRam, AtPopPc, Run, Turns, ReturnsTo, HandlerEntered, Gets, ReturnAddress, Checked;
    var c := RestoreRuns(feeble, img, lay, m, h, t.core, memreg, handler, lo, hi);
    RestoreGroups(img, t.core, memreg);
    ImAtImage(img, t.core);
    e := ImmediateThenOne(feeble, t, ImGroups(img, t.core.pc));
  }

  /** The instructions from the return of the handler to the poppc. */
  ghost function RestoreLength(img: Image): nat {
    |ImGroups(img, ReturnAddress(img))| + 1
  }

  lemma RestoreGroups(img: Image, t: State, memreg: word)
    requires ImIn(img, t.pc, memreg)
    ensures Groups(ImGroups(img, t.pc))
  {
    ImGroupsAt(img, t.pc);
  }

  lemma GetsAfter(feeble: set<Op>, t: Machine, n: nat, e: Machine)
    requires Valid(t.core) && Turns(feeble, t, n) == After(e) && e.halting == t.halting
    ensures Gets(feeble, t, e)
  {
  }

  lemma EntryKnown(feeble: set<Op>, img: Image, lay: Layout, m: Machine, lo: int, hi: int)
    requires Delivering(img, m, lo, hi) && 4 <= m.core.sp <= RAM_SIZE
    ensures Valid(m.core) && Valid(AtEntry(m).core) && 1 <= hi <= RAM_WORDS && AtEntry(m).core.sp / 4 < RAM_WORDS
    ensures Eval(V(0), VectorEnv(feeble, AtEntry(m).core, lay)) == m.core.pc
    ensures forall i :: hi <= i < RAM_WORDS ==> AtEntry(m).core.mem[i] == m.core.mem[i]
  {
    hide Checked;
  }

  /** poppc goes back to the program. */
  lemma PopsBack(feeble: set<Op>, img: Image, m: Machine, e: Machine, memreg: word, hi: int) returns (u: Machine)
    requires AtPopPc(img, m.core, e.core, memreg, hi) && !e.hitVector && Idle(e.device) && hi == m.core.sp / 4
    requires Valid(m.core) && m.core.sp <= RAM_SIZE && !m.core.decodeMask && Gets(feeble, m, e)
    ensures Resumed(feeble, img, m, u, memreg) && u.device == Later(e.device, false)
  {
    hide InRam, Turn, Turns, OpIn, Checked;
    FetchImage(img, e.core, PopPc);
    StepPopPc(feeble, e.core);
    QuietTurn(feeble, e);
    u := Turn(feeble, e).m;
    GetsTurn(feeble, e);
    GetsJoin(feeble, m, e, u);
  }

  lemma ResumedAgain(feeble: set<Op>, img: Image, c: State, e: Machine, f: Machine, memreg: word, hi: int)
    requires AtPopPc(img, c, e.core, memreg, hi) && Resumed(feeble, img, e, f, memreg)
    ensures AtPopPc(img, c, f.core, memreg, hi) && !f.hitVector && Valid(e.core) && Gets(feeble, e, f)
  {
    hide InRam, Gets, OpIn;
  }

  /** A machine has resumed what it has not left, and resuming twice is resuming. */
  lemma ResumedJoin(feeble: set<Op>, img: Image, m: Machine, e: Machine, f: Machine, memreg: word)
    requires Ready(img, m.core) && memreg < RAM_SIZE
    ensures !m.hitVector ==> Resumed(feeble, img, m, m, memreg)
    ensures Resumed(feeble, img, m, e, memreg) && Resumed(feeble, img, e, f, memreg) ==> Resumed(feeble, img, m, f, memreg)
  {
    hide InRam, Gets;
    GetsSelf(feeble, m);
    if Resumed(feeble, img, m, e, memreg) && Resumed(feeble, img, e, f, memreg) {
      GetsJoin(feeble, m, e, f);
    }
  }

  /** A program to which an interrupt is delivered resumes with its pc, sp and R0 and its memory at and
      above sp, whatever the handler does to R0, to devices and to memory below its sp, and whichever
      opcodes are emulated.  h is the state in which the handler is entered and t the one in which it has
      returned.  Whenever the next ticks fall due: f is the state at the final poppc, or the one after the
      interrupts delivered there have been served, which resume for the same reason. */
  lemma Resumes(feeble: set<Op>, img: Image, lay: Layout, m: Machine, h: Machine, t: Machine, f: Machine, memreg: word,
                handler: word, lo: int, hi: int)
    returns (u: Machine)
    requires Installed(img, lay, memreg, handler, lo, hi) && Delivering(img, m, lo, hi)
    requires HandlerEntered(feeble, img, lay, m, h, memreg, handler, lo, hi) && HandlerReturns(feeble, img, h, t, memreg)
    requires Turns(feeble, t, RestoreLength(img)).After? ==>
      Resumed(feeble, img, Turns(feeble, t, RestoreLength(img)).m, f, memreg)
    requires Idle(f.device)
    ensures Resumed(feeble, img, m, u, memreg) && u.device == Later(f.device, false)
  {
    hide Installed, InRam, Gets, HandlerReturns, AtPopPc, Resumed, Checked, Idle, Turns, RestoreLength, HandlerEntered;
    var e := HandlerLeft(feeble, img, lay, m, h, t, memreg, handler, lo, hi);
    ResumedAgain(feeble, img, m.core, e, f, memreg, hi);
    DeliversBusy(m.device, m.core.decodeMask);
    EnteredGets(feeble, img, lay, m, h, memreg, handler, lo, hi);
    ReturnedGets(feeble, img, h, t, memreg);
    GetsAfter(feeble, t, RestoreLength(img), e);
    GetsJoin(feeble, m, h, t);
    GetsJoin(feeble, m, t, e);
    GetsJoin(feeble, m, e, f);
    u := PopsBack(feeble, img, m, f, memreg, hi);
  }

  lemma EnteredGets(feeble: set<Op>, img: Image, lay: Layout, m: Machine, h: Machine, memreg: word, handler: word,
                    lo: int, hi: int)
    requires HandlerEntered(feeble, img, lay, m, h, memreg, handler, lo, hi)
    ensures Valid(m.core) && m.core.sp <= RAM_SIZE && Gets(feeble, m, h)
  {
    hide Turns, EntersHandler, Called;
    GetsAfter(feeble, m, EntryLength(feeble, img) + 1, h);
  }

  lemma ReturnedGets(feeble: set<Op>, img: Image, h: Machine, t: Machine, memreg: word)
    requires HandlerReturns(feeble, img, h, t, memreg)
    ensures Valid(h.core) && Gets(feeble, h, t)
  {
    hide Gets, InRam;
  }
}
