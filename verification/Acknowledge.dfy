/** A handler that does what every handler of the timer must: acknowledge the interrupt and return. */
module Acknowledge {
  import opened Words
  import opened Isa
  import opened Cpu
  import opened Runs
  import opened Crt0
  import opened StackCode
  import opened Images
  import opened Phi
  import opened Machines
  import opened QuietRuns
  import opened Interrupts

  /** im 1; nop; im TIMER_INTERRUPT; store; poppc. */
  function HandlerCode(): Code {
    Imm(1, Noop(Imm(TIMER_INTERRUPT, Other(Store, Other(PopPc, End)))))
  }

  /** The instructions in front of the store. */
  ghost function Before(img: Image, a: int): nat {
    |ImGroups(img, a)| + 1 + |ImGroups(img, AfterIm(img, a) + 1)|
  }

  lemma HandlerAt(img: Image, lay: Layout, a: int)
    requires Holds(img, lay, a, HandlerCode())
    ensures var b := AfterIm(img, a);
      && ImIn(img, a, 1) && OpIn(img, b, Nop) && ImIn(img, b + 1, TIMER_INTERRUPT)
      && OpIn(img, AfterIm(img, b + 1), Store) && OpIn(img, AfterIm(img, b + 1) + 1, PopPc)
  {
    hide ImIn, OpIn, AfterIm;
    var b := AfterIm(img, a);
    assert Holds(img, lay, b, Noop(Imm(TIMER_INTERRUPT, Other(Store, Other(PopPc, End)))));
    assert Holds(img, lay, b + 1, Imm(TIMER_INTERRUPT, Other(Store, Other(PopPc, End))));
    assert Holds(img, lay, AfterIm(img, b + 1), Other(Store, Other(PopPc, End)));
    assert Holds(img, lay, AfterIm(img, b + 1) + 1, Other(PopPc, End));
  }

  /** im 1; nop. */
  lemma PushesOne(feeble: set<Op>, img: Image, lay: Layout, c: State) returns (d: State)
    requires Ready(img, c) && !c.decodeMask && 8 <= c.sp <= RAM_SIZE && Holds(img, lay, c.pc, HandlerCode())
    requires c.sp / 4 - 1 !in img
    ensures Run(feeble, c, |ImGroups(img, c.pc)| + 1) == Ran(d) && Ready(img, d)
    ensures d == State(AfterIm(img, c.pc) + 1, c.sp - 4, false, c.mem[c.sp / 4 - 1 := 1])
  {
    hide Step, Run, OpIn, ImIn, HandlerCode, ImGroups;
    HandlerAt(img, lay, c.pc);
    var n := |ImGroups(img, c.pc)|;
    var e := State(AfterIm(img, c.pc), c.sp - 4, true, c.mem[c.sp / 4 - 1 := 1]);
    RunIm(feeble, img, c, 1);
    FetchImage(img, e, Nop);
    StepNop(feeble, e);
    d := Step(feeble, e).c;
    RunAppend(feeble, c, n, e, 1);
    RunOne(feeble, e);
  }

  /** Address and value are on the stack. */
  lemma PushesBoth(feeble: set<Op>, img: Image, lay: Layout, c: State) returns (d: State)
    requires Ready(img, c) && !c.decodeMask && 8 <= c.sp <= RAM_SIZE && Holds(img, lay, c.pc, HandlerCode())
    requires c.sp / 4 - 1 !in img && c.sp / 4 - 2 !in img
    ensures Run(feeble, c, Before(img, c.pc)) == Ran(d) && Ready(img, d)
    ensures d.sp == c.sp - 8 && d.mem == c.mem[c.sp / 4 - 1 := 1][c.sp / 4 - 2 := TIMER_INTERRUPT]
    ensures OpIn(img, d.pc, Store) && OpIn(img, d.pc + 1, PopPc)
  {
    hide Run, OpIn, ImIn, HandlerCode, ImGroups;
    HandlerAt(img, lay, c.pc);
    var e := PushesOne(feeble, img, lay, c);
    RunIm(feeble, img, e, TIMER_INTERRUPT);
    d := State(AfterIm(img, e.pc), c.sp - 8, true, e.mem[c.sp / 4 - 2 := TIMER_INTERRUPT]);
    RunAppend(feeble, c, |ImGroups(img, c.pc)| + 1, e, |ImGroups(img, e.pc)|);
  }

  /** A store to the register of the timer. */
  lemma StoreDevice(feeble: set<Op>, c: State)
    requires Valid(c) && Fetch(c) == Got(Store) && c.sp + 4 < RAM_SIZE && c.mem[c.sp / 4] == TIMER_INTERRUPT
    ensures c.pc < RAM_SIZE
    ensures Effect(feeble, c) == Next(c.pc + 1, c.sp + 8, false, Io(TIMER_INTERRUPT, Word(c.mem[c.sp / 4 + 1])))
  {
    InsideRam(c);
    hide Fetch;
  }

  function Acknowledged(d: Device): Device {
    d.(timerPending := false)
  }

  lemma AcknowledgeTurn(feeble: set<Op>, m: Machine)
    requires Valid(m.core) && !m.hitVector && m.device.timerInterval >= 0 && Busy(m.device)
    requires Fetch(m.core) == Got(Store) && m.core.sp + 4 < RAM_SIZE
    requires m.core.mem[m.core.sp / 4] == TIMER_INTERRUPT && m.core.mem[m.core.sp / 4 + 1] == 1
    ensures Turn(feeble, m) == After(m.(core := State(m.core.pc + 1, m.core.sp + 8, false, m.core.mem),
                                        device := Acknowledged(Later(m.device, m.core.decodeMask)),
                                        retired := m.retired + 1))
  {
    hide Effect, Fetch, Checked;
    UndisturbedCheck(m.device, m.core.decodeMask, 1);
    StoreDevice(feeble, m.core);
  }

  lemma AcknowledgedQuiet(d: Device, mask: bool, n: nat)
    requires d.timerInterval >= 0 && Busy(d) && InTime(d, n + 1)
    ensures Undisturbed(Acknowledged(Later(d, mask)), n) && NotDue(Acknowledged(Later(d, mask)), n)
  {
    UndisturbedCheck(d, mask, n + 1);
  }

  /** Up to the return of the handler. */
  lemma AcknowledgingRuns(feeble: set<Op>, img: Image, lay: Layout, h: Machine, left: nat) returns (e: Machine)
    requires Ready(img, h.core) && !h.core.decodeMask && !h.hitVector && Holds(img, lay, h.core.pc, HandlerCode())
    requires 8 <= h.core.sp < RAM_SIZE && h.core.sp / 4 - 1 !in img && h.core.sp / 4 - 2 !in img
    requires Busy(h.device) && h.device.timerInterval >= 0 && InTime(h.device, Before(img, h.core.pc) + 1 + left)
    ensures Turns(feeble, h, Before(img, h.core.pc) + 1) == After(e) && Ready(img, e.core) && OpIn(img, e.core.pc, PopPc)
    ensures e.core.sp == h.core.sp && e.core.mem == h.core.mem[h.core.sp / 4 - 1 := 1][h.core.sp / 4 - 2 := TIMER_INTERRUPT]
    ensures !e.core.decodeMask && !e.hitVector && e.halting == h.halting
    ensures Undisturbed(e.device, left) && NotDue(e.device, left)
  {
    hide Run, Turn, Turns, OpIn, Undisturbed, NotDue, InTime, Later, Checked, Holds, SameShown, Before, Step;
    var n := Before(img, h.core.pc);
    var c := PushesBoth(feeble, img, lay, h.core);
    BusyUndisturbed(h.device, n + (left + 1));
    var d := LiftRun(feeble, h, n, left + 1);
    SameInterval(h.device, d.device);
    FetchImage(img, c, Store);
    AcknowledgeTurn(feeble, d);
    AcknowledgedQuiet(d.device, d.core.decodeMask, left);
    e := Turn(feeble, d).m;
    TurnsAppend(feeble, h, n, d, 1);
    TurnsOne(feeble, d);
  }

  /** Unless the next tick is due before it can return, the acknowledging handler returns as Resumes
      asks, and the interrupt is no longer pending. */
  lemma AcknowledgingReturns(feeble: set<Op>, img: Image, lay: Layout, h: Machine, memreg: word, spare: nat)
    returns (t: Machine)
    requires Ready(img, h.core) && !h.core.decodeMask && !h.hitVector && Holds(img, lay, h.core.pc, HandlerCode())
    requires 8 <= h.core.sp < RAM_SIZE && h.core.sp / 4 - 1 !in img && h.core.sp / 4 - 2 !in img
    requires Busy(h.device) && h.device.timerInterval >= 0 && h.core.mem[h.core.sp / 4] <= RAM_SIZE
    requires InTime(h.device, Before(img, h.core.pc) + 3 + spare)
    ensures HandlerReturns(feeble, img, h, t, memreg) && NotDue(t.device, 1 + spare) && t.device.timerInterval >= 0
  {
    hide Run, Turn, Turns, InRam, OpIn, Undisturbed, InTime, Checked, Holds, SameShown, Before, HandlerCode, NotDue;
    var n := Before(img, h.core.pc);
    var e := AcknowledgingRuns(feeble, img, lay, h, 2 + spare);
    FetchImage(img, e.core, PopPc);
    StepPopPc(feeble, e.core);
    RunOne(feeble, e.core);
    t := LiftRun(feeble, e, 1, 1 + spare);
    TurnsAppend(feeble, h, n + 1, e, 1);
    GetsAfter(feeble, h, n + 2, t);
    NotDueIdle(t.device, 1 + spare);
  }

  lemma NotDueIdle(d: Device, n: nat)
    requires n > 0 && NotDue(d, n) && Undisturbed(d, n)
    ensures Idle(d) && d.timerInterval >= 0
  {
    UndisturbedCheck(d, false, n);
  }

  /** The cycles from the delivery of an interrupt until the program goes on. */
  ghost function Service(feeble: set<Op>, img: Image, handler: int): nat {
    EntryLength(feeble, img) + Before(img, handler) + RestoreLength(img) + 3
  }

  /** With this handler installed, and the next tick not due before the program goes on, the program
      resumes, and the interrupt has been acknowledged. */
  lemma AcknowledgedResumes(feeble: set<Op>, img: Image, lay: Layout, m: Machine, memreg: word, handler: word, lo: int, hi: int)
    returns (u: Machine)
    requires Installed(img, lay, memreg, handler, lo, hi) && Delivering(img, m, lo, hi)
    requires Holds(img, lay, handler, HandlerCode())
    requires InTime(Checked(m.device, m.core.decodeMask).0, Service(feeble, img, handler))
    ensures Resumed(feeble, img, m, u, memreg) && !u.device.timerPending
  {
    hide Installed, InRam, Checked, Turns, Resumed, HandlerCode, EntryLength, Before, RestoreLength, InTime, NotDue, Idle;
    hide HandlerReturns, Window, Run;
    var h := ReachesHandler(feeble, img, lay, m, memreg, handler, lo, hi);
    var left := RestoreLength(img);
    HandlerPlace(feeble, img, lay, m, h, memreg, handler, lo, hi, Before(img, handler) + 3 + left);
    var t := AcknowledgingReturns(feeble, img, lay, h, memreg, left);
    var e := HandlerLeft(feeble, img, lay, m, h, t, memreg, handler, lo, hi);
    QuietEnd(feeble, img, lay, m, h, t, e, memreg, handler, lo, hi);
    ResumedJoin(feeble, img, e, e, e, memreg);
    u := Resumes(feeble, img, lay, m, h, t, e, memreg, handler, lo, hi);
  }

  lemma HandlerPlace(feeble: set<Op>, img: Image, lay: Layout, m: Machine, h: Machine, memreg: word, handler: word,
                     lo: int, hi: int, k: nat)
    requires Installed(img, lay, memreg, handler, lo, hi) && Delivering(img, m, lo, hi)
    requires HandlerEntered(feeble, img, lay, m, h, memreg, handler, lo, hi)
    requires InTime(Checked(m.device, m.core.decodeMask).0, EntryLength(feeble, img) + k)
    ensures Ready(img, h.core) && h.core.pc == handler && !h.core.decodeMask && !h.hitVector && Busy(h.device)
    ensures 8 <= h.core.sp < RAM_SIZE && h.core.sp / 4 - 1 !in img && h.core.sp / 4 - 2 !in img
    ensures h.device.timerInterval >= 0 && h.core.mem[h.core.sp / 4] <= RAM_SIZE && InTime(h.device, k)
  {
    hide Holds, InRam, Checked, InTime, EntryLength, ReturnAddress, Turns, Called, Frame;
  }

  /** Nothing is due at the final poppc either. */
  lemma QuietEnd(feeble: set<Op>, img: Image, lay: Layout, m: Machine, h: Machine, t: Machine, e: Machine, memreg: word,
                 handler: word, lo: int, hi: int)
    requires Installed(img, lay, memreg, handler, lo, hi) && Delivering(img, m, lo, hi)
    requires HandlerEntered(feeble, img, lay, m, h, memreg, handler, lo, hi) && HandlerReturns(feeble, img, h, t, memreg)
    requires Valid(t.core) && Turns(feeble, t, RestoreLength(img)) == After(e)
    requires NotDue(t.device, RestoreLength(img) + 1) && t.device.timerInterval >= 0
    ensures Idle(e.device) && !Later(e.device, false).timerPending
  {
    hide Installed, Delivering, HandlerEntered, Run, Turns, Checked, InTime, AtPopPc, ReturnAddress, InRam, Gets;
    var c := RestoreRuns(feeble, img, lay, m, h, t.core, memreg, handler, lo, hi);
    var u := LiftRun(feeble, t, RestoreLength(img), 1);
    NotDueIdle(e.device, 1);
    LaterQuiet(e.device);
  }

  lemma LaterQuiet(d: Device)
    requires NotDue(d, 1)
    ensures !Later(d, false).timerPending
  {
  }
}
