/** Runs of the whole machine while no interrupt is delivered: instruction by instruction what module
    Runs says of the processor alone. */
module QuietRuns {
  import opened Isa
  import opened Cpu
  import opened Runs
  import opened Phi
  import opened Machines

  /** The board as a program sees it that does not look at the time. */
  predicate SameShown(d: Device, e: Device) {
    d.interrupt == e.interrupt && d.timer == e.timer && d.timerInterval == e.timerInterval && d.output == e.output
  }

  /** No interrupt can be delivered until software changes a mask. */
  predicate Masked(d: Device) {
    !d.interrupt || !d.timer
  }

  /** An interrupt is being served and not yet acknowledged. */
  predicate Busy(d: Device) {
    d.inInterrupt && d.timerPending
  }

  /** No tick of the timer falls into the next n instructions. */
  predicate InTime(d: Device, n: nat) {
    d.lastTimer + d.timerInterval >= d.cycles + n - 1
  }

  /** The timer has nothing to deliver during the next n instructions. */
  predicate NotDue(d: Device, n: nat) {
    !d.timerPending && InTime(d, n)
  }

  predicate Undisturbed(d: Device, n: nat) {
    d.timerInterval >= 0 && (Masked(d) || Busy(d) || NotDue(d, n))
  }

  /** Between instructions, no interrupt is delivered next. */
  predicate Idle(d: Device) {
    d.timerInterval >= 0 && !Checked(d, false).1
  }

  /** The board when the next instruction is executed. */
  function Later(d: Device, mask: bool): Device {
    Ticked(Checked(d, mask).0)
  }

  lemma UndisturbedCheck(d: Device, mask: bool, n: nat)
    requires n >= 1 && Undisturbed(d, n)
    ensures LoopEnds(d) && !Checked(d, mask).1 && Undisturbed(Later(d, mask), n - 1)
    ensures (Masked(d) ==> Masked(Later(d, mask))) && (Busy(d) ==> Busy(Later(d, mask)))
    ensures SameShown(d, Later(d, mask)) && (InTime(d, n) ==> InTime(Later(d, mask), n - 1))
    ensures NotDue(d, n) ==> NotDue(Later(d, mask), n - 1)
  {
  }

  lemma QuietTurn(feeble: set<Op>, m: Machine)
    requires Valid(m.core) && !m.hitVector && Step(feeble, m.core).Ran?
    requires LoopEnds(m.device) && !Checked(m.device, m.core.decodeMask).1
    ensures Turn(feeble, m) == After(m.(core := Step(feeble, m.core).c, device := Later(m.device, m.core.decodeMask),
                                        retired := m.retired + 1))
  {
    hide Step, Checked, Attempt, LoopEnds;
    AttemptSteps(feeble, m.(device := Checked(m.device, m.core.decodeMask).0));
  }

  lemma {:induction false} TurnsAppend(feeble: set<Op>, m: Machine, n: nat, d: Machine, k: nat)
    requires Valid(m.core) && Turns(feeble, m, n) == After(d)
    ensures Turns(feeble, m, n + k) == Turns(feeble, d, k)
    decreases n
  {
    hide Turn;
    if n > 0 {
      TurnsAppend(feeble, Turn(feeble, m).m, n - 1, d, k);
    }
  }

  lemma TurnsOne(feeble: set<Op>, m: Machine)
    requires Valid(m.core) && Turn(feeble, m).After?
    ensures Turns(feeble, m, 1) == Turn(feeble, m)
  {
    hide Turn;
    assert Turns(feeble, m, 1) == Turns(feeble, Turn(feeble, m).m, 0);
  }

  /** n instructions of the processor are n turns of the loop. */
  lemma {:induction false} LiftRun(feeble: set<Op>, m: Machine, n: nat, spare: nat) returns (t: Machine)
    requires Valid(m.core) && !m.hitVector && Run(feeble, m.core, n).Ran? && Undisturbed(m.device, n + spare)
    ensures Turns(feeble, m, n) == After(t) && t.core == Run(feeble, m.core, n).c && !t.hitVector
    ensures t.halting == m.halting && t.retired == m.retired + n && SameShown(m.device, t.device)
    ensures (Masked(m.device) ==> Masked(t.device)) && (Busy(m.device) ==> Busy(t.device)) && Undisturbed(t.device, spare)
    ensures InTime(m.device, n + spare) ==> InTime(t.device, spare)
    ensures NotDue(m.device, n + spare) ==> NotDue(t.device, spare)
    decreases n
  {
    hide Step, Turn, Later, Undisturbed, Checked, LoopEnds, SameShown, InTime, NotDue;
    if n == 0 {
      t := m;
      ShownRefl(m.device);
    } else {
      UndisturbedCheck(m.device, m.core.decodeMask, n + spare);
      QuietTurn(feeble, m);
      var d := Turn(feeble, m).m;
      t := LiftRun(feeble, d, n - 1, spare);
      ShownTrans(m.device, d.device, t.device);
    }
  }

  lemma ShownRefl(d: Device)
    ensures SameShown(d, d)
  {
  }

  lemma ShownTrans(d: Device, e: Device, f: Device)
    requires SameShown(d, e) && SameShown(e, f)
    ensures SameShown(d, f)
  {
  }

  /** The machine gets from m to t without a fault. */
  ghost predicate Gets(feeble: set<Op>, m: Machine, t: Machine)
    requires Valid(m.core)
  {
    t.halting == m.halting && exists n: nat :: Turns(feeble, m, n) == After(t)
  }

  lemma GetsSelf(feeble: set<Op>, m: Machine)
    requires Valid(m.core)
    ensures Gets(feeble, m, m)
  {
    assert Turns(feeble, m, 0) == After(m);
  }

  lemma GetsTurn(feeble: set<Op>, m: Machine)
    requires Valid(m.core) && Turn(feeble, m).After? && Turn(feeble, m).m.halting == m.halting
    ensures Gets(feeble, m, Turn(feeble, m).m)
  {
    hide Turn;
    TurnsOne(feeble, m);
  }

  lemma GetsJoin(feeble: set<Op>, m: Machine, d: Machine, t: Machine)
    requires Valid(m.core) && Valid(d.core) && Gets(feeble, m, d) && Gets(feeble, d, t)
    ensures Gets(feeble, m, t)
  {
    var n: nat :| Turns(feeble, m, n) == After(d);
    var k: nat :| Turns(feeble, d, k) == After(t);
    TurnsAppend(feeble, m, n, d, k);
  }

  /** Interrupts masked, or one being served: what the processor reaches the machine gets to. */
  lemma LiftReaches(feeble: set<Op>, m: Machine, c: State) returns (t: Machine)
    requires Valid(m.core) && !m.hitVector && Reaches(feeble, m.core, c)
    requires m.device.timerInterval >= 0 && (Masked(m.device) || Busy(m.device))
    ensures Gets(feeble, m, t) && t.core == c && !t.hitVector && SameShown(m.device, t.device)
    ensures (Masked(m.device) ==> Masked(t.device)) && (Busy(m.device) ==> Busy(t.device))
  {
    hide Run, Turns, SameShown;
    var n: nat :| Run(feeble, m.core, n) == Ran(c);
    t := LiftRun(feeble, m, n, 0);
  }

  lemma SameInterval(d: Device, e: Device)
    requires SameShown(d, e)
    ensures d.timerInterval == e.timerInterval
  {
  }

  lemma BusyUndisturbed(d: Device, n: nat)
    requires Busy(d) && d.timerInterval >= 0
    ensures Undisturbed(d, n)
  {
  }

  /** The same turn by turn, with the time that is left to the next tick. */
  lemma LiftBusy(feeble: set<Op>, m: Machine, n: nat) returns (t: Machine)
    requires Valid(m.core) && !m.hitVector && Run(feeble, m.core, n).Ran? && m.device.timerInterval >= 0 && Busy(m.device)
    ensures Turns(feeble, m, n) == After(t) && t.core == Run(feeble, m.core, n).c && !t.hitVector
    ensures t.halting == m.halting && SameShown(m.device, t.device) && Busy(t.device)
    ensures forall k: nat :: InTime(m.device, n + k) ==> InTime(t.device, k)
  {
    hide Run, Turns, Undisturbed, SameShown, InTime, Busy;
    BusyUndisturbed(m.device, n);
    t := LiftRun(feeble, m, n, 0);
    forall k: nat | InTime(m.device, n + k) ensures InTime(t.device, k) {
      BusyUndisturbed(m.device, n + k);
      var u := LiftRun(feeble, m, n, k);
    }
  }

  // ---- Runs of IM bytes ----

  /** Once its first byte has been executed no interrupt is delivered inside a run of IM bytes: the whole
      run takes as many turns as it has bytes and pushes its value. */
  lemma {:induction false} ImmediateUninterrupted(feeble: set<Op>, m: Machine, gs: seq<nat>) returns (t: Machine)
    requires Valid(m.core) && !m.core.decodeMask && 4 <= m.core.sp <= RAM_SIZE && !m.hitVector
    requires Groups(gs) && ImAt(m.core.mem, m.core.pc, gs) && Outside(m.core.sp / 4 - 1, m.core.pc, |gs|)
    requires Idle(m.device)
    ensures Turns(feeble, m, |gs|) == After(t) && !t.hitVector && t.halting == m.halting && t.retired == m.retired + |gs|
    ensures t.core == State(m.core.pc + |gs|, m.core.sp - 4, true, m.core.mem[m.core.sp / 4 - 1 := ImmediateValue(gs)])
    ensures t.device.timerInterval == m.device.timerInterval
    decreases |gs|
  {
    hide Step, Run, Turn, Turns, ImAt, Outside, Checked;
    var n := |gs| - 1;
    var d := m;
    if n > 0 {
      ImmediatePrefix(m.core.mem, m.core.pc, gs, m.core.sp / 4 - 1, n);
      d := ImmediateUninterrupted(feeble, m, gs[..n]);
      ImmediateRun(feeble, m.core, gs[..n]);
      RunAppend(feeble, m.core, n, d.core, 1);
    } else {
      TurnsNone(feeble, m);
    }
    ImmediateRun(feeble, m.core, gs);
    LastStep(feeble, d.core);
    NoDeliveryInsideIm(d.device);
    QuietTurn(feeble, d);
    TurnsAppend(feeble, m, n, d, 1);
    TurnsOne(feeble, d);
    t := Turn(feeble, d).m;
    IntervalKept(d.device, d.core.decodeMask);
  }

  /** Nor is one delivered between the run and the instruction behind it. */
  lemma ImmediateThenOne(feeble: set<Op>, m: Machine, gs: seq<nat>) returns (t: Machine)
    requires Valid(m.core) && !m.core.decodeMask && 4 <= m.core.sp <= RAM_SIZE && !m.hitVector
    requires Groups(gs) && ImAt(m.core.mem, m.core.pc, gs) && Outside(m.core.sp / 4 - 1, m.core.pc, |gs|)
    requires Idle(m.device) && Run(feeble, m.core, |gs| + 1).Ran?
    ensures Turns(feeble, m, |gs| + 1) == After(t) && t.core == Run(feeble, m.core, |gs| + 1).c
    ensures !t.hitVector && t.halting == m.halting && t.device.timerInterval == m.device.timerInterval
  {
    hide Step, Run, Turn, Turns, ImAt, Outside, Checked, Groups;
    var d := ImmediateUninterrupted(feeble, m, gs);
    ImmediateRun(feeble, m.core, gs);
    RunAppend(feeble, m.core, |gs|, d.core, 1);
    LastStep(feeble, d.core);
    NoDeliveryInsideIm(d.device);
    QuietTurn(feeble, d);
    TurnsAppend(feeble, m, |gs|, d, 1);
    TurnsOne(feeble, d);
    t := Turn(feeble, d).m;
    IntervalKept(d.device, d.core.decodeMask);
  }

  lemma TurnsNone(feeble: set<Op>, m: Machine)
    requires Valid(m.core)
    ensures Turns(feeble, m, 0) == After(m)
  {
  }

  lemma LastStep(feeble: set<Op>, c: State)
    requires Valid(c) && Run(feeble, c, 1).Ran?
    ensures Step(feeble, c) == Run(feeble, c, 1)
  {
    hide Step;
    assert Run(feeble, c, 1) == if Step(feeble, c).Ran? then Run(feeble, Step(feeble, c).c, 0) else Stuck;
  }

  lemma IntervalKept(d: Device, mask: bool)
    ensures Later(d, mask).timerInterval == d.timerInterval
  {
  }
}
