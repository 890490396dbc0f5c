/** The halt handshake between the thread that executes instructions and the debugger thread, as a
    transition system over the regions their monitor makes atomic.  `wait` puts a thread to sleep,
    `notify` wakes the other one if it sleeps; there are no spurious wakeups. */
module Handshake {

  /** The processor thread: about to check for a halt, asleep in checkHalt, woken there but not yet
      running, executing one turn of the loop, or gone. */
  datatype Cpu = AtTop | Asleep | Woken | Executing | Ended

  /** The debugger thread: running, asleep inside cont, woken there, or gone. */
  datatype Gdb = Free | Blocked | Returning | Done

  /** Active calls of cont and step, innermost first: the instructions retired since the innermost
      began, and whether one of them was a SYSCALL. */
  datatype Calls = NoCall | Call(isStep: bool, retired: nat, sysCall: bool, outer: Calls)

  datatype State = State(cpu: Cpu, gdb: Gdb, breakNext: bool, enterSyscall: bool, powerdown: bool, calls: Calls)

  /** How a turn of the instruction loop ends. */
  datatype TurnEnd =
    | Retires(watch: bool)   // watch: an access watch point asked for a halt
    | RetiresSyscall         // the host call asks for a halt and records the request
    | Faults                 // the handler asks for a halt
    | TakesInterrupt         // a vector is armed, nothing is retired

  datatype Action =
    | CheckHalt | LeaveWait | EndTurn(e: TurnEnd)
    | BeginCall(isStep: bool) | ResumeAfterSyscall | AskHalt | LeaveCont | Shutdown

  /** createSimulator suspends the simulator before either thread runs. */
  function Initial(): State {
    State(AtTop, Free, true, false, false, NoCall)
  }

  predicate Enabled(s: State, a: Action) {
    match a
    case CheckHalt => s.cpu == AtTop
    case LeaveWait => s.cpu == Woken
    case EndTurn(e) => s.cpu == Executing
    case BeginCall(isStep) => s.gdb == Free
    case ResumeAfterSyscall => s.gdb == Free && s.calls.Call?
    case AskHalt => s.gdb == Free
    case LeaveCont => s.gdb == Returning && s.calls.Call?
    case Shutdown => s.gdb == Free && s.calls.NoCall?
  }

  /** Object.notify by the debugger thread. */
  function NotifyCpu(c: Cpu): Cpu {
    if c == Asleep then Woken else c
  }

  /** Object.notify by the processor thread. */
  function NotifyGdb(g: Gdb): Gdb {
    if g == Blocked then Returning else g
  }

  function Retire(c: Calls, sysCall: bool): Calls {
    if c.Call? then c.(retired := c.retired + 1, sysCall := c.sysCall || sysCall) else c
  }

  function After(s: State, a: Action): State
    requires Enabled(s, a)
  {
    match a
    case CheckHalt =>
      if s.powerdown then s.(cpu := Ended)
      else if s.breakNext then s.(breakNext := false, gdb := NotifyGdb(s.gdb), cpu := Asleep)
      else s.(cpu := Executing)
    case LeaveWait => s.(cpu := if s.powerdown then Ended else Executing)
    case EndTurn(e) =>
      (match e
       case Retires(watch) =>
         s.(cpu := AtTop, breakNext := s.breakNext || watch, calls := Retire(s.calls, false))
       case RetiresSyscall =>
         s.(cpu := AtTop, breakNext := true, enterSyscall := true, calls := Retire(s.calls, true))
       case Faults => s.(cpu := AtTop, breakNext := true)
       case TakesInterrupt => s.(cpu := AtTop))
    case BeginCall(isStep) =>
      s.(breakNext := s.breakNext || isStep, cpu := NotifyCpu(s.cpu), gdb := Blocked,
         calls := Call(isStep, 0, false, s.calls))
    case ResumeAfterSyscall => s.(cpu := NotifyCpu(s.cpu), gdb := Blocked)
    case AskHalt => s.(breakNext := true)
    case LeaveCont =>
      if s.enterSyscall then s.(enterSyscall := false, gdb := Free)
      else s.(gdb := Free, calls := s.calls.outer)
    case Shutdown => s.(powerdown := true, cpu := NotifyCpu(s.cpu), gdb := Done)
  }

  /** s leads to t by the actions as, each enabled where it happens. */
  predicate Run(s: State, acts: seq<Action>, t: State)
    decreases |acts|
  {
    if acts == [] then s == t
    else Enabled(s, acts[0]) && Run(After(s, acts[0]), acts[1..], t)
  }

  /** Calls below the innermost are performing a host call. */
  predicate OuterPerforming(c: Calls)
    decreases c
  {
    c.Call? ==> (c.outer.Call? ==> c.outer.sysCall) && OuterPerforming(c.outer)
  }

  /** A step that has seen no SYSCALL: the halt request is still pending until one instruction is done. */
  predicate StepOnce(s: State) {
    s.calls.Call? && s.calls.isStep && !s.calls.sysCall ==>
      match s.gdb
      case Free => false
      case Returning => s.calls.retired <= 1
      case Blocked => s.breakNext && s.calls.retired <= 1 && (s.cpu != AtTop ==> s.calls.retired == 0)
      case Done => true
  }

  predicate Invariant(s: State) {
    && (s.gdb == Done <==> s.powerdown)
    && (s.cpu == Executing ==> s.gdb == Blocked)
    && (s.cpu == Woken ==> s.gdb == Blocked || s.powerdown)
    && (s.cpu == AtTop && s.gdb != Blocked ==> s.breakNext || s.powerdown)
    && (s.gdb == Blocked ==> s.cpu != Asleep && s.cpu != Ended && s.calls.Call?)
    && (s.gdb == Returning ==> s.cpu == Asleep && s.calls.Call?)
    && (s.cpu == Ended ==> s.powerdown) && (s.powerdown ==> s.cpu != Asleep)
    && (s.enterSyscall ==> s.gdb == Returning || (s.gdb == Blocked && s.breakNext))
    && (s.enterSyscall ==> s.calls.Call? && s.calls.sysCall)
    && (s.gdb == Free && s.calls.Call? ==> s.calls.sysCall)
    && OuterPerforming(s.calls) && StepOnce(s)
  }

  lemma InvariantInitially()
    ensures Invariant(Initial())
  {
  }

  lemma InvariantKept(s: State, a: Action)
    requires Invariant(s) && Enabled(s, a)
    ensures Invariant(After(s, a))
  {
  }

  lemma {:induction false} InvariantAlways(s: State, acts: seq<Action>, t: State)
    requires Invariant(s) && Run(s, acts, t)
    ensures Invariant(t)
    decreases |acts|
  {
    if acts != [] {
      InvariantKept(s, acts[0]);
      InvariantAlways(After(s, acts[0]), acts[1..], t);
    }
  }

  /** Over every interleaving: instructions execute only while the debugger thread sleeps inside
      cont, the two threads never sleep at once, and whenever the debugger runs the processor is
      halted or is going to halt before its next instruction. */
  lemma ExecutesOnlyInsideCont(acts: seq<Action>, t: State)
    requires Run(Initial(), acts, t)
    ensures t.cpu == Executing ==> t.gdb == Blocked && t.calls.Call?
    ensures !(t.cpu == Asleep && t.gdb == Blocked)
    ensures t.gdb == Free ==> t.cpu == Asleep || (t.cpu == AtTop && t.breakNext)
  {
    InvariantInitially();
    InvariantAlways(Initial(), acts, t);
  }

  /** One step whose instructions include no SYSCALL has retired at most one when it returns. */
  lemma StepRetiresAtMostOne(acts: seq<Action>, t: State)
    requires Run(Initial(), acts, t) && t.calls.Call? && t.calls.isStep && !t.calls.sysCall
    requires Enabled(t, LeaveCont)
    ensures t.calls.retired <= 1 && After(t, LeaveCont).calls == t.calls.outer
  {
    InvariantInitially();
    InvariantAlways(Initial(), acts, t);
  }

  /** With a SYSCALL it can retire more: the host call resumes the processor with no halt pending. */
  lemma StepOverSyscallRunsOn()
    ensures exists t :: Run(Initial(), [CheckHalt, BeginCall(true), LeaveWait, EndTurn(RetiresSyscall), CheckHalt, LeaveCont,
                                        ResumeAfterSyscall, LeaveWait, EndTurn(Retires(false)), CheckHalt], t)
                        && t.cpu == Executing && t.calls.Call? && t.calls.isStep && t.calls.retired == 2
  {
    var s := Initial();
    var s1 := After(s, CheckHalt);
    var s2 := After(s1, BeginCall(true));
    var s3 := After(s2, LeaveWait);
    var s4 := After(s3, EndTurn(RetiresSyscall));
    var s5 := After(s4, CheckHalt);
    var s6 := After(s5, LeaveCont);
    var s7 := After(s6, ResumeAfterSyscall);
    var s8 := After(s7, LeaveWait);
    var s9 := After(s8, EndTurn(Retires(false)));
    var t := After(s9, CheckHalt);
    assert Run(s9, [CheckHalt], t);
    assert Run(s8, [EndTurn(Retires(false)), CheckHalt], t);
    assert Run(s6, [ResumeAfterSyscall, LeaveWait, EndTurn(Retires(false)), CheckHalt], t);
    assert Run(s4, [CheckHalt, LeaveCont, ResumeAfterSyscall, LeaveWait, EndTurn(Retires(false)), CheckHalt], t);
    assert Run(s2, [LeaveWait, EndTurn(RetiresSyscall), CheckHalt, LeaveCont,
                    ResumeAfterSyscall, LeaveWait, EndTurn(Retires(false)), CheckHalt], t);
  }

  // ---- When the processor halts ----

  /** Actions that ask for a halt: step, a debugger request, a fault, a watch point and a SYSCALL. */
  predicate AsksHalt(a: Action) {
    || a == BeginCall(true) || a == AskHalt || a == EndTurn(Faults) || a == EndTurn(Retires(true)) || a == EndTurn(RetiresSyscall)
  }

  /** The last of these actions puts the processor to sleep. */
  predicate Sleeps(acts: seq<Action>)
    decreases |acts|, 0
  {
    acts != [] && acts[|acts| - 1] == CheckHalt && Shutdown !in acts && HaltAsked(acts[..|acts| - 1])
  }

  /** A halt has been asked for since the processor went to sleep last, or has not been answered since the
      start, when it is suspended. */
  predicate HaltAsked(acts: seq<Action>)
    decreases |acts|, 1
  {
    if acts == [] then true
    else AsksHalt(acts[|acts| - 1]) || (HaltAsked(acts[..|acts| - 1]) && !Sleeps(acts))
  }

  lemma {:induction false} RunFront(s: State, acts: seq<Action>, t: State) returns (u: State)
    requires Run(s, acts, t) && acts != []
    ensures Run(s, acts[..|acts| - 1], u) && Enabled(u, acts[|acts| - 1]) && t == After(u, acts[|acts| - 1])
    decreases |acts|
  {
    var s' := After(s, acts[0]);
    if |acts| == 1 {
      u := s;
    } else {
      u := RunFront(s', acts[1..], t);
      assert acts[..|acts| - 1][1..] == acts[1..][..|acts| - 2];
    }
  }

  lemma {:induction false} HaltPending(acts: seq<Action>, t: State)
    requires Run(Initial(), acts, t)
    ensures t.breakNext == HaltAsked(acts) && (t.powerdown <==> Shutdown in acts)
    decreases |acts|
  {
    if acts != [] {
      var front, a := acts[..|acts| - 1], acts[|acts| - 1];
      var u := RunFront(Initial(), acts, t);
      HaltPending(front, u);
      assert acts == front + [a];
      if a == CheckHalt {
        assert Shutdown in acts <==> Shutdown in front;
      }
    }
  }

  /** Over all runs: checkHalt puts the processor to sleep if and only if a halt has been asked for since it
      went to sleep last, ends it after a shutdown, and otherwise lets it execute. */
  lemma HaltsExactly(acts: seq<Action>, t: State)
    requires Run(Initial(), acts, t) && Enabled(t, CheckHalt)
    ensures After(t, CheckHalt).cpu
         == if Shutdown in acts then Ended else if HaltAsked(acts) then Asleep else Executing
    ensures After(t, CheckHalt).cpu == Asleep <==> Sleeps(acts + [CheckHalt])
  {
    HaltPending(acts, t);
    assert (acts + [CheckHalt])[..|acts|] == acts;
    assert Shutdown in acts + [CheckHalt] <==> Shutdown in acts;
  }

  /** While nothing asks for a halt a processor that is running goes on: cont does not return by itself. */
  lemma {:induction false} ContRunsOn(s: State, acts: seq<Action>, t: State)
    requires Run(s, acts, t) && Invariant(s) && s.gdb == Blocked && !s.breakNext
    requires forall i :: 0 <= i < |acts| ==> !AsksHalt(acts[i])
    ensures t.gdb == Blocked && t.cpu != Asleep && t.cpu != Ended && !t.breakNext
    decreases |acts|
  {
    if acts != [] {
      InvariantKept(s, acts[0]);
      ContRunsOn(After(s, acts[0]), acts[1..], t);
    }
  }

  /** Until both threads have ended one of them can go on; after a shutdown the processor ends with its next
      step. */
  lemma NoDeadlock(acts: seq<Action>, t: State) returns (a: Action)
    requires Run(Initial(), acts, t) && !(t.gdb == Done && t.cpu == Ended)
    ensures Enabled(t, a)
    ensures t.gdb == Done ==> After(t, a).cpu == Ended
  {
    InvariantInitially();
    InvariantAlways(Initial(), acts, t);
    if t.cpu == AtTop {
      a := CheckHalt;
    } else if t.cpu == Woken {
      a := LeaveWait;
    } else if t.cpu == Executing {
      a := EndTurn(TakesInterrupt);
    } else if t.gdb == Returning {
      a := LeaveCont;
    } else {
      a := AskHalt;
    }
  }
}
