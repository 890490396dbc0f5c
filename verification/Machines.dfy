/** The machine of the instruction loop: processor and board together.  One turn of the loop enters an
    armed vector, looks for interrupts and attempts one instruction; faults are rolled back. */
module Machines {
  import opened Words
  import opened Isa
  import opened Cpu
  import opened Runs
  import opened Phi

  // ---- What an instruction does, with device registers resolved ----

  function Resolve(d: Device, v: Value): Access<word> {
    match v
    case Word(w) => Got(w)
    case DevicePlus(reg, w) =>
      if 0 <= reg < M then
        match DeviceRead(d, reg)
        case Got(x) => Got(Wrap(x + w))
        case Bad(f) => Bad(f)
      else Bad(MemoryAccess)
  }

  datatype Effects = Effects(mem: seq<word>, device: Device)

  /** Memory and device after a write. */
  function Perform(mem: seq<word>, d: Device, wr: Write): (r: Access<Effects>)
    ensures r.Got? ==> |r.t.mem| == |mem|
  {
    match wr
    case NoWrite => Got(Effects(mem, d))
    case Ram(i, v) =>
      (match Resolve(d, v)
       case Got(w) => if 0 <= i < |mem| then Got(Effects(mem[i := w], d)) else Bad(OutOfBounds)
       case Bad(f) => Bad(f))
    case Io(a, v) =>
      (match Resolve(d, v)
       case Got(w) =>
         if 0 <= a < M then
           match DeviceWrite(d, a, w)
           case Got(e) => Got(Effects(mem, e))
           case Bad(f) => Bad(f)
         else Bad(MemoryAccess)
       case Bad(f) => Bad(f))
  }

  function Ticked(d: Device): Device {
    d.(cycles := d.cycles + 1)
  }

  // ---- One turn of the instruction loop ----

  /** Processor and board, whether the interrupt vector is armed, whether a fault has asked for a halt,
      and how many instructions have been retired. */
  datatype Machine = Machine(core: State, device: Device, hitVector: bool, halting: bool, retired: nat)

  datatype Entry = Entered(m: Machine) | Failed(m: Machine)

  /** checkVector: an armed vector is entered with pc on the stack.  When the push faults sp stays moved,
      because nothing is rolled back between instructions. */
  function CheckVector(m: Machine): (r: Entry)
    requires Valid(m.core)
    ensures Valid(r.m.core) && !r.m.hitVector && r.m.retired == m.retired
    ensures r.m.halting == (m.halting || r.Failed?)
  {
    if !m.hitVector then Entered(m)
    else
      var sp := (m.core.sp - 4) % M;
      var failed := m.(core := m.core.(sp := sp), hitVector := false, halting := true);
      match WriteLong(sp, Word(Wrap(m.core.pc)))
      case Bad(f) => Failed(failed)
      case Got(wr) =>
        match Perform(m.core.mem, m.device, wr)
        case Bad(f) => Failed(failed)
        case Got(e) => Entered(m.(core := State(VECTOR_SIZE, sp, m.core.decodeMask, e.mem), device := e.device, hitVector := false))
  }

  /** One instruction: it retires, or its fault is rolled back and a halt requested. */
  function Attempt(feeble: set<Op>, m: Machine): (r: Machine)
    requires Valid(m.core)
    ensures Valid(r.core)
  {
    var c, d := m.core, if m.core.pc < RAM_SIZE then Ticked(m.device) else m.device;
    var o := Effect(feeble, c);
    match Perform(c.mem, d, o.wr)
    case Bad(f) => m.(device := d, halting := true)
    case Got(e) =>
      if o.Trap? then m.(core := c.(mem := e.mem), device := e.device, halting := true)
      else m.(core := State(o.pc, o.sp, o.decodeMask, e.mem), device := e.device, retired := m.retired + 1)
  }

  /** Spinning: the catch-up loop of the timer never ends, so there is no next turn. */
  datatype Turned = Spinning | After(m: Machine)

  function Turn(feeble: set<Op>, m: Machine): (r: Turned)
    requires Valid(m.core)
    ensures r.After? ==> Valid(r.m.core)
  {
    match CheckVector(m)
    case Failed(f) => After(f)
    case Entered(v) =>
      if !LoopEnds(v.device) then Spinning
      else
        var (d, deliver) := Checked(v.device, v.core.decodeMask);
        if deliver then After(v.(device := d, hitVector := true)) else After(Attempt(feeble, v.(device := d)))
  }

  function Turns(feeble: set<Op>, m: Machine, n: nat): (r: Turned)
    requires Valid(m.core)
    ensures r.After? ==> Valid(r.m.core)
    decreases n
  {
    if n == 0 then After(m)
    else match Turn(feeble, m)
      case Spinning => Spinning
      case After(d) => Turns(feeble, d, n - 1)
  }

  // ---- Faults and rollback ----

  /** Opcodes whose execution calls emulate(). */
  predicate CallsEmulate(feeble: set<Op>, op: Op) {
    op == Config || (op in feeble && Emulatable(op))
  }

  lemma EmulateTraps(c: State)
    requires Valid(c) && c.pc < RAM_SIZE && Byte(c.mem[c.pc / 4], c.pc % 4) >= 32 && Emulate(c).Trap?
    ensures Emulate(c).wr != NoWrite <==> 4 <= c.sp <= RAM_SIZE
    ensures Emulate(c).wr != NoWrite ==>
      c.pc / 4 == c.sp / 4 - 1 && Emulate(c).wr == Ram(c.sp / 4 - 1, Word(c.pc + 1))
  {
    hide Byte;
  }

  lemma NativeTraps(c: State, op: Op)
    requires Valid(c) && c.pc < RAM_SIZE && op != Config && Native(c, op).Trap?
    ensures Native(c, op).wr != NoWrite <==> c.sp < RAM_SIZE && (op == Call || op == CallPcRel)
    ensures Native(c, op).wr != NoWrite ==> Native(c, op).wr == Ram(c.sp / 4, Word(c.pc + 1))
  {
    hide Alu1Value, Alu2Value, Quotient, SetByte, SetHalf, Byte, Emulate;
  }

  lemma EmulatedOpcode(b: int)
    requires 0 <= b < 256 && (Emulatable(Decode(b)) || Decode(b) == Config)
    ensures b >= 32
  {
  }

  /** An instruction can fault after writing in two ways: a call executed by the processor stores its
      return address before the target turns out to be outside memory, and emulate() stores the return
      address over the opcode it is about to read again. */
  lemma TrapWrites(feeble: set<Op>, c: State)
    requires Valid(c) && Effect(feeble, c).Trap?
    ensures Effect(feeble, c).wr != NoWrite <==>
      && c.pc < RAM_SIZE
      && (var op := OpAt(c.mem, c.pc);
          if CallsEmulate(feeble, op) then 4 <= c.sp <= RAM_SIZE
          else c.sp < RAM_SIZE && (op == Call || op == CallPcRel))
    ensures Effect(feeble, c).wr != NoWrite ==>
      if CallsEmulate(feeble, OpAt(c.mem, c.pc))
      then c.pc / 4 == c.sp / 4 - 1 && Effect(feeble, c).wr == Ram(c.sp / 4 - 1, Word(c.pc + 1))
      else Effect(feeble, c).wr == Ram(c.sp / 4, Word(c.pc + 1))
  {
    hide Decode, Emulate, Emulatable, Native, Byte;
    if c.pc < RAM_SIZE {
      var op := OpAt(c.mem, c.pc);
      if CallsEmulate(feeble, op) {
        EmulatedOpcode(Byte(c.mem[c.pc / 4], c.pc % 4));
        ConfigEmulates(c);
        EmulateTraps(c);
      } else if op !in feeble || op != Syscall {
        NativeTraps(c, op);
      }
    }
  }

  lemma ConfigEmulates(c: State)
    requires Valid(c) && c.pc < RAM_SIZE
    ensures Native(c, Config) == Emulate(c) && !Emulatable(Config)
  {
    hide Emulate;
  }

  /** A fault leaves pc, sp and decode mask as they were, and memory too but for the return address of
      TrapWrites; without one the instruction retires. */
  lemma Rollback(feeble: set<Op>, m: Machine)
    requires Valid(m.core)
    ensures var r := Attempt(feeble, m);
      && (r.retired == m.retired ==> r.halting && r.core == m.core.(mem := r.core.mem))
      && (r.retired == m.retired ==> forall i :: 0 <= i < RAM_WORDS && r.core.mem[i] != m.core.mem[i] ==>
            (i == m.core.sp / 4 || i == m.core.sp / 4 - 1) && r.core.mem[i] == m.core.pc + 1)
      && (r.retired != m.retired ==>
            r.retired == m.retired + 1 && r.halting == m.halting && Effect(feeble, m.core).Next?
            && r.core.pc == Effect(feeble, m.core).pc && r.core.sp == Effect(feeble, m.core).sp)
  {
    hide Effect, OpAt;
    if Effect(feeble, m.core).Trap? {
      TrapWrites(feeble, m.core);
    }
  }

  /** An instruction that needs no device retires with the effect Runs.Step gives it. */
  lemma AttemptSteps(feeble: set<Op>, m: Machine)
    requires Valid(m.core) && Step(feeble, m.core).Ran?
    ensures Attempt(feeble, m)
         == m.(core := Step(feeble, m.core).c, device := Ticked(m.device), retired := m.retired + 1)
  {
    hide Effect;
    NotAtEnd(feeble, m.core);
  }

  lemma NotAtEnd(feeble: set<Op>, c: State)
    requires Valid(c) && Effect(feeble, c).Next?
    ensures c.pc < RAM_SIZE
  {
    hide Native, Emulate;
  }

  // ---- What holds in every reachable state ----

  /** sp is aligned and pc within memory, a vector is armed only between instructions, and the timer
      has not been set in the future. */
  ghost predicate Sound(m: Machine) {
    Valid(m.core) && (m.hitVector ==> !m.core.decodeMask) && Timely(m.device)
  }

  lemma PerformTimely(mem: seq<word>, d: Device, wr: Write)
    requires Timely(d) && Perform(mem, d, wr).Got?
    ensures Timely(Perform(mem, d, wr).t.device) && Perform(mem, d, wr).t.device.cycles == d.cycles
  {
    hide DeviceRead;
  }

  lemma TurnKeeps(feeble: set<Op>, m: Machine)
    requires Sound(m) && Turn(feeble, m).After?
    ensures Sound(Turn(feeble, m).m) && m.retired <= Turn(feeble, m).m.retired <= m.retired + 1
    ensures m.halting ==> Turn(feeble, m).m.halting
  {
    hide Attempt, Checked, CheckVector;
    VectorKeeps(m);
    var v := CheckVector(m).m;
    if CheckVector(m).Entered? {
      CheckedTimely(v.device, v.core.decodeMask);
      DeliversUnmasked(v.device, v.core.decodeMask);
      AttemptKeeps(feeble, v.(device := Checked(v.device, v.core.decodeMask).0));
    }
  }

  lemma VectorKeeps(m: Machine)
    requires Sound(m)
    ensures Sound(CheckVector(m).m)
  {
    hide Perform;
    var sp := (m.core.sp - 4) % M;
    var wr := WriteLong(sp, Word(Wrap(m.core.pc)));
    if wr.Got? && Perform(m.core.mem, m.device, wr.t).Got? {
      PerformTimely(m.core.mem, m.device, wr.t);
    }
  }

  lemma AttemptKeeps(feeble: set<Op>, m: Machine)
    requires Sound(m) && !m.hitVector
    ensures Sound(Attempt(feeble, m)) && m.retired <= Attempt(feeble, m).retired <= m.retired + 1
    ensures m.halting ==> Attempt(feeble, m).halting
  {
    hide Effect, Perform;
    var d := if m.core.pc < RAM_SIZE then Ticked(m.device) else m.device;
    var wr := Effect(feeble, m.core).wr;
    if Perform(m.core.mem, d, wr).Got? {
      PerformTimely(m.core.mem, d, wr);
    }
  }

  /** Every state the loop reaches from a sound one, with whatever faults, interrupts and device
      accesses on the way, is sound. */
  lemma {:induction false} TurnsKeep(feeble: set<Op>, m: Machine, n: nat)
    requires Sound(m) && Turns(feeble, m, n).After?
    ensures Sound(Turns(feeble, m, n).m) && m.retired <= Turns(feeble, m, n).m.retired <= m.retired + n
    ensures m.halting ==> Turns(feeble, m, n).m.halting
    decreases n
  {
    hide Turn, Sound;
    if n > 0 {
      SoundCore(m);
      TurnKeeps(feeble, m);
      TurnsKeep(feeble, Turn(feeble, m).m, n - 1);
    }
  }

  lemma SoundCore(m: Machine)
    requires Sound(m)
    ensures Valid(m.core)
  {
  }

  /** An armed vector, with room on the stack: pc is pushed and control continues at address 0x20. */
  lemma VectorEnters(m: Machine)
    requires Valid(m.core) && m.hitVector && 4 <= m.core.sp <= 0x20_0000
    ensures CheckVector(m) == Entered(m.(core := State(0x20, m.core.sp - 4, m.core.decodeMask,
                                                       m.core.mem[m.core.sp / 4 - 1 := m.core.pc]), hitVector := false))
  {
  }

  /** An armed vector, with sp where nothing can be pushed: sp moves, nothing else does, and a halt is
      requested. */
  lemma VectorFaults(m: Machine)
    requires Valid(m.core) && m.hitVector && (m.core.sp == 0 || (m.core.sp > 0x20_0000 && !IsIo(m.core.sp - 4)))
    ensures CheckVector(m) == Failed(m.(core := m.core.(sp := if m.core.sp == 0 then 0xffff_fffc else m.core.sp - 4),
                                       hitVector := false, halting := true))
  {
  }

  /** The cycle of an instruction passes before it reads the counter: LOAD of the timer's counter register. */
  lemma CounterSeesTick(feeble: set<Op>, m: Machine)
    requires Valid(m.core) && Fetch(m.core) == Got(Load) && m.core.sp < RAM_SIZE && m.core.mem[m.core.sp / 4] == TIMER_COUNTER
    requires 0 < m.device.timerInterval < M && Timely(m.device)
    ensures var d := m.device;
      Attempt(feeble, m).core == State(m.core.pc + 1, m.core.sp, false, m.core.mem[m.core.sp / 4 :=
        d.timerInterval - 1 - (d.cycles + 1 - d.lastTimer) % d.timerInterval])
  {
    hide OpAt, EmulateCode;
    LoadsCounter(feeble, m.core);
    Remaining(m.device.cycles + 1 - m.device.lastTimer, m.device.timerInterval);
  }

  lemma LoadsCounter(feeble: set<Op>, c: State)
    requires Valid(c) && Fetch(c) == Got(Load) && c.sp < RAM_SIZE && c.mem[c.sp / 4] == TIMER_COUNTER
    ensures c.pc < RAM_SIZE
    ensures Effect(feeble, c) == Next(c.pc + 1, c.sp, false, Ram(c.sp / 4, DevicePlus(TIMER_COUNTER, 0)))
  {
    hide OpAt;
  }

  lemma Remaining(x: nat, p: int)
    requires 0 < p < M
    ensures JavaRemainder(x, p) == x % p && Wrap(p - 1 - x % p) == p - 1 - x % p
  {
  }
}
