/** One ZPU instruction as a function of the processor state.
    Every instruction writes at most one word, so its effect is the next pc, sp and
    decode mask together with at most one pending write.  Device registers are
    named by address and resolved by the simulator (module Simulation). */
module Cpu {
  import opened Words
  import opened Isa

  const RAM_WORDS: int := 0x8_0000
  const RAM_SIZE: int := 0x20_0000
  const IO_BASE: int := 0x0800_0000
  const IO_SIZE: int := 0x10_0000
  const VECTOR_SIZE: int := 0x20

  datatype State = State(pc: int, sp: int, decodeMask: bool, mem: seq<word>)

  ghost predicate Valid(c: State) {
    && 0 <= c.pc <= RAM_SIZE
    && 0 <= c.sp < M && c.sp % 4 == 0
    && |c.mem| == RAM_WORDS
  }

  datatype Fault = BreakpointHit | IllegalInstruction | MemoryAccess | OutOfBounds | DivideByZero

  /** A value to be written: known, or a device register plus a known word. */
  datatype Value = Word(w: word) | DevicePlus(reg: int, w: word)

  datatype Write = NoWrite | Ram(i: int, v: Value) | Io(a: int, v: Value)

  datatype Access<T> = Got(t: T) | Bad(f: Fault)

  /** Next: the instruction retires.  Trap: it raises an exception after performing `wr`. */
  datatype Outcome =
    | Next(pc: int, sp: int, decodeMask: bool, wr: Write)
    | Trap(f: Fault, wr: Write)

  /** What every outcome satisfies: pc within RAM bounds, sp an aligned word, RAM writes in range. */
  predicate WellFormed(o: Outcome) {
    && (o.Next? ==> 0 <= o.pc <= RAM_SIZE && 0 <= o.sp < M && o.sp % 4 == 0)
    && (o.wr.Ram? ==> 0 <= o.wr.i < RAM_WORDS)
  }

  predicate IsIo(a: word) {
    IO_BASE <= a < IO_BASE + IO_SIZE
  }

  /** cpuReadLong. */
  function ReadLong(c: State, a: word): Access<Value>
    requires |c.mem| == RAM_WORDS
  {
    if a % 4 != 0 then Bad(MemoryAccess)
    else if IsIo(a) then Got(DevicePlus(a, 0))
    else if a < RAM_SIZE then Got(Word(c.mem[a / 4]))
    else if a == RAM_SIZE then Bad(OutOfBounds)
    else Bad(MemoryAccess)
  }

  /** cpuWriteLong. */
  function WriteLong(a: word, v: Value): (r: Access<Write>)
    ensures r.Got? && r.t.Ram? ==> 0 <= r.t.i < RAM_WORDS
  {
    if a % 4 != 0 then Bad(MemoryAccess)
    else if IsIo(a) then Got(Io(a, v))
    else if a < RAM_SIZE then Got(Ram(a / 4, v))
    else if a == RAM_SIZE then Bad(OutOfBounds)
    else Bad(MemoryAccess)
  }

  /** The k-th word popped; `pop` indexes validMemory before it reads. */
  function Peek(c: State, k: nat): Access<word>
    requires Valid(c)
  {
    if c.sp + 4 * k < RAM_SIZE then Got(c.mem[c.sp / 4 + k]) else Bad(OutOfBounds)
  }

  /** The word readByteInternal selects the byte from; Java division rounds towards zero. */
  function ByteWord(c: State, a: word): Access<word>
    requires |c.mem| == RAM_WORDS
  {
    if a < RAM_SIZE then Got(c.mem[a / 4])
    else if a >= M - 3 then Got(c.mem[0])
    else Bad(OutOfBounds)
  }

  function OpAt(mem: seq<word>, a: int): Op
    requires |mem| == RAM_WORDS && 0 <= a < RAM_SIZE
  {
    Decode(Byte(mem[a / 4], a % 4))
  }

  function Fetch(c: State): Access<Op>
    requires Valid(c)
  {
    if c.pc < RAM_SIZE then Got(OpAt(c.mem, c.pc)) else Bad(OutOfBounds)
  }

  function Sequential(c: State, sp: int, wr: Write): (o: Outcome)
    requires 0 <= c.pc < RAM_SIZE && sp % 4 == 0 && (wr.Ram? ==> 0 <= wr.i < RAM_WORDS)
    ensures WellFormed(o)
  {
    Next(c.pc + 1, sp % M, false, wr)
  }

  function JumpTo(sp: int, target: word, wr: Write): (o: Outcome)
    requires sp % 4 == 0 && (wr.Ram? ==> 0 <= wr.i < RAM_WORDS)
    ensures WellFormed(o)
  {
    if target <= RAM_SIZE then Next(target, sp % M, false, wr) else Trap(MemoryAccess, wr)
  }

  /** Push v below sp, then continue at pc+1. */
  function PushValue(c: State, sp: int, v: Value, pc: int, mask: bool): (o: Outcome)
    requires sp % 4 == 0 && 0 <= pc <= RAM_SIZE
    ensures WellFormed(o)
  {
    match WriteLong((sp - 4) % M, v)
    case Bad(f) => Trap(f, NoWrite)
    case Got(wr) => Next(pc, (sp - 4) % M, mask, wr)
  }

  function PushWord(c: State, sp: int, w: word): (o: Outcome)
    requires sp % 4 == 0 && 0 <= c.pc < RAM_SIZE
    ensures WellFormed(o)
  {
    PushValue(c, sp, Word(w), c.pc + 1, false)
  }

  /** The byte at pc once wr has been performed. */
  function ByteAfter(c: State, wr: Write): (b: int)
    requires Valid(c) && c.pc < RAM_SIZE
    ensures 0 <= b < 256
  {
    if wr.Ram? && wr.v.Word? && wr.i == c.pc / 4 then Byte(wr.v.w, c.pc % 4) else Byte(c.mem[c.pc / 4], c.pc % 4)
  }

  /** emulate(): push pc+1, read the opcode byte again and enter its vector. */
  function Emulate(c: State): (o: Outcome)
    requires Valid(c) && c.pc < RAM_SIZE
    ensures WellFormed(o)
  {
    match WriteLong((c.sp - 4) % M, Word(Wrap(c.pc + 1)))
    case Bad(f) => Trap(f, NoWrite)
    case Got(wr) =>
      var b := ByteAfter(c, wr);
      if b < 32 then Trap(MemoryAccess, wr) else Next((b - 32) * VECTOR_SIZE, (c.sp - 4) % M, false, wr)
  }

  /** Java integer division rounds towards zero. */
  function Quotient(x: int, y: int): int
    requires y != 0
  {
    if x >= 0 then (if y > 0 then x / y else -(x / -y))
    else if y > 0 then -((-x) / y) else (-x) / (-y)
  }

  function Divide(a: word, b: word): word
    requires b != 0
  {
    Wrap(Quotient(Signed(a), Signed(b)))
  }

  function Remainder(a: word, b: word): word
    requires b != 0
  {
    Wrap(Signed(a) - Signed(b) * Quotient(Signed(a), Signed(b)))
  }

  /** cpuReadWord. */
  function HalfWord(w: word, k: int): word
    requires k == 0 || k == 2
  {
    Byte(w, k) * 256 + Byte(w, k + 1)
  }

  /** cpuWriteWord: the bytes at k and k+1 replaced, high byte first. */
  function SetHalf(w: word, k: int, v: word): word
    requires k == 0 || k == 2
  {
    var high, low := v / 256 % 256, v % 256;
    if k == 0 then Join(high, low, Byte(w, 2), Byte(w, 3)) else Join(Byte(w, 0), Byte(w, 1), high, low)
  }

  /** The write of an instruction that pops one word and pushes w. */
  function Replace(c: State, w: word): Write {
    Ram(c.sp / 4, Word(w))
  }

  /** The write of an instruction that pops two words and pushes w. */
  function Combine(c: State, w: word): Write {
    Ram(c.sp / 4 + 1, Word(w))
  }

  /** Instructions that pop the top of stack: a is that word. */
  function OnTop(c: State, op: Op, a: word): (o: Outcome)
    requires Valid(c) && c.pc < RAM_SIZE && c.sp < RAM_SIZE
    ensures WellFormed(o)
  {
    match op
    case Im(bits) => Next(c.pc + 1, c.sp, true, Replace(c, Wrap(a * 128 + bits)))
    case PopPc => JumpTo(c.sp + 4, a, NoWrite)
    case PopSp => if a % 4 == 0 then Sequential(c, a, NoWrite) else Trap(IllegalInstruction, NoWrite)
    case PopPcRel => JumpTo(c.sp + 4, Wrap(a + c.pc), NoWrite)
    case Call => JumpTo(c.sp, a, Replace(c, Wrap(c.pc + 1)))
    case CallPcRel => JumpTo(c.sp, Wrap(a + c.pc), Replace(c, Wrap(c.pc + 1)))
    case Unary(g) => Sequential(c, c.sp, Replace(c, Alu1Value(g, a)))
    case PushSpAdd => Sequential(c, c.sp, Replace(c, Wrap(c.sp + 4 * a)))
    case AddSp(k) => (match ReadLong(c, Wrap(c.sp + 4 * k))
                      case Bad(f) => Trap(f, NoWrite)
                      case Got(v) => Sequential(c, c.sp, Ram(c.sp / 4, v.(w := Wrap(v.w + a)))))
    case StoreSp(k) => (match WriteLong(Wrap(c.sp + 4 * k), Word(a))
                        case Bad(f) => Trap(f, NoWrite)
                        case Got(wr) => Sequential(c, c.sp + 4, wr))
    case Load => (match ReadLong(c, a)
                  case Bad(f) => Trap(f, NoWrite)
                  case Got(v) => Sequential(c, c.sp, Ram(c.sp / 4, v)))
    case LoadB => (match ByteWord(c, a)
                   case Bad(f) => Trap(f, NoWrite)
                   case Got(w) => Sequential(c, c.sp, Replace(c, Byte(w, a % 4))))
    case LoadH => if a % 2 != 0 then Trap(MemoryAccess, NoWrite) else
                  EvenOffset(a);
                  (match ByteWord(c, a)
                   case Bad(f) => Trap(f, NoWrite)
                   case Got(w) => Sequential(c, c.sp, Replace(c, HalfWord(w, a % 4))))
    case _ => Trap(IllegalInstruction, NoWrite)
  }

  function Branch(c: State, offset: word, taken: bool): (o: Outcome)
    requires Valid(c) && c.pc < RAM_SIZE
    ensures WellFormed(o)
  {
    JumpTo(c.sp + 8, if taken then Wrap(offset + c.pc) else Wrap(c.pc + 1), NoWrite)
  }

  function StoreByte(c: State, a: word, v: word): (o: Outcome)
    requires Valid(c) && c.pc < RAM_SIZE
    ensures WellFormed(o)
  {
    if a >= RAM_SIZE then Trap(MemoryAccess, NoWrite)
    else Sequential(c, c.sp + 8, Ram(a / 4, Word(SetByte(c.mem[a / 4], a % 4, v))))
  }

  function StoreHalf(c: State, a: word, v: word): (o: Outcome)
    requires Valid(c) && c.pc < RAM_SIZE
    ensures WellFormed(o)
  {
    if a % 2 != 0 || a >= RAM_SIZE then Trap(MemoryAccess, NoWrite)
    else
      EvenOffset(a);
      Sequential(c, c.sp + 8, Ram(a / 4, Word(SetHalf(c.mem[a / 4], a % 4, v))))
  }

  lemma EvenOffset(a: word)
    requires a % 2 == 0
    ensures a % 4 == 0 || a % 4 == 2
  {
  }

  function OnDivision(c: State, quotient: bool, a: word, b: word): (o: Outcome)
    requires Valid(c) && c.pc < RAM_SIZE && c.sp + 4 < RAM_SIZE
    ensures WellFormed(o)
  {
    if b == 0 then Trap(DivideByZero, NoWrite)
    else Sequential(c, c.sp + 4, Combine(c, if quotient then Divide(a, b) else Remainder(a, b)))
  }

  /** Instructions that pop two words: a is the top of stack, b the word below. */
  function OnTwo(c: State, op: Op, a: word, b: word): (o: Outcome)
    requires Valid(c) && c.pc < RAM_SIZE && c.sp + 4 < RAM_SIZE
    ensures WellFormed(o)
  {
    match op
    case Binary(f) => Sequential(c, c.sp + 4, Combine(c, Alu2Value(f, a, b)))
    case Div => OnDivision(c, true, a, b)
    case Mod => OnDivision(c, false, a, b)
    case EqBranch => Branch(c, a, b == 0)
    case NeqBranch => Branch(c, a, b != 0)
    case Store => (match WriteLong(a, Word(b))
                   case Bad(f) => Trap(f, NoWrite)
                   case Got(wr) => Sequential(c, c.sp + 8, wr))
    case StoreB => StoreByte(c, a, b)
    case StoreH => StoreHalf(c, a, b)
    case _ => Trap(IllegalInstruction, NoWrite)
  }

  /** How many words an instruction pops before it does anything else. */
  function Pops(op: Op, decodeMask: bool): int {
    if op.Binary? || op.Div? || op.Mod? || op.EqBranch? || op.NeqBranch? || op.Store? || op.StoreB? || op.StoreH? then 2
    else if op.Im? then (if decodeMask then 1 else 0)
    else if op.Unary? || op.PopPc? || op.PopSp? || op.PopPcRel? || op.Call? || op.CallPcRel? || op.PushSpAdd?
            || op.AddSp? || op.StoreSp? || op.Load? || op.LoadB? || op.LoadH? then 1
    else 0
  }

  /** Instructions that pop nothing. */
  function OnNone(c: State, op: Op): (o: Outcome)
    requires Valid(c) && c.pc < RAM_SIZE
    ensures WellFormed(o)
  {
    match op
    case Breakpoint => Trap(BreakpointHit, NoWrite)
    case Nop => Sequential(c, c.sp, NoWrite)
    case Syscall => Sequential(c, c.sp, NoWrite)
    case Config => Emulate(c)
    case PushPc => PushWord(c, c.sp, Wrap(c.pc))
    case PushSp => PushWord(c, c.sp, c.sp)
    case Im(bits) => PushValue(c, c.sp, Word(Wrap(if bits < 64 then bits else bits - 128)), c.pc + 1, true)
    case LoadSp(k) => (match ReadLong(c, Wrap(c.sp + 4 * k))
                       case Bad(f) => Trap(f, NoWrite)
                       case Got(v) => PushValue(c, c.sp, v, c.pc + 1, false))
    case _ => Trap(IllegalInstruction, NoWrite)
  }

  /** The instruction executed by the processor itself. */
  function Native(c: State, op: Op): (o: Outcome)
    requires Valid(c) && c.pc < RAM_SIZE
    ensures WellFormed(o)
  {
    var pops := Pops(op, c.decodeMask);
    if pops == 0 then OnNone(c, op)
    else match Peek(c, 0)
      case Bad(f) => Trap(f, NoWrite)
      case Got(a) =>
        if pops == 1 then OnTop(c, op, a)
        else match Peek(c, 1)
          case Bad(f) => Trap(f, NoWrite)
          case Got(b) => OnTwo(c, op, a, b)
  }

  /** The effect of the instruction at pc on a processor whose `feeble` opcodes are emulated. */
  function Effect(feeble: set<Op>, c: State): (o: Outcome)
    requires Valid(c)
    ensures WellFormed(o)
  {
    match Fetch(c)
    case Bad(f) => Trap(f, NoWrite)
    case Got(op) =>
      if op in feeble && Emulatable(op) then Emulate(c)
      else if op in feeble && op == Syscall then Trap(IllegalInstruction, NoWrite)
      else Native(c, op)
  }
}
