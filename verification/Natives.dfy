/** What the instructions do that no emulation code is compared with: division, the exchanged and the
    16-bit forms, the instructions that push pc, and every way an instruction can fault. */
module Natives {
  import opened Words
  import opened Isa
  import opened Cpu
  import opened Runs
  import opened Images

  // ---- Division ----

  function Magnitude(x: int): nat {
    if x < 0 then -x else x
  }

  /** q and r are the quotient of x by y rounded towards zero and its remainder. */
  predicate Divides(x: int, y: int, q: int, r: int) {
    x == q * y + r && Magnitude(r) < Magnitude(y) && (r == 0 || (r > 0 <==> x > 0))
  }

  lemma DivisionUnique(x: int, y: int, q: int, r: int, q': int, r': int)
    requires Divides(x, y, q, r) && Divides(x, y, q', r')
    ensures q == q' && r == r'
  {
    var d := q - q';
    Difference(q, q', y);
    SizeOf(d, y);
    Multiple(Magnitude(y), Magnitude(d));
  }

  lemma Difference(q: int, q': int, y: int)
    ensures (q - q') * y == q * y - q' * y
  {
  }

  lemma Multiple(n: nat, k: nat)
    ensures k >= 1 ==> n * k >= n
    ensures k == 0 ==> n * k == 0
    ensures n >= 2 ==> n * k >= 2 * k
  {
    if k >= 1 {
      assert n * k == n * (k - 1) + n;
    }
    if n >= 2 {
      assert n * k == (n - 2) * k + 2 * k;
    }
  }

  lemma QuotientDivides(x: int, y: int)
    requires y != 0
    ensures Divides(x, y, Quotient(x, y), x - y * Quotient(x, y))
  {
    var m, n := Magnitude(x), Magnitude(y);
    var q: int, r: int := m / n, m % n;
    assert m == n * q + r;
    Signs(n, q);
  }

  lemma Signs(n: int, q: int)
    ensures (-n) * q == -(n * q) && n * (-q) == -(n * q) && (-n) * (-q) == n * q
  {
  }

  /** The words DIV and MOD push are the signed quotient and remainder, a divided by b.  Only -2^31 divided
      by -1 wraps. */
  lemma DivisionLaw(a: word, b: word) returns (q: int, r: int)
    requires b != 0
    ensures Divides(Signed(a), Signed(b), q, r) && Divide(a, b) == Wrap(q) && Remainder(a, b) == Wrap(r)
    ensures Signed(Remainder(a, b)) == r
    ensures a == 0x8000_0000 && b == 0xffff_ffff ==> Divide(a, b) == 0x8000_0000 && r == 0
    ensures !(a == 0x8000_0000 && b == 0xffff_ffff) ==> Signed(Divide(a, b)) == q
  {
    var x, y := Signed(a), Signed(b);
    QuotientDivides(x, y);
    q, r := Quotient(x, y), x - y * Quotient(x, y);
    hide Quotient, Divides;
    QuotientSize(x, y, q, r);
  }

  lemma QuotientSize(x: int, y: int, q: int, r: int)
    requires Divides(x, y, q, r) && -0x8000_0000 <= x < 0x8000_0000 && -0x8000_0000 <= y < 0x8000_0000
    ensures -0x8000_0000 <= q <= 0x8000_0000 && (q == 0x8000_0000 <==> x == -0x8000_0000 && y == -1)
    ensures -0x8000_0000 < r < 0x8000_0000
  {
    var n, k := Magnitude(y), Magnitude(q);
    SizeOf(q, y);
    assert n * k <= 0x8000_0000;
    Multiple(n, k);
  }

  /** A quotient is no larger than what is divided. */
  lemma SizeOf(q: int, y: int)
    ensures Magnitude(y) * Magnitude(q) == Magnitude(q * y)
  {
    Signs(y, q);
    Signs(q, y);
  }

  lemma DivSteps(c: State, a: word, b: word, q: int, r: int)
    requires Valid(c) && c.sp + 4 < RAM_SIZE && a == c.mem[c.sp / 4] && b == c.mem[c.sp / 4 + 1] && b != 0
    requires Divides(Signed(a), Signed(b), q, r)
    ensures Fetch(c) == Got(Div) ==>
      Step({}, c) == Ran(State(c.pc + 1, c.sp + 4, false, c.mem[c.sp / 4 + 1 := Wrap(q)]))
    ensures Fetch(c) == Got(Mod) ==>
      Step({}, c) == Ran(State(c.pc + 1, c.sp + 4, false, c.mem[c.sp / 4 + 1 := Wrap(r)]))
  {
    hide EmulateCode, OpAt, OnNone, OnTop, Divide, Remainder, Wrap;
    var q', r' := DivisionLaw(a, b);
    DivisionUnique(Signed(a), Signed(b), q, r, q', r');
    if Fetch(c).Got? {
      InsideRam(c);
    }
  }

  // ---- Halves ----

  /** SWAP exchanges the halves of a word. */
  lemma SwapLaw(a: word)
    ensures Alu1Value(Swap, a) / 0x1_0000 == a % 0x1_0000 && Alu1Value(Swap, a) % 0x1_0000 == a / 0x1_0000
    ensures Alu1Value(Swap, Alu1Value(Swap, a)) == a
  {
    var h, l := a / 0x1_0000, a % 0x1_0000;
    assert a == 0x1_0000 * h + l && h + a * 0x1_0000 == M * h + (0x1_0000 * l + h);
    DivModUnique(h + a * 0x1_0000, M, h, 0x1_0000 * l + h);
    DivModUnique(0x1_0000 * l + h, 0x1_0000, l, h);
    var s := 0x1_0000 * l + h;
    assert l + s * 0x1_0000 == M * l + (0x1_0000 * h + l);
    DivModUnique(l + s * 0x1_0000, M, l, 0x1_0000 * h + l);
  }

  /** MULT16X16 multiplies the low halves, and nothing is lost. */
  lemma Mult16Law(a: word, b: word)
    ensures Alu2Value(Mult16X16, a, b) == (a % 0x1_0000) * (b % 0x1_0000)
  {
    var x, y := a % 0x1_0000, b % 0x1_0000;
    SmallProduct(x, y);
  }

  lemma NotNegative(x: nat, y: nat)
    ensures x * y >= 0
  {
  }

  lemma SmallProduct(x: nat, y: nat)
    requires x < 0x1_0000 && y < 0x1_0000
    ensures 0 <= x * y < M
  {
    assert (0xffff - x) * y == 0xffff * y - x * y;
    NotNegative(0xffff - x, y);
    NotNegative(x, y);
  }

  // ---- Instructions that push ----

  lemma StepPushPc(feeble: set<Op>, c: State)
    requires Valid(c) && Fetch(c) == Got(PushPc) && 4 <= c.sp <= RAM_SIZE
    ensures Step(feeble, c) == Ran(State(c.pc + 1, c.sp - 4, false, c.mem[c.sp / 4 - 1 := c.pc]))
  {
    InsideRam(c);
    hide Fetch;
  }

  // ---- Faults ----

  /** The instructions that always fault, SYSCALL among them where it is marked feeble. */
  lemma AlwaysFault(feeble: set<Op>, c: State)
    requires Valid(c)
    ensures Fetch(c) == Got(Breakpoint) ==> Effect(feeble, c) == Trap(BreakpointHit, NoWrite)
    ensures Fetch(c) == Got(Illegal) ==> Effect(feeble, c) == Trap(IllegalInstruction, NoWrite)
    ensures Fetch(c) == Got(Syscall) && Syscall in feeble ==> Effect(feeble, c) == Trap(IllegalInstruction, NoWrite)
    ensures c.pc == 0x20_0000 ==> Effect(feeble, c) == Trap(OutOfBounds, NoWrite)
  {
    hide OpAt;
  }

  /** Pops fault at and above the end of RAM, and nothing is written. */
  lemma PopsFault(c: State, op: Op)
    requires Valid(c) && Fetch(c) == Got(op)
    ensures (Pops(op, c.decodeMask) == 1 && c.sp >= 0x20_0000) || (Pops(op, c.decodeMask) == 2 && c.sp + 4 >= 0x20_0000) ==>
      Effect({}, c) == Trap(OutOfBounds, NoWrite)
  {
    hide OpAt, OnNone, OnTop, OnTwo, Pops, EmulateCode;
    InsideRam(c);
  }

  /** What the other instructions refuse: division by zero, an odd sp, jumps out of memory. */
  lemma OperandFaults(c: State, a: word)
    requires Valid(c) && c.sp + 4 < RAM_SIZE && c.mem[c.sp / 4] == a
    ensures Fetch(c) == Got(Div) && c.mem[c.sp / 4 + 1] == 0 ==> Effect({}, c) == Trap(DivideByZero, NoWrite)
    ensures Fetch(c) == Got(Mod) && c.mem[c.sp / 4 + 1] == 0 ==> Effect({}, c) == Trap(DivideByZero, NoWrite)
    ensures Fetch(c) == Got(PopSp) && a % 4 != 0 ==> Effect({}, c) == Trap(IllegalInstruction, NoWrite)
    ensures Fetch(c) == Got(PopPc) && a > 0x20_0000 ==> Effect({}, c) == Trap(MemoryAccess, NoWrite)
    ensures Fetch(c) == Got(Call) && a > 0x20_0000 ==>
      Effect({}, c) == Trap(MemoryAccess, Ram(c.sp / 4, Word(c.pc + 1)))
  {
    hide OpAt, OnNone, EmulateCode, Divide, Remainder;
    if Fetch(c).Got? {
      InsideRam(c);
    }
  }

  /** How LOAD and STORE see an address: device registers from 0x08000000 to 0x080fffff, RAM below
      0x200000, and faults elsewhere and for addresses that are not multiples of four. */
  lemma AddressClasses(c: State, a: word, v: Value)
    requires Valid(c)
    ensures a % 4 == 0 && 0x0800_0000 <= a < 0x0810_0000 ==>
      ReadLong(c, a) == Got(DevicePlus(a, 0)) && WriteLong(a, v) == Got(Io(a, v))
    ensures a % 4 == 0 && a < 0x20_0000 ==> ReadLong(c, a) == Got(Word(c.mem[a / 4])) && WriteLong(a, v) == Got(Ram(a / 4, v))
    ensures a == 0x20_0000 ==> ReadLong(c, a) == Bad(OutOfBounds) && WriteLong(a, v) == Bad(OutOfBounds)
    ensures a % 4 != 0 || (0x20_0000 < a < 0x0800_0000) || a >= 0x0810_0000 ==>
      ReadLong(c, a) == Bad(MemoryAccess) && WriteLong(a, v) == Bad(MemoryAccess)
  {
  }

  // ---- Opcodes ----

  /** The opcode bytes of the instructions the processor always executes itself. */
  lemma BaseOpcodes()
    ensures Decode(0) == Breakpoint && Decode(2) == PushSp && Decode(4) == PopPc && Decode(5) == Binary(Add)
    ensures Decode(6) == Binary(And_) && Decode(7) == Binary(Or_) && Decode(8) == Load && Decode(9) == Unary(Not_)
    ensures Decode(10) == Unary(Flip_) && Decode(11) == Nop && Decode(12) == Store && Decode(13) == PopSp
    ensures Decode(1) == Decode(3) == Decode(14) == Decode(15) == Illegal
  {
  }

  lemma InVectors(b: int)
    requires 32 <= b < 64
    ensures Decode(b) == DecodeEmulatable(b)
  {
    hide DecodeEmulatable;
  }

  /** The opcode bytes of those that have a vector. */
  lemma ComparisonOpcodes()
    ensures Decode(34) == LoadH && Decode(35) == StoreH && Decode(36) == Binary(LessThan) && Decode(37) == Binary(LessThanOrEqual)
    ensures Decode(38) == Binary(ULessThan) && Decode(39) == Binary(ULessThanOrEqual) && Decode(40) == Unary(Swap)
    ensures Decode(32) == Decode(33) == Illegal
  {
    InVectors(32); InVectors(33); InVectors(34); InVectors(35); InVectors(36); InVectors(37); InVectors(38); InVectors(39);
    InVectors(40);
    hide Decode;
  }

  lemma ArithmeticOpcodes()
    ensures Decode(41) == Binary(Mult) && Decode(42) == Binary(LShiftRight) && Decode(43) == Binary(AShiftLeft)
    ensures Decode(44) == Binary(AShiftRight) && Decode(45) == Call && Decode(46) == Binary(Eq) && Decode(47) == Binary(Neq)
    ensures Decode(48) == Unary(Neg_) && Decode(49) == Binary(Sub) && Decode(50) == Binary(Xor_)
  {
    InVectors(41); InVectors(42); InVectors(43); InVectors(44); InVectors(45); InVectors(46); InVectors(47); InVectors(48);
    InVectors(49); InVectors(50);
    hide Decode;
  }

  lemma MemoryOpcodes()
    ensures Decode(51) == LoadB && Decode(52) == StoreB && Decode(53) == Div && Decode(54) == Mod && Decode(55) == EqBranch
    ensures Decode(56) == NeqBranch && Decode(57) == PopPcRel && Decode(58) == Config
  {
    InVectors(51); InVectors(52); InVectors(53); InVectors(54); InVectors(55); InVectors(56); InVectors(57); InVectors(58);
    hide Decode;
  }

  lemma OtherOpcodes()
    ensures Decode(59) == PushPc && Decode(60) == Syscall && Decode(61) == PushSpAdd && Decode(62) == Binary(Mult16X16)
    ensures Decode(63) == CallPcRel
  {
    InVectors(59); InVectors(60); InVectors(61); InVectors(62); InVectors(63);
    hide Decode;
  }

  /** The opcode bytes that carry an operand. */
  lemma OperandOpcodes(k: nat, g: nat)
    requires k < 16 && g < 128
    ensures Decode(16 + k) == AddSp(k) && Decode(80 + k) == StoreSp(k) && Decode(64 + k) == StoreSp(16 + k)
    ensures Decode(112 + k) == LoadSp(k) && Decode(96 + k) == LoadSp(16 + k) && Decode(128 + g) == Im(g)
  {
    hide DecodeEmulatable;
  }
}
