/** The ZPU opcodes, their decoding, and the value each arithmetic instruction computes. */
module Isa {
  import opened Words

  datatype Alu2 =
    | Add | And_ | Or_ | Xor_ | Sub | Mult | Mult16X16
    | LessThan | LessThanOrEqual | ULessThan | ULessThanOrEqual | Eq | Neq
    | LShiftRight | AShiftLeft | AShiftRight

  datatype Alu1 = Not_ | Flip_ | Neg_ | Swap

  datatype Op =
    | Breakpoint | Nop | PushPc | PushSp | PopSp | PopPc | Load | Store
    | Im(bits: nat) | AddSp(k: nat) | LoadSp(k: nat) | StoreSp(k: nat)
    | Unary(g: Alu1) | Binary(f: Alu2)
    | LoadB | LoadH | StoreB | StoreH | Div | Mod
    | EqBranch | NeqBranch | PopPcRel | PushSpAdd | Call | CallPcRel
    | Config | Syscall | Illegal

  function Decode(b: int): Op {
    if b >= 128 then Im(b - 128)
    else if b >= 96 then LoadSp(if b < 112 then b - 80 else b - 112)
    else if b >= 64 then StoreSp(if b < 80 then b - 48 else b - 80)
    else if b >= 32 then DecodeEmulatable(b)
    else if b >= 16 then AddSp(b - 16)
    else match b
      case 0 => Breakpoint
      case 2 => PushSp
      case 4 => PopPc
      case 5 => Binary(Add)
      case 6 => Binary(And_)
      case 7 => Binary(Or_)
      case 8 => Load
      case 9 => Unary(Not_)
      case 10 => Unary(Flip_)
      case 11 => Nop
      case 12 => Store
      case 13 => PopSp
      case _ => Illegal
  }

  function DecodeEmulatable(b: int): Op {
    match b
    case 34 => LoadH
    case 35 => StoreH
    case 36 => Binary(LessThan)
    case 37 => Binary(LessThanOrEqual)
    case 38 => Binary(ULessThan)
    case 39 => Binary(ULessThanOrEqual)
    case 40 => Unary(Swap)
    case 41 => Binary(Mult)
    case 42 => Binary(LShiftRight)
    case 43 => Binary(AShiftLeft)
    case 44 => Binary(AShiftRight)
    case 45 => Call
    case 46 => Binary(Eq)
    case 47 => Binary(Neq)
    case 48 => Unary(Neg_)
    case 49 => Binary(Sub)
    case 50 => Binary(Xor_)
    case 51 => LoadB
    case 52 => StoreB
    case 53 => Div
    case 54 => Mod
    case 55 => EqBranch
    case 56 => NeqBranch
    case 57 => PopPcRel
    case 58 => Config
    case 59 => PushPc
    case 60 => Syscall
    case 61 => PushSpAdd
    case 62 => Binary(Mult16X16)
    case 63 => CallPcRel
    case _ => Illegal
  }

  /** The opcode byte of the instructions that consult their `feeble` flag and call `emulate`. */
  function EmulateCode(op: Op): (b: int)
    ensures b == 0 || (34 <= b <= 63 && Decode(b) == op)
  {
    match op
    case LoadH => 34
    case StoreH => 35
    case Binary(LessThan) => 36
    case Binary(LessThanOrEqual) => 37
    case Binary(ULessThan) => 38
    case Binary(ULessThanOrEqual) => 39
    case Binary(Mult) => 41
    case Binary(LShiftRight) => 42
    case Binary(AShiftLeft) => 43
    case Binary(AShiftRight) => 44
    case Call => 45
    case Binary(Eq) => 46
    case Binary(Neq) => 47
    case Unary(Neg_) => 48
    case Binary(Sub) => 49
    case Binary(Xor_) => 50
    case LoadB => 51
    case StoreB => 52
    case Div => 53
    case Mod => 54
    case EqBranch => 55
    case NeqBranch => 56
    case PopPcRel => 57
    case PushSpAdd => 61
    case CallPcRel => 63
    case _ => 0
  }

  predicate Emulatable(op: Op) {
    EmulateCode(op) != 0
  }

  function Flag(b: bool): word {
    if b then 1 else 0
  }

  /** Java's `x << k` on a long holding a word, truncated to a word. */
  function ShiftLeft(x: word, k: nat): word {
    Wrap(x * Pow2(k))
  }

  function ShiftRight(x: word, k: nat): word {
    Pow2Shrinks(x, k);
    x / Pow2(k)
  }

  /** Java's `>>` on an int: division of the signed value rounding down. */
  function ShiftRightSigned(x: word, k: nat): word {
    Wrap(Signed(x) / Pow2(k))
  }

  lemma Pow2Shrinks(x: nat, k: nat)
    ensures 0 <= x / Pow2(k) <= x
  {
    DivShrinks(x, Pow2(k));
  }

  lemma DivShrinks(x: nat, p: nat)
    requires p > 0
    ensures 0 <= x / p <= x
  {
    var q, r := x / p, x % p;
    assert x == p * q + r;
    MulSign(p, q);
    MulSign(p - 1, q);
    assert p * q == q + (p - 1) * q;
  }

  lemma MulSign(p: int, q: int)
    requires p >= 0
    ensures q >= 0 ==> p * q >= 0
    ensures q < 0 && p > 0 ==> p * q <= -p
  {
    if p > 0 {
      MulBound(p, q);
    }
  }

  function Sum(a: word, b: word): word {
    Wrap(a + b)
  }

  function Product(a: word, b: word): word {
    Wrap(a * b)
  }

  function AndWord(a: word, b: word): word {
    And(a, b)
  }

  function OrWord(a: word, b: word): word {
    OrBound(a, b);
    Or(a, b)
  }

  function XorWord(a: word, b: word): word {
    XorBound(a, b);
    Xor(a, b)
  }

  function FlipWord(a: word): word {
    FlipBound(a);
    Flip(a)
  }

  /** The word pushed by a two-operand instruction; a is the top of stack, b the word below. */
  function Alu2Value(f: Alu2, a: word, b: word): word {
    match f
    case Add => Sum(a, b)
    case And_ => AndWord(a, b)
    case Or_ => OrWord(a, b)
    case Xor_ => XorWord(a, b)
    case Sub => Wrap(b - a)
    case Mult => Product(a, b)
    case Mult16X16 => Product(a % 0x1_0000, b % 0x1_0000)
    case LessThan => Flag(Signed(a) < Signed(b))
    case LessThanOrEqual => Flag(Signed(a) <= Signed(b))
    case ULessThan => Flag(a < b)
    case ULessThanOrEqual => Flag(a <= b)
    case Eq => Flag(a == b)
    case Neq => Flag(a != b)
    case LShiftRight => ShiftRight(b, a % 64)
    case AShiftLeft => ShiftLeft(b, a % 64)
    case AShiftRight => ShiftRightSigned(b, a % 32)
  }

  function Alu1Value(g: Alu1, a: word): word {
    match g
    case Not_ => Not(a)
    case Flip_ => FlipWord(a)
    case Neg_ => Wrap(0 - a)
    case Swap => Wrap(a / 0x1_0000 + a * 0x1_0000)
  }

  // ---- Bytes of a big-endian word ----

  /** Byte k of a word; byte 0 is the most significant. */
  function Byte(w: word, k: int): (b: int)
    requires 0 <= k < 4
    ensures 0 <= b < 256
  {
    if k == 0 then w / 0x100_0000
    else if k == 1 then w / 0x1_0000 % 256
    else if k == 2 then w / 0x100 % 256
    else w % 256
  }

  function SetByte(w: word, k: int, v: word): word
    requires 0 <= k < 4
  {
    var b := v % 256;
    if k == 0 then Join(b, Byte(w, 1), Byte(w, 2), Byte(w, 3))
    else if k == 1 then Join(Byte(w, 0), b, Byte(w, 2), Byte(w, 3))
    else if k == 2 then Join(Byte(w, 0), Byte(w, 1), b, Byte(w, 3))
    else Join(Byte(w, 0), Byte(w, 1), Byte(w, 2), b)
  }

  function Join(b0: int, b1: int, b2: int, b3: int): word
    requires 0 <= b0 < 256 && 0 <= b1 < 256 && 0 <= b2 < 256 && 0 <= b3 < 256
  {
    0x100_0000 * b0 + 0x1_0000 * b1 + 0x100 * b2 + b3
  }

  lemma BytesOfJoin(b0: int, b1: int, b2: int, b3: int)
    requires 0 <= b0 < 256 && 0 <= b1 < 256 && 0 <= b2 < 256 && 0 <= b3 < 256
    ensures Byte(Join(b0, b1, b2, b3), 0) == b0 && Byte(Join(b0, b1, b2, b3), 1) == b1
    ensures Byte(Join(b0, b1, b2, b3), 2) == b2 && Byte(Join(b0, b1, b2, b3), 3) == b3
  {
    var w := Join(b0, b1, b2, b3);
    DivModUnique(w, 0x100, 0x1_0000 * b0 + 0x100 * b1 + b2, b3);
    DivModUnique(w, 0x1_0000, 0x100 * b0 + b1, 0x100 * b2 + b3);
    DivModUnique(w, 0x100_0000, b0, 0x1_0000 * b1 + 0x100 * b2 + b3);
    DivModUnique(0x1_0000 * b0 + 0x100 * b1 + b2, 0x100, 0x100 * b0 + b1, b2);
    DivModUnique(0x100 * b0 + b1, 0x100, b0, b1);
  }

  lemma JoinBytes(w: word)
    ensures w == Join(Byte(w, 0), Byte(w, 1), Byte(w, 2), Byte(w, 3))
  {
    assert w / 0x100 == 0x100 * (w / 0x1_0000) + w / 0x100 % 256;
    assert w / 0x1_0000 == 0x100 * (w / 0x100_0000) + w / 0x1_0000 % 256;
  }
}
