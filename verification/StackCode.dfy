/** Symbolic execution of straight-line emulation code on the top words of the stack. */
module StackCode {
  import opened Words
  import opened Isa
  import opened Crt0

  /** A word in terms of the unknown words at entry, constants and link-time addresses. */
  datatype Expr = V(k: nat) | K(w: word) | Ref(s: Symbol) | U(g: Alu1, e: Expr) | B(f: Alu2, x: Expr, y: Expr)

  /** The known part of the stack, top first. */
  datatype Stack = Nil | Cons(top: Expr, below: Stack)

  /** Where the linker put the code and data the vectors refer to. */
  datatype Layout = Layout(mask: word, shiftEnd: word, slowMult: word, storeBTail: word, storeHTail: word,
                           moreMult: word)

  /** The words at entry, the link map, and which instructions are emulated. */
  datatype Env = Env(vars: seq<word>, lay: Layout, feeble: set<Op>)

  function Address(s: Symbol, lay: Layout): word {
    match s
    case MASK => lay.mask
    case ASHIFTLEFT_END => lay.shiftEnd
    case SLOWMULT => lay.slowMult
    case STOREB_TAIL => lay.storeBTail
    case STOREH_TAIL => lay.storeHTail
    case MORE_MULT => lay.moreMult
  }

  predicate IsShift(f: Alu2) {
    f == LShiftRight || f == AShiftLeft || f == AShiftRight
  }

  /** The word a two-operand instruction leaves when the opcodes in `feeble` are emulated: the
      emulated ashiftleft, and whatever is built on it, uses five bits of the amount. */
  function Computed(feeble: set<Op>, f: Alu2, a: word, b: word): word {
    if IsShift(f) then Shifted(feeble, f, a, b) else Alu2Value(f, a, b)
  }

  function LeftAmount(feeble: set<Op>, a: word): nat {
    if Binary(AShiftLeft) in feeble then a % 32 else a % 64
  }

  function RightAmount(feeble: set<Op>, a: word): nat {
    if Binary(LShiftRight) in feeble then LeftAmount(feeble, a) else a % 64
  }

  function Shifted(feeble: set<Op>, f: Alu2, a: word, b: word): word {
    if f == AShiftLeft then ShiftLeft(b, LeftAmount(feeble, a))
    else if f == LShiftRight then ShiftRight(b, RightAmount(feeble, a))
    else if Binary(AShiftRight) in feeble then OrWord(SignFillOf(a % 32, b), ShiftRight(b, RightAmount(feeble, a)))
    else ShiftRightSigned(b, a % 32)
  }

  /** The copies of the sign that a right shift by k inserts. */
  function SignFillOf(k: nat, b: word): word {
    if Top(b) == 1 then Not(ShiftRight(M - 1, k)) else 0
  }

  function Eval(e: Expr, env: Env): word
    decreases e
  {
    match e
    case V(k) => if k < |env.vars| then env.vars[k] else 0
    case K(w) => w
    case Ref(s) => Address(s, env.lay)
    case U(g, x) => Alu1Value(g, Eval(x, env))
    case B(f, x, y) => Computed(env.feeble, f, Eval(x, env), Eval(y, env))
  }

  function Height(s: Stack): nat {
    if s.Nil? then 0 else 1 + Height(s.below)
  }

  function Nth(s: Stack, k: nat): Expr
    decreases k
  {
    if s.Nil? then K(0) else if k == 0 then s.top else Nth(s.below, k - 1)
  }

  function Put(s: Stack, k: nat, e: Expr): Stack
    decreases k
  {
    if s.Nil? then Nil else if k == 0 then Cons(e, s.below) else Cons(s.top, Put(s.below, k - 1, e))
  }

  /** The stack where straight-line execution stops: at the end, or at an instruction
      that moves control, sp or memory.  Underflow leaves the stack as it is (see Safe). */
  function Exec(code: Code, s: Stack): Stack
    decreases code
  {
    match code
    case End => s
    case Other(op, next) => s
    case Noop(next) => Exec(next, s)
    case Imm(v, next) => Exec(next, Cons(K(v), s))
    case ImmOf(r, next) => Exec(next, Cons(Ref(r), s))
    case Loadsp(k, next) => Exec(next, Cons(Nth(s, k), s))
    case Storesp(k, next) => if s.Cons? && k > 0 then Exec(next, Put(s.below, k - 1, s.top)) else s
    case Addsp(k, next) => if s.Cons? then Exec(next, Cons(B(Add, s.top, Nth(s, k)), s.below)) else s
    case Un(g, next) => if s.Cons? then Exec(next, Cons(U(g, s.top), s.below)) else s
    case Bin(f, next) =>
      if s.Cons? && s.below.Cons? then Exec(next, Cons(B(f, s.top, s.below.top), s.below.below)) else s
  }

  /** The code from where Exec stops. */
  function Rest(code: Code): Code
    decreases code
  {
    match code
    case End => End
    case Other(op, next) => code
    case Noop(next) => Rest(next)
    case Imm(v, next) => Rest(next)
    case ImmOf(r, next) => Rest(next)
    case Loadsp(k, next) => Rest(next)
    case Storesp(k, next) => Rest(next)
    case Addsp(k, next) => Rest(next)
    case Un(g, next) => Rest(next)
    case Bin(f, next) => Rest(next)
  }

  /** How deep emulation nests: an instruction's routine uses only instructions of lower rank. */
  function Rank(op: Op): nat {
    if op == Binary(ULessThanOrEqual) || op == Binary(AShiftRight) || op == LoadB || op == LoadH then 2
    else if op == Binary(LShiftRight) || op == Binary(LessThanOrEqual) || op == Binary(ULessThan)
            || op == Binary(Mult) || op == StoreB || op == StoreH then 1
    else 0
  }

  /** Words below the sp at entry that emulating an instruction may overwrite, however it nests. */
  function Depth(op: Op): nat {
    match op
    case Binary(f) =>
      (match f
       case ULessThanOrEqual => 13
       case Mult => 11
       case AShiftRight => 11
       case ULessThan => 10
       case LessThanOrEqual => 8
       case LShiftRight => 7
       case _ => 4)
    case LoadH => 10
    case LoadB => 10
    case StoreH => 9
    case StoreB => 8
    case EqBranch => 5
    case NeqBranch => 5
    case PopPcRel => 1
    case _ => 3
  }

  predicate StartsWithIm(code: Code) {
    code.Imm? || code.ImmOf?
  }

  predicate Nests(op: Op, room: int, rank: nat) {
    HasRoutine(op) ==> Rank(op) < rank && Depth(op) <= room
  }

  /** Code that stays within h known words and `room` free ones below, never puts two
      `im` next to each other, and uses only instructions of rank below `rank`. */
  predicate Safe(code: Code, h: int, room: int, rank: nat)
    decreases code
  {
    match code
    case End => true
    case Other(op, next) => true
    case Noop(next) => Safe(next, h, room, rank)
    case Imm(v, next) => room >= 1 && !StartsWithIm(next) && Safe(next, h + 1, room - 1, rank)
    case ImmOf(r, next) => room >= 1 && !StartsWithIm(next) && Safe(next, h + 1, room - 1, rank)
    case Loadsp(k, next) => k < h && room >= 1 && Safe(next, h + 1, room - 1, rank)
    case Storesp(k, next) => 1 <= k < h && Safe(next, h - 1, room + 1, rank)
    case Addsp(k, next) => k < h && Safe(next, h, room, rank)
    case Un(g, next) => h >= 1 && Nests(Unary(g), room, rank) && Safe(next, h, room, rank)
    case Bin(f, next) => h >= 2 && Nests(Binary(f), room, rank) && Safe(next, h - 1, room + 1, rank)
  }

  function Two(): Stack {
    Cons(V(0), Cons(V(1), Nil))
  }

  function Three(): Stack {
    Cons(V(0), Cons(V(1), Cons(V(2), Nil)))
  }
}
