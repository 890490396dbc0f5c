/** The emulation code of crt0.S as data: the instruction sequence at each vector and
    the text it jumps to.  Stack offsets are in words; `Imm` is one `im` directive, of
    however many IM bytes. */
module Crt0 {
  import opened Words
  import opened Isa

  /** Link-time values the code pushes. */
  datatype Symbol = MASK | ASHIFTLEFT_END | SLOWMULT | STOREB_TAIL | STOREH_TAIL | MORE_MULT

  datatype Code =
    | End
    | Imm(v: word, next: Code)
    | ImmOf(s: Symbol, next: Code)
    | Loadsp(k: nat, next: Code)
    | Storesp(k: nat, next: Code)
    | Addsp(k: nat, next: Code)
    | Un(g: Alu1, next: Code)
    | Bin(f: Alu2, next: Code)
    | Noop(next: Code)
    | Other(op: Op, next: Code)

  /** The fast_neg macro: not; im 1; add. */
  function FastNeg(next: Code): Code {
    Un(Not_, Imm(1, Bin(Add, next)))
  }

  /** storesp 12; storesp 4; poppc: leave the result in place of two operands. */
  function Return2(): Code {
    Storesp(3, Storesp(1, Other(PopPc, End)))
  }

  /** flip; im 1; and: the sign digit is the result. */
  function ReturnSign2(): Code {
    Un(Flip_, Imm(1, Bin(And_, Return2())))
  }

  // opcode 34

  function LoadHCode(): Code {
    Loadsp(1, Imm(0xffff_fffd, Bin(And_, Other(Load, LoadHShift()))))
  }

  function LoadHShift(): Code {
    Loadsp(2, Imm(3, Bin(And_, FastNeg(Imm(2, Bin(Add, LoadHSelect()))))))
  }

  function LoadHSelect(): Code {
    Imm(3, Bin(AShiftLeft, Bin(LShiftRight, 
    Imm(0xffff, Bin(And_, Storesp(2, Other(PopPc, End)))))))
  }

  // opcode 35

  function StoreHCode(): Code {
    Loadsp(1, Imm(0xffff_fffd, Bin(And_, Other(Load, StoreHMask()))))
  }

  function StoreHMask(): Code {
    Imm(0xffff, Loadsp(3, Imm(3, Bin(And_, FastNeg(Imm(2, Bin(Add, StoreHClear())))))))
  }

  function StoreHClear(): Code {
    Imm(3, Bin(AShiftLeft, Bin(AShiftLeft, Un(Not_, Bin(And_, 
    Loadsp(3, Imm(0xffff, Noop(ImmOf(STOREH_TAIL, Other(PopPc, End))))))))))
  }

  // opcode 36

  function LessThanCode(): Code {
    Loadsp(2, FastNeg(Loadsp(2, Bin(Add, LessThanMask()))))
  }

  function LessThanMask(): Code {
    Loadsp(3, Loadsp(3, Un(Not_, Bin(And_, Un(Not_, Bin(And_, 
    LessThanSigns()))))))
  }

  function LessThanSigns(): Code {
    Loadsp(3, Un(Not_, Loadsp(3, Bin(And_, Bin(Or_, ReturnSign2())))))
  }

  // opcode 37

  function LessThanOrEqualCode(): Code {
    Loadsp(2, Loadsp(2, Bin(LessThan, OrEqual())))
  }

  function OrEqual(): Code {
    Loadsp(3, Loadsp(3, Bin(Eq, Bin(Or_, Return2()))))
  }

  // opcode 38

  function ULessThanCode(): Code {
    Loadsp(1, Loadsp(3, Loadsp(1, Un(Not_, Loadsp(1, Bin(And_, 
    Imm(1, Bin(And_, Un(Neg_, ULessThanHalves())))))))))
  }

  function ULessThanHalves(): Code {
    Loadsp(2, Un(Flip_, Addsp(0, Un(Flip_, 
    Loadsp(2, Un(Flip_, Addsp(0, Un(Flip_, ULessThanTest()))))))))
  }

  function ULessThanTest(): Code {
    Bin(Sub, Bin(Add, Un(Flip_, Imm(1, Bin(And_, 
    Storesp(1, Storesp(1, Return2())))))))
  }

  // opcode 39

  function ULessThanOrEqualCode(): Code {
    Loadsp(2, Loadsp(2, Bin(ULessThan, OrEqual())))
  }

  // opcode 41

  function MultCode(): Code {
    ImmOf(SLOWMULT, Other(PopPc, End))
  }

  // opcode 42

  function LShiftRightCode(): Code {
    Loadsp(2, Un(Flip_, Loadsp(2, Bin(AShiftLeft, Un(Flip_, Return2())))))
  }

  // opcode 43

  function AShiftLeftCode(): Code {
    Loadsp(2, Loadsp(2, Imm(31, Bin(And_, FastNeg(ImmOf(ASHIFTLEFT_END, Bin(Add, 
    Other(PopPc, End))))))))
  }

  // opcode 44

  function AShiftRightCode(): Code {
    Loadsp(2, Loadsp(2, Bin(LShiftRight, Imm(0xffff_ffff, Loadsp(3, Imm(31, Bin(And_, 
    Bin(LShiftRight, Un(Not_, SignFill())))))))))
  }

  function SignFill(): Code {
    Loadsp(4, Un(Not_, Un(Flip_, Imm(1, Bin(And_, Imm(0xffff_ffff, Bin(Add, 
    Bin(And_, Bin(Or_, Return2())))))))))
  }

  // opcode 45

  function CallCode(): Code {
    Loadsp(1, Loadsp(1, Storesp(3, Storesp(1, FlushReturn()))))
  }

  /** pushsp; popsp; poppc. */
  function FlushReturn(): Code {
    Other(PushSp, Other(PopSp, Other(PopPc, End)))
  }

  // opcodes 46 and 47

  function EqCode(): Code {
    Loadsp(2, FastNeg(Loadsp(2, Bin(Add, EqTest()))))
  }

  function EqTest(): Code {
    Un(Not_, Loadsp(0, Imm(1, Bin(Add, Un(Not_, Bin(And_, 
    Un(Flip_, Imm(1, Bin(And_, Return2())))))))))
  }

  function NeqCode(): Code {
    Loadsp(2, FastNeg(Loadsp(2, Bin(Add, NeqTest()))))
  }

  function NeqTest(): Code {
    Un(Not_, Loadsp(0, Imm(1, Bin(Add, Un(Not_, Bin(And_, 
    Un(Flip_, Un(Not_, Imm(1, Bin(And_, Return2()))))))))))
  }

  // opcodes 48, 49 and 50

  function NegCode(): Code {
    Loadsp(1, FastNeg(Storesp(2, Other(PopPc, End))))
  }

  function SubCode(): Code {
    Loadsp(2, Loadsp(2, FastNeg(Bin(Add, Return2()))))
  }

  function XorCode(): Code {
    Loadsp(2, Un(Not_, Loadsp(2, Bin(And_, 
    Loadsp(3, Loadsp(3, Un(Not_, Bin(And_, Bin(Or_, Return2())))))))))
  }

  // opcode 51

  function LoadBCode(): Code {
    Loadsp(1, Imm(0xffff_fffc, Bin(And_, Other(Load, LoadBShift()))))
  }

  function LoadBShift(): Code {
    Loadsp(2, Imm(3, Bin(And_, FastNeg(Imm(3, Bin(Add, LoadBSelect()))))))
  }

  function LoadBSelect(): Code {
    Addsp(0, Addsp(0, Addsp(0, 
    Bin(LShiftRight, Imm(255, Bin(And_, Storesp(2, Other(PopPc, End))))))))
  }

  // opcode 52

  function StoreBCode(): Code {
    Loadsp(1, Imm(0xffff_fffc, Bin(And_, Other(Load, StoreBMask()))))
  }

  function StoreBMask(): Code {
    ImmOf(MASK, Loadsp(3, Imm(3, Bin(And_, Addsp(0, Addsp(0, Bin(Add, Other(Load,
    StoreBClear()))))))))
  }

  function StoreBClear(): Code {
    Bin(And_, ImmOf(STOREB_TAIL, Other(PopPc, End)))
  }

  // opcodes 55 and 56

  function EqBranchCode(): Code {
    Loadsp(2, Un(Not_, Loadsp(0, Imm(1, Bin(Add, Un(Not_, Bin(And_, 
    Un(Flip_, BranchMask()))))))))
  }

  function NeqBranchCode(): Code {
    Loadsp(2, Un(Not_, Loadsp(0, Imm(1, Bin(Add, Un(Not_, Bin(And_, 
    Un(Flip_, Un(Not_, BranchMask())))))))))
  }

  function BranchMask(): Code {
    Imm(1, Bin(And_, Imm(0xffff_ffff, Bin(Add, Loadsp(0, Storesp(4, 
    Loadsp(1, Bin(And_, Loadsp(3, Un(Not_, BranchTarget()))))))))))
  }

  function BranchTarget(): Code {
    Loadsp(2, Loadsp(4, Bin(Add, Imm(0xffff_ffff, Bin(Add, Bin(And_, 
    Bin(Or_, Storesp(1, Storesp(1, Storesp(1, Other(PopPc, End)))))))))))
  }

  // opcodes 57, 61 and 63

  function PopPcRelCode(): Code {
    Bin(Add, Imm(0xffff_ffff, Bin(Add, Other(PopPc, End))))
  }

  function PushSpAddCode(): Code {
    Other(PushSp, ScaleAndAdd())
  }

  function ScaleAndAdd(): Code {
    Imm(4, Bin(Add, Loadsp(2, Addsp(0, Addsp(0, Bin(Add, 
    Storesp(2, Other(PopPc, End))))))))
  }

  function CallPcRelCode(): Code {
    Loadsp(1, Loadsp(1, Bin(Add, Imm(0xffff_ffff, Bin(Add, Loadsp(1, 
    Storesp(3, Storesp(1, FlushReturn()))))))))
  }

  /** The code at the vector of an emulated opcode. */
  function Routine(op: Op): Code {
    match op
    case LoadH => LoadHCode()
    case StoreH => StoreHCode()
    case Binary(LessThan) => LessThanCode()
    case Binary(LessThanOrEqual) => LessThanOrEqualCode()
    case Binary(ULessThan) => ULessThanCode()
    case Binary(ULessThanOrEqual) => ULessThanOrEqualCode()
    case Binary(Mult) => MultCode()
    case Binary(LShiftRight) => LShiftRightCode()
    case Binary(AShiftLeft) => AShiftLeftCode()
    case Binary(AShiftRight) => AShiftRightCode()
    case Call => CallCode()
    case Binary(Eq) => EqCode()
    case Binary(Neq) => NeqCode()
    case Unary(Neg_) => NegCode()
    case Binary(Sub) => SubCode()
    case Binary(Xor_) => XorCode()
    case LoadB => LoadBCode()
    case StoreB => StoreBCode()
    case EqBranch => EqBranchCode()
    case NeqBranch => NeqBranchCode()
    case PopPcRel => PopPcRelCode()
    case PushSpAdd => PushSpAddCode()
    case CallPcRel => CallPcRelCode()
    case _ => End
  }

  /** Opcodes whose vector holds the code above. */
  predicate HasRoutine(op: Op) {
    Emulatable(op) && op != Div && op != Mod
  }

  // ---- Text outside the vectors ----

  /** n unrolled doublings in front of the shift epilogue: _ashiftleftBegin is ShiftTable(31). */
  function ShiftTable(n: nat): Code {
    if n == 0 then Return2() else Addsp(0, ShiftTable(n - 1))
  }

  function StoreHTail(): Code {
    Bin(And_, Loadsp(3, Imm(3, Bin(And_, FastNeg(Imm(2, Bin(Add, StoreHInsert())))))))
  }

  function StoreHInsert(): Code {
    Imm(3, Bin(AShiftLeft, Noop(Bin(AShiftLeft, Bin(Or_, StoreAligned())))))
  }

  /** loadsp 8; im ~3; and; store; then drop both operands and return. */
  function StoreAligned(): Code {
    Loadsp(2, Imm(0xffff_fffc, Bin(And_, Other(Store, Drop2()))))
  }

  function Drop2(): Code {
    Storesp(1, Storesp(1, Other(PopPc, End)))
  }

  function StoreBTail(): Code {
    Loadsp(3, Imm(255, Bin(And_, Loadsp(3, Imm(3, Bin(And_, 
    FastNeg(Imm(3, Bin(Add, StoreBInsert())))))))))
  }

  function StoreBInsert(): Code {
    Addsp(0, Addsp(0, Addsp(0, Bin(AShiftLeft, Bin(Or_, StoreAligned())))))
  }

  /** _slowmultImpl: copies of the operands, the accumulator 0, then the loop. */
  function SlowMult(): Code {
    Loadsp(2, Loadsp(2, Imm(0, MoreMult())))
  }

  /** .LmoreMult: one mult1bit round, the loop branch and the epilogue. */
  function MoreMult(): Code {
    Loadsp(2, Imm(1, Bin(And_, Imm(0xffff_ffff, Bin(Add, Un(Not_, 
    Loadsp(2, Bin(And_, Bin(Add, MultShift())))))))))
  }

  function MultShift(): Code {
    Loadsp(1, Addsp(0, Storesp(2, 
    Loadsp(2, Un(Flip_, Addsp(0, Un(Flip_, Storesp(3, 
    Loadsp(2, ImmOf(MORE_MULT, Other(NeqBranch, MultReturn())))))))))))
  }

  function MultReturn(): Code {
    Storesp(1, Storesp(1, Return2()))
  }
}
