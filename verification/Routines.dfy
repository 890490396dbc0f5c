/** What the straight-line code of crt0.S leaves on the stack.
    On entry to a vector V(0) is the return address, V(1) the top operand, V(2) the one below. */
module Routines {
  import opened Isa
  import opened Crt0
  import opened StackCode

  function Returning(e: Expr): Stack {
    Cons(V(0), Cons(e, Nil))
  }

  // ---- The word each routine computes, as the code builds it ----

  function Negated(e: Expr): Expr {
    B(Add, K(1), U(Not_, e))
  }

  /** lessthan, eq and neq start with a - b. */
  function Difference(): Expr {
    B(Add, V(1), Negated(V(2)))
  }

  function SignOf(e: Expr): Expr {
    B(And_, K(1), U(Flip_, e))
  }

  function MaskedDifference(): Expr {
    B(And_, U(Not_, B(And_, U(Not_, V(1)), V(2))), Difference())
  }

  function LessThanExpr(): Expr {
    SignOf(B(Or_, B(And_, V(1), U(Not_, V(2))), MaskedDifference()))
  }

  /** The sign digit of this is set exactly when e is 0. */
  function ZeroMask(e: Expr): Expr {
    B(And_, U(Not_, Negated(e)), U(Not_, e))
  }

  function EqExpr(): Expr {
    SignOf(ZeroMask(Difference()))
  }

  function NeqExpr(): Expr {
    B(And_, K(1), U(Not_, U(Flip_, ZeroMask(Difference()))))
  }

  function Half(e: Expr): Expr {
    U(Flip_, B(Add, U(Flip_, e), U(Flip_, e)))
  }

  function LowBorrow(): Expr {
    U(Neg_, B(And_, K(1), B(And_, V(2), U(Not_, V(1)))))
  }

  function ULessThanExpr(): Expr {
    SignOf(B(Add, B(Sub, Half(V(2)), Half(V(1))), LowBorrow()))
  }

  function SignFillMask(): Expr {
    U(Not_, B(LShiftRight, B(And_, K(31), V(1)), K(0xffff_ffff)))
  }

  function AShiftRightExpr(): Expr {
    B(Or_, B(And_, B(Add, K(0xffff_ffff), SignOf(U(Not_, V(2)))), SignFillMask()), B(LShiftRight, V(1), V(2)))
  }

  function ResultExpr(f: Alu2): Expr {
    match f
    case LessThan => LessThanExpr()
    case LessThanOrEqual => B(Or_, B(Eq, V(1), V(2)), B(LessThan, V(1), V(2)))
    case ULessThan => ULessThanExpr()
    case ULessThanOrEqual => B(Or_, B(Eq, V(1), V(2)), B(ULessThan, V(1), V(2)))
    case LShiftRight => U(Flip_, B(AShiftLeft, V(1), U(Flip_, V(2))))
    case AShiftRight => AShiftRightExpr()
    case Eq => EqExpr()
    case Neq => NeqExpr()
    case Sub => B(Add, Negated(V(1)), V(2))
    case Xor_ => B(Or_, B(And_, U(Not_, V(1)), V(2)), B(And_, V(1), U(Not_, V(2))))
    case _ => K(0)
  }

  /** The two-operand routines that are one straight line from vector to poppc. */
  predicate StraightLine(f: Alu2) {
    Emulatable(Binary(f)) && f != Mult && f != AShiftLeft
  }

  /** What a straight-line piece of code does to a stack. */
  predicate Yields(code: Code, s: Stack, rest: Code, t: Stack) {
    Exec(code, s) == t && Rest(code) == rest
  }

  lemma LessThanSteps()
    ensures Yields(LessThanCode(), Three(), Other(PopPc, End), Returning(LessThanExpr()))
  {
    assert Yields(LessThanSigns(), Cons(MaskedDifference(), Three()), Other(PopPc, End), Returning(LessThanExpr()));
    assert Yields(LessThanMask(), Cons(Difference(), Three()), Other(PopPc, End), Returning(LessThanExpr()));
  }

  lemma ULessThanSteps()
    ensures Yields(ULessThanCode(), Three(), Other(PopPc, End), Returning(ULessThanExpr()))
  {
    var s := Cons(V(2), Cons(V(1), Three()));
    assert Yields(ULessThanTest(), Cons(Half(V(2)), Cons(Half(V(1)), Cons(LowBorrow(), s))),
                 Other(PopPc, End), Returning(ULessThanExpr()));
    assert Yields(ULessThanHalves(), Cons(LowBorrow(), s), Other(PopPc, End), Returning(ULessThanExpr()));
  }

  lemma AShiftRightSteps()
    ensures Yields(AShiftRightCode(), Three(), Other(PopPc, End), Returning(AShiftRightExpr()))
  {
    assert Yields(SignFill(), Cons(SignFillMask(), Cons(B(LShiftRight, V(1), V(2)), Three())),
                 Other(PopPc, End), Returning(AShiftRightExpr()));
  }

  lemma ReturnSteps(e: Expr)
    ensures Yields(Return2(), Cons(e, Three()), Other(PopPc, End), Returning(e))
    ensures Yields(Imm(1, Bin(And_, Return2())), Cons(e, Three()), Other(PopPc, End), Returning(B(And_, K(1), e)))
  {
  }

  lemma EqSteps()
    ensures Yields(EqCode(), Three(), Other(PopPc, End), Returning(EqExpr()))
  {
    hide Return2;
    var d := Difference();
    ReturnSteps(U(Flip_, ZeroMask(d)));
    assert Yields(EqTest(), Cons(d, Three()), Other(PopPc, End), Returning(EqExpr()));
  }

  lemma NeqSteps()
    ensures Yields(NeqCode(), Three(), Other(PopPc, End), Returning(NeqExpr()))
  {
    hide Return2;
    var d := Difference();
    ReturnSteps(U(Not_, U(Flip_, ZeroMask(d))));
    assert Yields(NeqTest(), Cons(d, Three()), Other(PopPc, End), Returning(NeqExpr()));
  }

  lemma OrEqualTail(f: Alu2)
    ensures Yields(OrEqual(), Cons(B(f, V(1), V(2)), Three()), Other(PopPc, End),
                   Returning(B(Or_, B(Eq, V(1), V(2)), B(f, V(1), V(2)))))
  {
    hide Return2;
    ReturnSteps(B(Or_, B(Eq, V(1), V(2)), B(f, V(1), V(2))));
  }

  lemma OrEqualSteps()
    ensures Yields(LessThanOrEqualCode(), Three(), Other(PopPc, End), Returning(ResultExpr(LessThanOrEqual)))
    ensures Yields(ULessThanOrEqualCode(), Three(), Other(PopPc, End), Returning(ResultExpr(ULessThanOrEqual)))
  {
    hide OrEqual;
    OrEqualTail(LessThan);
    OrEqualTail(ULessThan);
  }

  lemma LShiftRightSteps()
    ensures Yields(LShiftRightCode(), Three(), Other(PopPc, End), Returning(ResultExpr(LShiftRight)))
  {
    hide Return2;
    ReturnSteps(ResultExpr(LShiftRight));
  }

  lemma SubSteps()
    ensures Yields(SubCode(), Three(), Other(PopPc, End), Returning(ResultExpr(Sub)))
  {
    hide Return2;
    ReturnSteps(ResultExpr(Sub));
  }

  lemma XorSteps()
    ensures Yields(XorCode(), Three(), Other(PopPc, End), Returning(ResultExpr(Xor_)))
  {
    hide Return2;
    ReturnSteps(ResultExpr(Xor_));
  }

  lemma RoutineSteps(f: Alu2)
    requires StraightLine(f)
    ensures Yields(Routine(Binary(f)), Three(), Other(PopPc, End), Returning(ResultExpr(f)))
  {
    hide Yields, Returning, LessThanExpr, ULessThanExpr, AShiftRightExpr, EqExpr, NeqExpr;
    hide LessThanCode, ULessThanCode, AShiftRightCode, EqCode, NeqCode, LessThanOrEqualCode, ULessThanOrEqualCode, LShiftRightCode, SubCode, XorCode;
    if f == LessThan {
      LessThanSteps();
    } else if f == ULessThan {
      ULessThanSteps();
    } else if f == AShiftRight {
      AShiftRightSteps();
    } else if f == Eq {
      EqSteps();
    } else if f == Neq {
      NeqSteps();
    } else if f == LessThanOrEqual || f == ULessThanOrEqual {
      OrEqualSteps();
    } else if f == Xor_ {
      XorSteps();
    } else if f == LShiftRight {
      LShiftRightSteps();
    } else {
      SubSteps();
    }
  }

  lemma NegSteps()
    ensures Yields(NegCode(), Two(), Other(PopPc, End), Returning(Negated(V(1))))
  {
  }

  // ---- Branches and calls ----

  /** (pc+offset and not mask) or (pc+1 and mask), with the return address for pc+1. */
  function TargetExpr(mask: Expr): Expr {
    B(Or_, B(And_, B(Add, K(0xffff_ffff), B(Add, V(1), V(0))), U(Not_, mask)), B(And_, V(0), mask))
  }

  function EqBranchMask(): Expr {
    B(Add, K(0xffff_ffff), SignOf(ZeroMask(V(2))))
  }

  function NeqBranchMask(): Expr {
    B(Add, K(0xffff_ffff), B(And_, K(1), U(Not_, U(Flip_, ZeroMask(V(2))))))
  }

  lemma BranchTargetSteps(m: Expr)
    ensures Yields(BranchTarget(), Cons(U(Not_, m), Cons(B(And_, V(0), m), Cons(V(0), Cons(V(1), Cons(m, Nil))))),
                  Other(PopPc, End), Cons(TargetExpr(m), Nil))
  {
  }

  lemma EqBranchSteps()
    ensures Yields(EqBranchCode(), Three(), Other(PopPc, End), Cons(TargetExpr(EqBranchMask()), Nil))
  {
    var m := EqBranchMask();
    BranchTargetSteps(m);
    hide BranchTarget;
    assert Yields(BranchMask(), Cons(U(Flip_, ZeroMask(V(2))), Three()), Other(PopPc, End), Cons(TargetExpr(m), Nil));
  }

  lemma NeqBranchSteps()
    ensures Yields(NeqBranchCode(), Three(), Other(PopPc, End), Cons(TargetExpr(NeqBranchMask()), Nil))
  {
    var m := NeqBranchMask();
    BranchTargetSteps(m);
    hide BranchTarget;
    assert Yields(BranchMask(), Cons(U(Not_, U(Flip_, ZeroMask(V(2)))), Three()), Other(PopPc, End), Cons(TargetExpr(m), Nil));
  }

  // ---- Scratch space and nesting ----

  lemma {:induction false} SafeWithMore(code: Code, h: int, room: int, room': int, rank: nat)
    requires Safe(code, h, room, rank) && room <= room'
    ensures Safe(code, h, room', rank)
    decreases code
  {
    if code.Imm? || code.ImmOf? || code.Loadsp? {
      SafeWithMore(code.next, h + 1, room - 1, room' - 1, rank);
    } else if code.Storesp? || code.Bin? {
      SafeWithMore(code.next, h - 1, room + 1, room' + 1, rank);
    } else if code.Noop? || code.Addsp? || code.Un? {
      SafeWithMore(code.next, h, room, room', rank);
    }
  }

  lemma LessThanMaskSafe()
    ensures Safe(LessThanMask(), 4, 2, 0)
  {
    assert Safe(LessThanSigns(), 4, 2, 0);
  }

  lemma LessThanSafe()
    ensures Safe(LessThanCode(), 3, 3, 0)
  {
    hide LessThanMask;
    LessThanMaskSafe();
  }

  lemma ULessThanHalvesSafe()
    ensures Safe(ULessThanHalves(), 6, 6, 1)
  {
    assert Safe(ULessThanTest(), 8, 4, 1);
  }

  lemma ULessThanSafe()
    ensures Safe(ULessThanCode(), 3, 9, 1)
  {
    hide ULessThanHalves;
    ULessThanHalvesSafe();
  }

  lemma SignFillSafe()
    ensures Safe(SignFill(), 5, 8, 2)
  {
  }

  lemma AShiftRightSafe()
    ensures Safe(AShiftRightCode(), 3, 10, 2)
  {
    hide SignFill;
    SignFillSafe();
  }

  lemma EqSafe()
    ensures Safe(EqCode(), 3, 3, 0)
  {
    assert Safe(EqTest(), 4, 2, 0);
  }

  lemma NeqSafe()
    ensures Safe(NeqCode(), 3, 3, 0)
  {
    assert Safe(NeqTest(), 4, 2, 0);
  }

  lemma OrEqualSafe()
    ensures Safe(LessThanOrEqualCode(), 3, 7, 1) && Safe(ULessThanOrEqualCode(), 3, 12, 2)
  {
    assert Safe(OrEqual(), 4, 6, 1);
    assert Safe(OrEqual(), 4, 11, 2);
  }

  lemma ShortSafe()
    ensures Safe(LShiftRightCode(), 3, 6, 1) && Safe(SubCode(), 3, 3, 0)
  {
  }

  lemma XorSafe()
    ensures Safe(XorCode(), 3, 3, 0)
  {
  }

  /** A straight-line routine needs the room Depth says, beside its return address. */
  lemma RoutineSafe(f: Alu2)
    requires StraightLine(f)
    ensures Safe(Routine(Binary(f)), 3, Depth(Binary(f)) - 1, Rank(Binary(f)))
  {
    hide Safe, LessThanCode, ULessThanCode, AShiftRightCode, EqCode, NeqCode, LessThanOrEqualCode, ULessThanOrEqualCode, LShiftRightCode, SubCode, XorCode;
    if f == LessThan {
      LessThanSafe();
    } else if f == ULessThan {
      ULessThanSafe();
    } else if f == AShiftRight {
      AShiftRightSafe();
    } else if f == Eq {
      EqSafe();
    } else if f == Neq {
      NeqSafe();
    } else if f == LessThanOrEqual || f == ULessThanOrEqual {
      OrEqualSafe();
    } else if f == Xor_ {
      XorSafe();
    } else {
      ShortSafe();
    }
  }

  lemma NegSafe()
    ensures Safe(NegCode(), 2, 2, 0)
  {
  }

  lemma BranchMaskSafe()
    ensures Safe(BranchMask(), 4, 3, 0)
  {
    assert Safe(BranchTarget(), 5, 2, 0);
  }

  lemma BranchSafe()
    ensures Safe(EqBranchCode(), 3, 4, 0) && Safe(NeqBranchCode(), 3, 4, 0)
  {
    hide BranchMask;
    BranchMaskSafe();
  }
}
