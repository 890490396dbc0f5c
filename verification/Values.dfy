/** The words built by the routines equal the words the processor computes natively. */
module Values {
  import opened Words
  import opened Isa
  import opened StackCode
  import opened Routines

  predicate Operands(env: Env, ret: word, a: word, b: word) {
    env.vars == [ret, a, b]
  }

  /** flip; im 1; and leaves the sign digit. */
  lemma SignTest(x: word)
    ensures AndWord(1, FlipWord(x)) == Top(x)
  {
    FlipIdioms(x);
  }

  function Either(a: nat, b: nat): nat {
    if a + b == 0 then 0 else 1
  }

  // ---- Signed comparison: the sign of a - b, corrected where the subtraction overflows ----

  lemma LessThanValue(env: Env, ret: word, a: word, b: word)
    requires Operands(env, ret, a, b)
    ensures Eval(LessThanExpr(), env) == Alu2Value(LessThan, a, b)
  {
    LessThanBuilds(env, ret, a, b);
    SumNot(a, b);
    LessThanWord(a, b, Wrap(a - b));
  }

  lemma LessThanBuilds(env: Env, ret: word, a: word, b: word)
    requires Operands(env, ret, a, b)
    ensures Eval(LessThanExpr(), env)
         == AndWord(1, FlipWord(OrWord(AndWord(a, Not(b)), AndWord(Not(AndWord(Not(a), b)), Sum(a, Sum(1, Not(b)))))))
  {
  }

  lemma SumNot(a: word, b: word)
    ensures Sum(a, Sum(1, Not(b))) == Wrap(a - b)
  {
  }

  lemma LessThanWord(a: word, b: word, d: word)
    requires d == Wrap(a - b)
    ensures AndWord(1, FlipWord(OrWord(AndWord(a, Not(b)), AndWord(Not(AndWord(Not(a), b)), d))))
         == Flag(Signed(a) < Signed(b))
  {
    var u := AndWord(Not(a), b);
    var m, r := AndWord(Not(u), d), AndWord(a, Not(b));
    SignTest(OrWord(r, m));
    LessThanSign(a, b, u, d, m, r);
    SignedOrder(a, b, d);
  }

  lemma LessThanSign(a: word, b: word, u: word, d: word, m: word, r: word)
    requires u == AndWord(Not(a), b) && m == AndWord(Not(u), d) && r == AndWord(a, Not(b))
    ensures Top(OrWord(r, m)) == Either(Both(Top(a), Top(Not(b))), Both(1 - Both(Top(Not(a)), Top(b)), Top(d)))
  {
    TopOr(r, m);
    TopAnd(Not(u), d);
    TopAnd(Not(a), b);
    TopAnd(a, Not(b));
  }

  lemma SignedOrder(a: word, b: word, d: word)
    requires d == Wrap(a - b)
    ensures Either(Both(Top(a), Top(Not(b))), Both(1 - Both(Top(Not(a)), Top(b)), Top(d)))
         == Flag(Signed(a) < Signed(b))
  {
  }

  lemma OrFlags(p: bool, q: bool)
    ensures OrWord(Flag(p), Flag(q)) == Flag(p || q)
  {
    assert Or(0, 0) == 0 && Or(0, 1) == 1 && Or(1, 0) == 1 && Or(1, 1) == 1;
  }

  // ---- Unsigned comparison: halves compared, the low digits as borrow ----

  lemma ULessThanValue(env: Env, ret: word, a: word, b: word)
    requires Operands(env, ret, a, b)
    ensures Eval(ULessThanExpr(), env) == Alu2Value(ULessThan, a, b)
  {
    ULessThanBuilds(env, ret, a, b);
    var x := Sum(Wrap(a / 2 - b / 2), Wrap(M - AndWord(1, AndWord(b, Not(a)))));
    SignTest(x);
    LowDigit(a, b);
    UnsignedOrder(a, b, x);
  }

  lemma ULessThanBuilds(env: Env, ret: word, a: word, b: word)
    requires Operands(env, ret, a, b)
    ensures Eval(ULessThanExpr(), env)
         == AndWord(1, FlipWord(Sum(Wrap(a / 2 - b / 2), Wrap(M - AndWord(1, AndWord(b, Not(a)))))))
  {
    HalfValue(env, V(1), a);
    HalfValue(env, V(2), b);
    assert Eval(LowBorrow(), env) == Wrap(M - AndWord(1, AndWord(b, Not(a))));
  }

  lemma HalfValue(env: Env, e: Expr, x: word)
    requires Eval(e, env) == x
    ensures Eval(Half(e), env) == x / 2
  {
    var f := FlipWord(x);
    assert Eval(U(Flip_, e), env) == f;
    assert Eval(B(Add, U(Flip_, e), U(Flip_, e)), env) == Sum(f, f);
    Halving(x);
  }

  lemma Halving(x: word)
    ensures FlipWord(Sum(FlipWord(x), FlipWord(x))) == x / 2
  {
    FlipIdioms(x);
  }

  lemma LowDigit(a: word, b: word)
    ensures AndWord(1, AndWord(b, Not(a))) == Both(b % 2, 1 - a % 2)
  {
    Mask1(AndWord(b, Not(a)));
    HalfAnd(b, Not(a));
  }

  lemma UnsignedOrder(a: word, b: word, x: word)
    requires x == Sum(Wrap(a / 2 - b / 2), Wrap(M - Both(b % 2, 1 - a % 2)))
    ensures Top(x) == Flag(a < b)
  {
  }

  // ---- Equality and the zero test ----

  lemma ZeroMaskSign(d: word)
    ensures Top(AndWord(Not(Sum(1, Not(d))), Not(d))) == Flag(d == 0)
  {
    TopAnd(Not(Sum(1, Not(d))), Not(d));
  }

  /** The test used by eq and eqbranch, and its complement used by neq and neqbranch. */
  lemma ZeroTest(env: Env, e: Expr)
    ensures Eval(SignOf(ZeroMask(e)), env) == Flag(Eval(e, env) == 0)
    ensures Eval(B(And_, K(1), U(Not_, U(Flip_, ZeroMask(e)))), env) == Flag(Eval(e, env) != 0)
  {
    var d := Eval(e, env);
    var z := AndWord(Not(Sum(1, Not(d))), Not(d));
    ZeroBuilds(env, e, z);
    SignTest(z);
    ZeroMaskSign(d);
    OddComplement(FlipWord(z));
  }

  lemma ZeroBuilds(env: Env, e: Expr, z: word)
    requires z == AndWord(Not(Sum(1, Not(Eval(e, env)))), Not(Eval(e, env)))
    ensures Eval(SignOf(ZeroMask(e)), env) == AndWord(1, FlipWord(z))
    ensures Eval(B(And_, K(1), U(Not_, U(Flip_, ZeroMask(e)))), env) == AndWord(1, Not(FlipWord(z)))
  {
    var n := Not(Eval(e, env));
    assert Eval(U(Not_, e), env) == n;
    assert Eval(Negated(e), env) == Sum(1, n);
    assert Eval(U(Not_, Negated(e)), env) == Not(Sum(1, n));
    assert Eval(ZeroMask(e), env) == z;
    assert Eval(U(Flip_, ZeroMask(e)), env) == FlipWord(z);
    assert Eval(U(Not_, U(Flip_, ZeroMask(e))), env) == Not(FlipWord(z));
  }

  lemma OddComplement(x: word)
    ensures AndWord(1, Not(x)) == 1 - AndWord(1, x)
  {
    Mask1(x);
    Mask1(Not(x));
    assert Not(x) % 2 == 1 - x % 2;
  }

  lemma EqValue(env: Env, ret: word, a: word, b: word)
    requires Operands(env, ret, a, b)
    ensures Eval(EqExpr(), env) == Flag(a == b) && Eval(NeqExpr(), env) == Flag(a != b)
  {
    ZeroTest(env, Difference());
    DifferenceValue(env, ret, a, b);
  }

  lemma NegatedValue(env: Env, e: Expr)
    ensures Eval(Negated(e), env) == Sum(1, Not(Eval(e, env)))
  {
    assert Eval(U(Not_, e), env) == Not(Eval(e, env));
  }

  lemma DifferenceValue(env: Env, ret: word, a: word, b: word)
    requires Operands(env, ret, a, b)
    ensures Eval(Difference(), env) == 0 <==> a == b
  {
    NegatedValue(env, V(2));
    SumNot(a, b);
  }

  lemma XorValue(env: Env, ret: word, a: word, b: word)
    requires Operands(env, ret, a, b)
    ensures Eval(ResultExpr(Xor_), env) == Alu2Value(Xor_, a, b)
  {
    XorBound(a, b);
  }

  lemma SubValue(env: Env, ret: word, a: word, b: word)
    requires Operands(env, ret, a, b)
    ensures Eval(ResultExpr(Sub), env) == Alu2Value(Sub, a, b)
  {
    NegatedValue(env, V(1));
    NotSum(a, b);
  }

  lemma NotSum(a: word, b: word)
    ensures Sum(Sum(1, Not(a)), b) == Wrap(b - a)
  {
  }

  // ---- Shifts ----

  /** One more digit of left shift doubles, and flipping turns doubling into halving. */
  lemma {:induction false} FlipShift(x: word, k: nat)
    ensures FlipWord(ShiftLeft(FlipWord(x), k)) == ShiftRight(x, k)
    decreases k
  {
    if k == 0 {
      ShiftZero(x);
      ShiftZero(FlipWord(x));
      FlipTwice(x);
    } else {
      FlipShift(x, k - 1);
      ShiftLeftStep(FlipWord(x), k);
      FlipSum(ShiftLeft(FlipWord(x), k - 1));
      ShiftRightStep(x, k);
    }
  }

  lemma ShiftZero(x: word)
    ensures ShiftLeft(x, 0) == x && ShiftRight(x, 0) == x
  {
  }

  lemma FlipSum(y: word)
    ensures FlipWord(Sum(y, y)) == FlipWord(y) / 2
  {
    FlipDouble(y);
  }

  lemma ShiftLeftStep(x: word, k: nat)
    requires k > 0
    ensures ShiftLeft(x, k) == Sum(ShiftLeft(x, k - 1), ShiftLeft(x, k - 1))
  {
    var y := x * Pow2(k - 1);
    assert x * Pow2(k) == 2 * y;
    WrapDouble(y);
  }

  lemma WrapDouble(y: int)
    ensures Wrap(2 * y) == Sum(Wrap(y), Wrap(y))
  {
  }

  lemma ShiftRightStep(x: word, k: nat)
    requires k > 0
    ensures ShiftRight(x, k) == ShiftRight(x, k - 1) / 2
  {
    var p := Pow2(k - 1);
    var q, r := x / (2 * p), x % (2 * p);
    assert x == (2 * p) * q + r;
    assert x == p * (2 * q + r / p) + r % p by {
      assert r == p * (r / p) + r % p;
      assert p * (2 * q + r / p) == (2 * p) * q + p * (r / p);
    }
    DivModUnique(x, p, 2 * q + r / p, r % p);
    assert 0 <= r / p < 2 by {
      MulBound(p, r / p);
      MulBound(p, r / p - 1);
      assert p * (r / p - 1) == p * (r / p) - p;
    }
  }

  lemma LShiftRightValue(env: Env, ret: word, a: word, b: word)
    requires Operands(env, ret, a, b) && Binary(LShiftRight) in env.feeble
    ensures Eval(ResultExpr(LShiftRight), env) == Computed(env.feeble, LShiftRight, a, b)
  {
    FlipShift(b, LeftAmount(env.feeble, a));
  }

  /** Shifting the all-ones word right leaves the digits below position 32-k. */
  lemma OnesShifted(k: nat)
    requires k < 32
    ensures Pow2(k) * Pow2(32 - k) == M
    ensures ShiftRight(M - 1, k) == Pow2(32 - k) - 1
  {
    Pow2Values();
    Pow2Add(k, 32 - k);
    var p, q := Pow2(k), Pow2(32 - k);
    assert p * (q - 1) == p * q - p;
    DivModUnique(M - 1, p, q - 1, p - 1);
  }

  lemma QuotientBelow(b: word, p: nat, q: nat)
    requires p > 0 && p * q == M
    ensures 0 <= b / p < q
    ensures (b - M) / p == b / p - q
  {
    DivShrinks(b, p);
    var x := b / p;
    assert p * (x - q) == p * x - p * q;
    assert p * (x - q) < 0;
    DivModUnique(b - M, p, x - q, b % p);
    if x >= q {
      MulSign(p, x - q);
    }
  }

  lemma FillDisjoint(x: nat, k: nat, p: nat, q: nat)
    requires k < 32 && q == Pow2(32 - k) && x < q && p > 0 && p * q == M
    ensures q <= M && Or(M - q, x) == M - q + x
  {
    AndJoin(p - 1, 0, 0, x, 32 - k);
    AndZero(p - 1);
    AndZero(x);
    AtFill(p, q, x);
    OrSum(M - q, x);
  }

  lemma AtFill(p: nat, q: nat, x: nat)
    requires p > 0 && p * q == M
    ensures q <= M && At(p - 1, 0, q) == M - q && At(0, x, q) == x && At(0, 0, q) == 0
  {
    assert q * (p - 1) == p * q - q;
    assert q * (p - 1) >= 0;
  }

  /** The bits inserted for a negative word and the shifted word do not overlap. */
  lemma SignFillWord(b: word, k: nat)
    requires k < 32 && Top(b) == 1
    ensures OrWord(Not(ShiftRight(M - 1, k)), ShiftRight(b, k)) == ShiftRightSigned(b, k)
  {
    OnesShifted(k);
    QuotientBelow(b, Pow2(k), Pow2(32 - k));
    FillDisjoint(b / Pow2(k), k, Pow2(k), Pow2(32 - k));
  }

  lemma PositiveShift(b: word, k: nat)
    requires Top(b) == 0
    ensures ShiftRightSigned(b, k) == ShiftRight(b, k)
  {
    Pow2Shrinks(b, k);
  }

  lemma AShiftRightValue(env: Env, ret: word, a: word, b: word)
    requires Operands(env, ret, a, b) && Binary(AShiftRight) in env.feeble
    ensures Eval(AShiftRightExpr(), env) == Computed(env.feeble, AShiftRight, a, b)
  {
    hide And, Or;
    var k := a % 32;
    var sign := B(Add, K(0xffff_ffff), SignOf(U(Not_, V(2))));
    var fill := Not(ShiftRight(M - 1, k));
    FillBuilds(env, ret, a, b, fill);
    SignBuilds(env, ret, a, b);
    ShiftBuilds(env, ret, a, b);
    OrAndBuilds(env, sign, SignFillMask(), B(LShiftRight, V(1), V(2)));
    AndOnes(fill);
    AndZero(fill);
  }

  lemma OrAndBuilds(env: Env, x: Expr, y: Expr, z: Expr)
    ensures Eval(B(Or_, B(And_, x, y), z), env) == OrWord(AndWord(Eval(x, env), Eval(y, env)), Eval(z, env))
  {
    assert Eval(B(And_, x, y), env) == AndWord(Eval(x, env), Eval(y, env));
  }

  lemma OrZero(x: word)
    ensures OrWord(0, x) == x && OrWord(x, 0) == x
  {
    OrSum(x, 0);
  }

  lemma SignBuilds(env: Env, ret: word, a: word, b: word)
    requires Operands(env, ret, a, b)
    ensures Eval(B(Add, K(0xffff_ffff), SignOf(U(Not_, V(2)))), env) == if Top(b) == 1 then 0xffff_ffff else 0
  {
    SignTest(Not(b));
    assert Eval(SignOf(U(Not_, V(2))), env) == Top(Not(b));
  }

  lemma ShiftBuilds(env: Env, ret: word, a: word, b: word)
    requires Operands(env, ret, a, b)
    ensures Eval(B(LShiftRight, V(1), V(2)), env) == ShiftRight(b, RightAmount(env.feeble, a))
  {
  }

  lemma FillBuilds(env: Env, ret: word, a: word, b: word, fill: word)
    requires Operands(env, ret, a, b) && fill == Not(ShiftRight(M - 1, a % 32))
    ensures Eval(SignFillMask(), env) == fill
  {
    hide ShiftRight, And;
    Mask31(a);
    assert a % 32 % 64 == a % 32 && a % 32 % 32 == a % 32;
    assert Eval(B(And_, K(31), V(1)), env) == a % 32;
    assert Eval(B(LShiftRight, B(And_, K(31), V(1)), K(0xffff_ffff)), env) == ShiftRight(M - 1, a % 32);
  }

  lemma OrEqualValue(env: Env, ret: word, a: word, b: word)
    requires Operands(env, ret, a, b)
    ensures Eval(ResultExpr(LessThanOrEqual), env) == Alu2Value(LessThanOrEqual, a, b)
    ensures Eval(ResultExpr(ULessThanOrEqual), env) == Alu2Value(ULessThanOrEqual, a, b)
  {
    OrFlags(a == b, Signed(a) < Signed(b));
    OrFlags(a == b, a < b);
  }

  /** Every straight-line routine computes what its instruction is said to compute when emulated. */
  lemma RoutineValue(f: Alu2, env: Env, ret: word, a: word, b: word)
    requires StraightLine(f) && Operands(env, ret, a, b) && Binary(f) in env.feeble
    ensures Eval(ResultExpr(f), env) == Computed(env.feeble, f, a, b)
  {
    if f == LessThan {
      LessThanValue(env, ret, a, b);
    } else if f == ULessThan {
      ULessThanValue(env, ret, a, b);
    } else if f == LessThanOrEqual || f == ULessThanOrEqual {
      OrEqualValue(env, ret, a, b);
    } else if f == LShiftRight {
      LShiftRightValue(env, ret, a, b);
    } else if f == AShiftRight {
      AShiftRightValue(env, ret, a, b);
    } else if f == Eq || f == Neq {
      EqValue(env, ret, a, b);
    } else if f == Xor_ {
      XorValue(env, ret, a, b);
    } else {
      SubValue(env, ret, a, b);
    }
  }

  // ---- Branch targets: an all-ones or all-zeros mask selects an address ----

  lemma TargetValue(env: Env, ret: word, off: word, cmp: word, taken: bool, mask: Expr)
    requires Operands(env, ret, off, cmp)
    requires Eval(mask, env) == if taken then 0 else 0xffff_ffff
    ensures Eval(TargetExpr(mask), env) == if taken then Sum(0xffff_ffff, Sum(off, ret)) else ret
  {
    var t, m := Sum(0xffff_ffff, Sum(off, ret)), Eval(mask, env);
    assert Eval(U(Not_, mask), env) == Not(m);
    assert Eval(B(Add, K(0xffff_ffff), B(Add, V(1), V(0))), env) == t;
    assert Eval(B(And_, V(0), mask), env) == AndWord(ret, m);
    assert Eval(B(And_, B(Add, K(0xffff_ffff), B(Add, V(1), V(0))), U(Not_, mask)), env) == AndWord(t, Not(m));
    assert Eval(TargetExpr(mask), env) == OrWord(AndWord(t, Not(m)), AndWord(ret, m));
    AndOnes(t);
    AndOnes(ret);
    AndZero(t);
    AndZero(ret);
    OrSum(t, 0);
    AndZero(ret);
  }

  lemma EqBranchValue(env: Env, ret: word, off: word, cmp: word)
    requires Operands(env, ret, off, cmp)
    ensures Eval(TargetExpr(EqBranchMask()), env) == if cmp == 0 then Sum(0xffff_ffff, Sum(off, ret)) else ret
    ensures Eval(TargetExpr(NeqBranchMask()), env) == if cmp != 0 then Sum(0xffff_ffff, Sum(off, ret)) else ret
  {
    ZeroTest(env, V(2));
    TargetValue(env, ret, off, cmp, cmp == 0, EqBranchMask());
    TargetValue(env, ret, off, cmp, cmp != 0, NeqBranchMask());
  }
}
