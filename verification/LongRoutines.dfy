/** The pieces of the longer routines: the table of unrolled doublings behind ashiftleft,
    and one round of _slowmultImpl. */
module LongRoutines {
  import opened Words
  import opened Isa
  import opened Crt0
  import opened StackCode
  import opened Routines
  import opened Values

  // ---- ashiftleft: a jump k doublings in front of the end of the table ----

  /** The address _ashiftleftEnd - k and, below it, a copy of the operand to be shifted. */
  function ShiftTarget(): Expr {
    B(Add, Ref(ASHIFTLEFT_END), Negated(B(And_, K(31), V(1))))
  }

  lemma AShiftLeftSteps()
    ensures Yields(AShiftLeftCode(), Three(), Other(PopPc, End), Cons(ShiftTarget(), Cons(V(2), Three())))
  {
  }

  lemma AShiftLeftSafe()
    ensures Safe(AShiftLeftCode(), 3, 3, 0)
  {
  }

  lemma MaskedAmount(env: Env)
    ensures Eval(B(And_, K(31), V(1)), env) == Eval(V(1), env) % 32
  {
    Mask31(Eval(V(1), env));
  }

  lemma ShiftTargetValue(env: Env, ret: word, a: word, b: word)
    requires Operands(env, ret, a, b) && 31 <= env.lay.shiftEnd
    ensures Eval(ShiftTarget(), env) == env.lay.shiftEnd - a % 32
  {
    hide And;
    MaskedAmount(env);
    NegatedValue(env, B(And_, K(31), V(1)));
    JumpBack(env.lay.shiftEnd, a % 32);
  }

  lemma JumpBack(end: word, k: word)
    requires k <= end
    ensures Sum(end, Sum(1, Not(k))) == end - k
  {
  }

  function Doubled(e: Expr, n: nat): Expr
    decreases n
  {
    if n == 0 then e else Doubled(B(Add, e, e), n - 1)
  }

  lemma {:induction false} ShiftTableSteps(e: Expr, n: nat)
    ensures Yields(ShiftTable(n), Cons(e, Three()), Other(PopPc, End), Returning(Doubled(e, n)))
    decreases n
  {
    if n > 0 {
      ShiftTableSteps(B(Add, e, e), n - 1);
    }
  }

  lemma {:induction false} ShiftTableSafe(n: nat, room: nat)
    ensures Safe(ShiftTable(n), 4, room, 0)
    decreases n
  {
    if n > 0 {
      ShiftTableSafe(n - 1, room);
    }
  }

  lemma {:induction false} DoubledValue(env: Env, e: Expr, n: nat)
    ensures Eval(Doubled(e, n), env) == ShiftLeft(Eval(e, env), n)
    decreases n
  {
    var x := Eval(e, env);
    if n == 0 {
      ShiftZero(x);
    } else {
      DoubledValue(env, B(Add, e, e), n - 1);
      assert Eval(B(Add, e, e), env) == Sum(x, x);
      ShiftOfDouble(x, n);
    }
  }

  lemma ShiftOfDouble(x: word, n: nat)
    requires n > 0
    ensures ShiftLeft(Sum(x, x), n - 1) == ShiftLeft(x, n)
  {
    var p := Pow2(n - 1);
    var c := (x + x) / M;
    assert x * Pow2(n) == Sum(x, x) * p + M * (c * p) by {
      assert x * Pow2(n) == (x + x) * p;
      assert x + x == Sum(x, x) + M * c;
      assert (Sum(x, x) + M * c) * p == Sum(x, x) * p + M * (c * p);
    }
    WrapPlus(Sum(x, x) * p, c * p);
  }

  lemma WrapPlus(x: int, t: int)
    ensures Wrap(x + M * t) == Wrap(x)
  {
    DivModUnique(x + M * t, M, x / M + t, x % M);
  }

  // ---- Multiplication: one round adds B if A is odd, doubles B and halves A ----

  /** C, B, A, the return address and the two operands. */
  function Round(): Stack {
    Cons(V(0), Cons(V(1), Cons(V(2), Cons(V(3), Cons(V(4), Cons(V(5), Nil))))))
  }

  function NextC(): Expr {
    B(Add, B(And_, V(1), U(Not_, B(Add, K(0xffff_ffff), B(And_, K(1), V(2))))), V(0))
  }

  /** The stack at the loop branch: the branch offset, the halved A it tests, and the new round. */
  function AtBranch(): Stack {
    Cons(Ref(MORE_MULT), Cons(Half(V(2)), AfterRound()))
  }

  function AfterRound(): Stack {
    Cons(NextC(), Cons(B(Add, V(1), V(1)), Cons(Half(V(2)), Cons(V(3), Cons(V(4), Cons(V(5), Nil))))))
  }

  lemma MoreMultSteps()
    ensures Yields(MoreMult(), Round(), Other(NeqBranch, MultReturn()), AtBranch())
  {
    assert Yields(MultShift(), Cons(NextC(), Round().below), Other(NeqBranch, MultReturn()), AtBranch());
  }

  lemma MultReturnSteps()
    ensures Yields(MultReturn(), Round(), Other(PopPc, End), Cons(V(3), Cons(V(0), Nil)))
  {
  }

  lemma MoreMultSafe()
    ensures Safe(MoreMult(), 6, 7, 1) && !StartsWithIm(MoreMult())
  {
    assert Safe(MultShift(), 6, 7, 1);
  }

  lemma MultSafe()
    ensures Safe(MultReturn(), 6, 7, 1) && !StartsWithIm(MultReturn())
    ensures Safe(MultCode(), 3, 10, 1)
  {
  }

  /** C + A*B keeps its residue, and A is halved. */
  lemma RoundValue(env: Env, c: word, b: word, a: word)
    requires |env.vars| == 6 && env.vars[0] == c && env.vars[1] == b && env.vars[2] == a
    ensures Eval(Half(V(2)), env) == a / 2
    ensures Wrap(Eval(NextC(), env) + (a / 2) * Eval(B(Add, V(1), V(1)), env)) == Wrap(c + a * b)
  {
    hide NextC, Half, Computed;
    HalfValue(env, V(2), a);
    NextCValue(env, c, b, a);
    DoubleValue(env, b);
    RoundSum(c, b, a, if a % 2 == 1 then Sum(b, c) else c);
  }

  lemma DoubleValue(env: Env, b: word)
    requires |env.vars| == 6 && env.vars[1] == b
    ensures Eval(B(Add, V(1), V(1)), env) == Sum(b, b)
  {
  }

  lemma NextCValue(env: Env, c: word, b: word, a: word)
    requires |env.vars| == 6 && env.vars[0] == c && env.vars[1] == b && env.vars[2] == a
    ensures Eval(NextC(), env) == if a % 2 == 1 then Sum(b, c) else c
  {
    BitValue(env, a);
    var bit := B(And_, K(1), V(2));
    var m := Not(Sum(0xffff_ffff, a % 2));
    assert Eval(U(Not_, B(Add, K(0xffff_ffff), bit)), env) == m;
    assert Eval(NextC(), env) == Sum(AndWord(b, m), c);
    Select(b, c, a % 2);
  }

  lemma BitValue(env: Env, a: word)
    requires |env.vars| == 6 && env.vars[2] == a
    ensures Eval(B(And_, K(1), V(2)), env) == a % 2
  {
    Mask1(a);
  }

  lemma Select(b: word, c: word, bit: word)
    requires bit < 2
    ensures Sum(AndWord(b, Not(Sum(0xffff_ffff, bit))), c) == if bit == 1 then Sum(b, c) else c
  {
    hide And;
    AndOnes(b);
    AndZero(b);
    assert Not(Sum(0xffff_ffff, bit)) == if bit == 1 then 0xffff_ffff else 0;
  }

  lemma RoundSum(c: word, b: word, a: word, c': word)
    requires c' == if a % 2 == 1 then Sum(b, c) else c
    ensures Wrap(c' + (a / 2) * Sum(b, b)) == Wrap(c + a * b)
  {
    var h, t := a / 2, (b + b) / M;
    var u := if a % 2 == 1 then (b + c) / M else 0;
    SplitProduct(a, b, h, Sum(b, b), t);
    assert c + (a % 2) * b == c' + M * u;
    WrapPlus(c' + h * Sum(b, b), u + h * t);
  }

  lemma SplitProduct(a: int, b: int, h: int, d: int, t: int)
    requires h == a / 2 && b + b == d + M * t
    ensures a * b == (a % 2) * b + h * d + M * (h * t)
  {
    assert a == 2 * h + a % 2;
    assert (2 * h) * b == h * (b + b);
    assert h * (d + M * t) == h * d + M * (h * t);
  }
}
