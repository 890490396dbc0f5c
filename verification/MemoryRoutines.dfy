/** The routines for byte and half-word access, calls and sp arithmetic: what their pieces leave
    on the stack between the instructions that touch memory, and the words they compute. */
module MemoryRoutines {
  import opened Words
  import opened Isa
  import opened Cpu
  import opened Crt0
  import opened StackCode
  import opened Routines
  import opened Values
  import opened LongRoutines

  // ---- loadb and loadh ----

  function ByteAddress(): Expr {
    B(And_, K(0xffff_fffc), V(1))
  }

  function HalfAddress(): Expr {
    B(And_, K(0xffff_fffd), V(1))
  }

  /** n - (address & 3). */
  function Back(n: word): Expr {
    B(Add, K(n), Negated(B(And_, K(3), V(1))))
  }

  function Times8(e: Expr): Expr {
    Doubled(e, 3)
  }

  function HalfShift(): Expr {
    B(AShiftLeft, K(3), Back(2))
  }

  /** w is the loaded word. */
  function LoadBExpr(w: word): Expr {
    B(And_, K(255), B(LShiftRight, Times8(Back(3)), K(w)))
  }

  function LoadHExpr(w: word): Expr {
    B(And_, K(0xffff), B(LShiftRight, HalfShift(), K(w)))
  }

  lemma LoadBStarts()
    ensures Yields(LoadBCode(), Two(), Other(Load, LoadBShift()), Cons(ByteAddress(), Two()))
    ensures Safe(LoadBCode(), 2, 9, 2)
  {
    hide LoadBShift;
  }

  lemma LoadHStarts()
    ensures Yields(LoadHCode(), Two(), Other(Load, LoadHShift()), Cons(HalfAddress(), Two()))
    ensures Safe(LoadHCode(), 2, 9, 2)
  {
    hide LoadHShift;
  }

  lemma LoadBSteps(w: word)
    ensures Yields(LoadBShift(), Cons(K(w), Two()), Other(PopPc, End), Returning(LoadBExpr(w)))
  {
    assert Doubled(Back(3), 3) == Doubled(B(Add, Back(3), Back(3)), 2);
    assert Yields(LoadBSelect(), Cons(Back(3), Cons(K(w), Two())), Other(PopPc, End), Returning(LoadBExpr(w)));
  }

  lemma LoadBSafe()
    ensures Safe(LoadBShift(), 3, 8, 2)
  {
    assert Safe(LoadBSelect(), 4, 7, 2);
  }

  lemma LoadHSteps(w: word)
    ensures Yields(LoadHShift(), Cons(K(w), Two()), Other(PopPc, End), Returning(LoadHExpr(w)))
  {
    assert Yields(LoadHSelect(), Cons(Back(2), Cons(K(w), Two())), Other(PopPc, End), Returning(LoadHExpr(w)));
  }

  lemma LoadHSafe()
    ensures Safe(LoadHShift(), 3, 8, 2)
  {
    assert Safe(LoadHSelect(), 4, 7, 2);
  }

  // ---- The addresses and shift amounts these routines build ----

  /** Word addresses: byte accesses clear two bits, half-word accesses one. */
  lemma AddressValue(env: Env, a: word)
    requires |env.vars| >= 2 && env.vars[1] == a
    ensures Eval(ByteAddress(), env) == a - a % 4
    ensures a % 2 == 0 ==> Eval(HalfAddress(), env) == a - a % 4
  {
    AlignMasks(a);
  }

  lemma BackValue(env: Env, a: word, n: word)
    requires |env.vars| >= 2 && env.vars[1] == a && a % 4 <= n
    ensures Eval(Back(n), env) == n - a % 4
  {
    hide And;
    OffsetValue(env, a);
    NegatedValue(env, B(And_, K(3), V(1)));
    JumpBack(n, a % 4);
  }

  lemma OffsetValue(env: Env, a: word)
    requires |env.vars| >= 2 && env.vars[1] == a
    ensures Eval(B(And_, K(3), V(1)), env) == a % 4
  {
    Mask3(a);
  }

  lemma Times8Value(env: Env, e: Expr, x: word)
    requires Eval(e, env) == x && x < 32
    ensures Eval(Times8(e), env) == 8 * x
  {
    hide Doubled, ShiftLeft;
    DoubledValue(env, e, 3);
    ShiftLeftThree(x);
  }

  lemma ShiftLeftThree(x: word)
    requires x < 64
    ensures ShiftLeft(x, 3) == 8 * x
  {
    Pow2Values();
  }

  lemma HalfShiftValue(env: Env, a: word)
    requires |env.vars| >= 2 && env.vars[1] == a && a % 2 == 0
    ensures Eval(HalfShift(), env) == 8 * (2 - a % 4)
  {
    hide ShiftLeft, And;
    BackValue(env, a, 2);
    ShiftLeftThree(2 - a % 4);
  }

  // ---- The bytes selected ----

  lemma LoadBValue(env: Env, a: word, w: word)
    requires |env.vars| >= 2 && env.vars[1] == a
    ensures Eval(LoadBExpr(w), env) == Byte(w, a % 4)
  {
    BackValue(env, a, 3);
    Times8Value(env, Back(3), 3 - a % 4);
    ShiftedByte(w, a % 4);
    SelectValue(env, Times8(Back(3)), 255, w);
  }

  lemma SelectValue(env: Env, amount: Expr, mask: word, w: word)
    requires Eval(amount, env) < 32
    ensures Eval(B(And_, K(mask), B(LShiftRight, amount, K(w))), env)
         == AndWord(mask, ShiftRight(w, Eval(amount, env)))
  {
    hide And, ShiftRight;
    var k := Eval(amount, env);
    assert k % 64 == k;
    assert Eval(B(LShiftRight, amount, K(w)), env) == ShiftRight(w, k);
  }

  lemma ShiftedByte(w: word, k: nat)
    requires k < 4
    ensures AndWord(255, ShiftRight(w, 8 * (3 - k))) == Byte(w, k)
  {
    hide And, ShiftRight;
    Mask255(ShiftRight(w, 8 * (3 - k)));
    RightShifts(w);
  }

  lemma RightShifts(w: word)
    ensures ShiftRight(w, 0) == w && ShiftRight(w, 8) == w / 0x100
    ensures ShiftRight(w, 16) == w / 0x1_0000 && ShiftRight(w, 24) == w / 0x100_0000
  {
    Pow2Values();
  }

  lemma LoadHValue(env: Env, a: word, w: word)
    requires |env.vars| >= 2 && env.vars[1] == a && a % 2 == 0
    ensures Eval(LoadHExpr(w), env) == HalfWord(w, a % 4)
  {
    hide And, ShiftRight, HalfShift, HalfWord;
    HalfShiftValue(env, a);
    ShiftedHalf(w, a % 4);
    SelectValue(env, HalfShift(), 0xffff, w);
  }

  lemma ShiftedHalf(w: word, k: nat)
    requires k == 0 || k == 2
    ensures AndWord(0xffff, ShiftRight(w, 8 * (2 - k))) == HalfWord(w, k)
  {
    hide And, ShiftRight, Byte;
    Mask65535(ShiftRight(w, 8 * (2 - k)));
    RightShifts(w);
    HighHalf(w);
  }

  lemma HighHalf(w: word)
    ensures w / 0x1_0000 % 0x1_0000 == Byte(w, 0) * 256 + Byte(w, 1)
    ensures w % 0x1_0000 == Byte(w, 2) * 256 + Byte(w, 3)
  {
    hide Byte;
    JoinBytes(w);
    var b0, b1, b2, b3 := Byte(w, 0), Byte(w, 1), Byte(w, 2), Byte(w, 3);
    DivModUnique(w, 0x1_0000, b0 * 256 + b1, b2 * 256 + b3);
  }

  // ---- storeb and storeh ----

  function MaskAddress(): Expr {
    B(Add, Doubled(B(And_, K(3), V(1)), 2), Ref(MASK))
  }

  function HalfCleared(w: word): Expr {
    B(And_, U(Not_, B(AShiftLeft, HalfShift(), K(0xffff))), K(w))
  }

  function ByteCleared(m: word, w: word): Expr {
    B(And_, K(m), K(w))
  }

  /** The low part of the stored value, shifted into place. */
  function Inserted(shift: Expr, mask: word, cleared: Expr): Expr {
    B(Or_, B(AShiftLeft, shift, B(And_, K(mask), V(2))), cleared)
  }

  lemma StoreBStarts(w: word, m: word)
    ensures Yields(StoreBCode(), Three(), Other(Load, StoreBMask()), Cons(ByteAddress(), Three()))
    ensures Yields(StoreBMask(), Cons(K(w), Three()), Other(Load, StoreBClear()),
                   Cons(MaskAddress(), Cons(K(w), Three())))
    ensures Yields(StoreBClear(), Cons(K(m), Cons(K(w), Three())), Other(PopPc, End),
                   Cons(Ref(STOREB_TAIL), Cons(ByteCleared(m, w), Three())))
  {
  }

  lemma StoreBStartsSafe()
    ensures Safe(StoreBCode(), 3, 7, 1)
    ensures Safe(StoreBMask(), 4, 6, 1)
    ensures Safe(StoreBClear(), 5, 5, 1)
  {
  }

  lemma StoreHStarts(w: word)
    ensures Yields(StoreHCode(), Three(), Other(Load, StoreHMask()), Cons(HalfAddress(), Three()))
    ensures Yields(StoreHMask(), Cons(K(w), Three()), Other(PopPc, End),
                   Cons(Ref(STOREH_TAIL), Cons(K(0xffff), Cons(V(2), Cons(HalfCleared(w), Three())))))
  {
    assert Yields(StoreHClear(), Cons(Back(2), Cons(K(0xffff), Cons(K(w), Three()))), Other(PopPc, End),
                  Cons(Ref(STOREH_TAIL), Cons(K(0xffff), Cons(V(2), Cons(HalfCleared(w), Three())))));
  }

  lemma StoreHStartsSafe()
    ensures Safe(StoreHCode(), 3, 8, 1)
  {
    hide StoreHMask;
  }

  lemma StoreHClearSafe()
    ensures Safe(StoreHClear(), 6, 5, 1)
  {
  }

  lemma StoreHMaskSafe()
    ensures Safe(StoreHMask(), 4, 7, 1)
  {
    hide StoreHClear;
    StoreHClearSafe();
  }

  lemma StoreBTailSteps(e: Expr)
    ensures Yields(StoreBTail(), Cons(e, Three()), Other(Store, Drop2()),
                   Cons(ByteAddress(), Cons(Inserted(Times8(Back(3)), 255, e), Three())))
  {
    assert Doubled(Back(3), 3) == Doubled(B(Add, Back(3), Back(3)), 2);
    assert Yields(StoreBInsert(), Cons(Back(3), Cons(B(And_, K(255), V(2)), Cons(e, Three()))), Other(Store, Drop2()),
                  Cons(ByteAddress(), Cons(Inserted(Times8(Back(3)), 255, e), Three())));
  }

  lemma StoreBTailSafe()
    ensures Safe(StoreBTail(), 4, 6, 1) && !StartsWithIm(StoreBTail())
  {
    assert Safe(StoreBInsert(), 6, 4, 1);
  }

  lemma StoreHTailSteps(e: Expr)
    ensures Yields(StoreHTail(), Cons(K(0xffff), Cons(V(2), Cons(e, Three()))), Other(Store, Drop2()),
                   Cons(ByteAddress(), Cons(Inserted(HalfShift(), 0xffff, e), Three())))
  {
    assert Yields(StoreHInsert(), Cons(Back(2), Cons(B(And_, K(0xffff), V(2)), Cons(e, Three()))), Other(Store, Drop2()),
                  Cons(ByteAddress(), Cons(Inserted(HalfShift(), 0xffff, e), Three())));
  }

  lemma StoreHInsertSafe()
    ensures Safe(StoreHInsert(), 6, 5, 1)
  {
  }

  lemma StoreHTailSafe()
    ensures Safe(StoreHTail(), 6, 5, 1) && !StartsWithIm(StoreHTail())
  {
    hide StoreHInsert;
    StoreHInsertSafe();
  }

  /** The return address and the operand words, whatever they hold. */
  function ReturnOver(x: word, y: word): Stack {
    Cons(V(0), Cons(K(x), Cons(K(y), Nil)))
  }

  lemma DropSteps(x: word, y: word)
    ensures Yields(Drop2(), ReturnOver(x, y), Other(PopPc, End), Cons(V(0), Nil)) && Height(ReturnOver(x, y)) == 3
    ensures Safe(Drop2(), 3, 0, 0) && !StartsWithIm(Drop2())
  {
    assert Height(Cons(K(y), Nil)) == 1;
    assert Height(Cons(K(x), Cons(K(y), Nil))) == 2;
  }

  lemma MaskAddressValue(env: Env, a: word)
    requires |env.vars| >= 2 && env.vars[1] == a && env.lay.mask + 16 <= RAM_SIZE
    ensures Eval(MaskAddress(), env) == env.lay.mask + 4 * (a % 4)
  {
    hide Doubled, And, ShiftLeft;
    OffsetValue(env, a);
    DoubledValue(env, B(And_, K(3), V(1)), 2);
    ShiftLeftFour(a % 4);
  }

  // ---- A field of a word replaced ----

  /** Clearing n digits at position s and inserting v there changes exactly those digits. */
  lemma InsertField(w: word, v: nat, mask: word, s: nat, n: nat, p: nat, q: nat)
    requires p == Pow2(s) && q == Pow2(n) && v < q && mask == At(q - 1, 0, p)
    ensures Or(At(v, 0, p), And(Not(mask), w)) == w - At(w / p % q, 0, p) + At(v, 0, p)
  {
    hide At, And, Or, Pow2;
    var h, l := w / p, w % p;
    SplitAt(w, p);
    FieldMask(h, l, s, n, p, q);
    AndNot(w, mask);
    TakeField(h, l, p, q);
    FieldDisjoint(v, h / q, l, s, n, p, q);
    OrSum(At(v, 0, p), At(At(h / q, 0, q), l, p));
  }

  lemma SplitAt(w: nat, p: nat)
    requires p > 0
    ensures w == At(w / p, w % p, p)
  {
  }

  lemma FieldMask(h: nat, l: nat, s: nat, n: nat, p: nat, q: nat)
    requires p == Pow2(s) && q == Pow2(n) && l < p
    ensures And(At(h, l, p), At(q - 1, 0, p)) == At(h % q, 0, p)
  {
    AndJoin(h, l, q - 1, 0, s);
    AndLow(h, n);
    AndZero(l);
  }

  lemma TakeField(h: nat, l: nat, p: nat, q: nat)
    requires q > 0
    ensures At(h, l, p) - At(h % q, 0, p) == At(At(h / q, 0, q), l, p)
  {
    var r := h % q;
    assert At(h / q, 0, q) == h - r;
    assert p * h - p * r == p * (h - r);
  }

  lemma FieldDisjoint(v: nat, u: nat, l: nat, s: nat, n: nat, p: nat, q: nat)
    requires p == Pow2(s) && q == Pow2(n) && v < q && l < p
    ensures And(At(v, 0, p), At(At(u, 0, q), l, p)) == 0
  {
    hide And;
    AndJoin(v, 0, At(u, 0, q), l, s);
    AndJoin(0, v, u, 0, n);
    AndZero(u);
    AndZero(v);
    AndZero(l);
    AtZero(v, p, q);
  }

  lemma AtZero(v: nat, p: nat, q: nat)
    ensures At(0, v, q) == v && At(0, 0, q) == 0 && At(0, 0, p) == 0
  {
  }

  /** Word k of the table at _mask. */
  function MaskWord(k: nat): word
    requires k < 4
  {
    if k == 0 then 0x00ff_ffff else if k == 1 then 0xff00_ffff else if k == 2 then 0xffff_00ff else 0xffff_ff00
  }

  /** The weight of byte k. */
  function Weight(k: nat): nat
    requires k < 4
  {
    if k == 0 then 0x100_0000 else if k == 1 then 0x1_0000 else if k == 2 then 0x100 else 1
  }

  lemma WeightValue(k: nat)
    requires k < 4
    ensures Weight(k) == Pow2(8 * (3 - k)) && Pow2(8) == 256 && Pow2(16) == 0x1_0000
  {
    Pow2Values();
  }

  lemma InsertedByte(w: word, k: nat, v: word)
    requires k < 4
    ensures OrWord(ShiftLeft(AndWord(255, v), 8 * (3 - k)), AndWord(MaskWord(k), w)) == SetByte(w, k, v)
  {
    hide And, Or, SetByte, ShiftLeft;
    Mask255(v);
    WeightValue(k);
    ByteMask(k);
    ShiftInto(v % 256, k);
    InsertField(w, v % 256, Not(MaskWord(k)), 8 * (3 - k), 8, Weight(k), 256);
    ByteReplaced(w, k, v);
  }

  lemma ByteMask(k: nat)
    requires k < 4
    ensures Not(MaskWord(k)) == At(255, 0, Weight(k))
  {
  }

  lemma ShiftInto(v: word, k: nat)
    requires k < 4 && v < 256
    ensures ShiftLeft(v, 8 * (3 - k)) == At(v, 0, Weight(k))
  {
    WeightValue(k);
  }

  lemma ByteReplaced(w: word, k: nat, v: word)
    requires k < 4
    ensures w - At(w / Weight(k) % 256, 0, Weight(k)) + At(v % 256, 0, Weight(k)) == SetByte(w, k, v)
  {
    hide Byte;
    FieldByte(w, k);
    JoinBytes(w);
  }

  lemma FieldByte(w: word, k: nat)
    requires k < 4
    ensures w / Weight(k) % 256 == Byte(w, k)
  {
  }

  lemma InsertedHalf(w: word, k: nat, v: word)
    requires k == 0 || k == 2
    ensures OrWord(ShiftLeft(AndWord(0xffff, v), 8 * (2 - k)), AndWord(Not(ShiftLeft(0xffff, 8 * (2 - k))), w))
         == SetHalf(w, k, v)
  {
    hide And, Or, ShiftLeft;
    Mask65535(v);
    WeightValue(k + 1);
    ShiftHalf(v % 0x1_0000, k);
    ShiftHalf(0xffff, k);
    InsertField(w, v % 0x1_0000, ShiftLeft(0xffff, 8 * (2 - k)), 8 * (2 - k), 16, Weight(k + 1), 0x1_0000);
    HalfReplaced(w, k, v);
  }

  lemma ShiftHalf(v: word, k: nat)
    requires (k == 0 || k == 2) && v < 0x1_0000
    ensures ShiftLeft(v, 8 * (2 - k)) == At(v, 0, Weight(k + 1))
  {
    WeightValue(k + 1);
  }

  lemma HalfReplaced(w: word, k: nat, v: word)
    requires k == 0 || k == 2
    ensures w - At(w / Weight(k + 1) % 0x1_0000, 0, Weight(k + 1)) + At(v % 0x1_0000, 0, Weight(k + 1))
         == SetHalf(w, k, v)
  {
    HighHalf(w);
    LowBytes(v);
    HalfSwap(w, k, v, w / Weight(k + 1) % 0x1_0000, v % 0x1_0000);
  }

  lemma HalfSwap(w: word, k: nat, v: word, was: int, now: int)
    requires (k == 0 || k == 2) && was == HalfWord(w, k) && now == 256 * (v / 256 % 256) + v % 256
    ensures w - Weight(k + 1) * was + Weight(k + 1) * now == SetHalf(w, k, v)
  {
    hide Byte;
    JoinBytes(w);
  }

  lemma LowBytes(v: word)
    ensures v % 0x1_0000 == 256 * (v / 256 % 256) + v % 256
  {
  }

  lemma StoreBValue(env: Env, ret: word, a: word, b: word, w: word)
    requires Operands(env, ret, a, b)
    ensures Eval(Inserted(Times8(Back(3)), 255, ByteCleared(MaskWord(a % 4), w)), env) == SetByte(w, a % 4, b)
  {
    hide And, Or, ShiftLeft, Times8, Back, Inserted, MaskWord, SetByte;
    BackValue(env, a, 3);
    Times8Value(env, Back(3), 3 - a % 4);
    InsertedValue(env, ret, a, b, Times8(Back(3)), 255, ByteCleared(MaskWord(a % 4), w));
    MaskedValue(env, MaskWord(a % 4), w);
    InsertedByte(w, a % 4, b);
  }

  lemma MaskedValue(env: Env, m: word, w: word)
    ensures Eval(ByteCleared(m, w), env) == AndWord(m, w)
  {
  }

  lemma InsertedValue(env: Env, ret: word, a: word, b: word, shift: Expr, mask: word, cleared: Expr)
    requires Operands(env, ret, a, b) && Eval(shift, env) < 32
    ensures Eval(Inserted(shift, mask, cleared), env)
         == OrWord(ShiftLeft(AndWord(mask, b), Eval(shift, env)), Eval(cleared, env))
  {
    hide And, Or, ShiftLeft;
    var k := Eval(shift, env);
    assert k % 64 == k;
    assert Eval(B(And_, K(mask), V(2)), env) == AndWord(mask, b);
    assert Eval(B(AShiftLeft, shift, B(And_, K(mask), V(2))), env) == ShiftLeft(AndWord(mask, b), k);
  }

  lemma StoreHValue(env: Env, ret: word, a: word, b: word, w: word)
    requires Operands(env, ret, a, b) && a % 2 == 0
    ensures Eval(Inserted(HalfShift(), 0xffff, HalfCleared(w)), env) == SetHalf(w, a % 4, b)
  {
    hide And, Or, ShiftLeft, Inserted, HalfCleared, HalfShift, SetHalf;
    HalfShiftValue(env, a);
    InsertedValue(env, ret, a, b, HalfShift(), 0xffff, HalfCleared(w));
    ClearedValue(env, a, w);
    InsertedHalf(w, a % 4, b);
  }

  lemma ClearedValue(env: Env, a: word, w: word)
    requires |env.vars| >= 2 && env.vars[1] == a && a % 2 == 0
    ensures a % 4 <= 2 && Eval(HalfCleared(w), env) == AndWord(Not(ShiftLeft(0xffff, 8 * (2 - a % 4))), w)
  {
    hide And, ShiftLeft, HalfShift;
    HalfShiftValue(env, a);
    var k := 8 * (2 - a % 4);
    assert k % 64 == k && k % 32 == k;
    assert Eval(B(AShiftLeft, HalfShift(), K(0xffff)), env) == ShiftLeft(0xffff, k);
    assert Eval(U(Not_, B(AShiftLeft, HalfShift(), K(0xffff))), env) == Not(ShiftLeft(0xffff, k));
  }

  // ---- calls, poppcrel and pushspadd ----

  /** offset + pc, from the return address pc + 1. */
  function RelativeTarget(): Expr {
    B(Add, K(0xffff_ffff), B(Add, V(0), V(1)))
  }

  lemma CallSteps()
    ensures Yields(CallCode(), Two(), FlushReturn(), Cons(V(1), Cons(V(0), Nil)))
    ensures Yields(CallPcRelCode(), Two(), FlushReturn(), Cons(RelativeTarget(), Cons(V(0), Nil)))
    ensures Yields(PopPcRelCode(), Two(), Other(PopPc, End), Cons(RelativeTarget(), Nil))
  {
  }

  lemma CallSafe()
    ensures Safe(CallCode(), 2, 2, 0)
    ensures Safe(CallPcRelCode(), 2, 2, 0)
    ensures Safe(PopPcRelCode(), 2, 0, 0)
  {
  }

  lemma RelativeValue(env: Env, pc: int, a: word)
    requires |env.vars| >= 2 && env.vars[0] == pc + 1 && env.vars[1] == a && 0 <= pc < RAM_SIZE
    ensures Eval(RelativeTarget(), env) == Wrap(a + pc)
  {
    assert Eval(B(Add, V(0), V(1)), env) == Sum(pc + 1, a);
  }

  /** sp is the word pushsp left: one below the sp at entry. */
  function ScaledExpr(sp: word): Expr {
    B(Add, Doubled(V(1), 2), B(Add, K(4), K(sp)))
  }

  lemma PushSpAddSteps(sp: word)
    ensures Yields(PushSpAddCode(), Two(), PushSpAddCode(), Two())
    ensures Yields(ScaleAndAdd(), Cons(K(sp), Two()), Other(PopPc, End), Returning(ScaledExpr(sp)))
  {
    assert Doubled(V(1), 2) == Doubled(B(Add, V(1), V(1)), 1);
  }

  lemma PushSpAddSafe()
    ensures Safe(PushSpAddCode(), 2, 2, 0)
    ensures Safe(ScaleAndAdd(), 3, 1, 0)
  {
  }

  lemma ScaledValue(env: Env, a: word, sp: word)
    requires |env.vars| >= 2 && env.vars[1] == a && 4 <= sp
    ensures Eval(ScaledExpr(sp - 4), env) == Wrap(sp + 4 * a)
  {
    hide Doubled, ShiftLeft;
    DoubledValue(env, V(1), 2);
    ShiftLeftFour(a);
    assert Eval(B(Add, K(4), K(sp - 4)), env) == sp;
    assert Eval(V(1), env) == a;
  }

  lemma ShiftLeftFour(a: word)
    ensures ShiftLeft(a, 2) == Wrap(4 * a)
  {
    Pow2Values();
  }
}
