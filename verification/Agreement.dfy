/** When an emulated instruction leaves the word the processor would have left.  Only shifts by
    amounts with bit 5 set can differ: the processor uses six bits of the amount of lshiftright
    and ashiftleft, the emulation five. */
module Agreement {
  import opened Words
  import opened Isa
  import opened StackCode
  import opened Values

  /** What a caller has to check before an emulated shift of b by a. */
  predicate ShiftOk(feeble: set<Op>, f: Alu2, a: word, b: word) {
    IsShift(f) && Binary(f) in feeble && a % 64 >= 32 ==>
      if f == AShiftLeft then b % Pow2(32 - a % 32) == 0
      else if (Binary(AShiftLeft) in feeble && Binary(LShiftRight) in feeble) == (f == LShiftRight) then b < Pow2(a % 32)
      else true
  }

  /** Emulation and processor agree exactly when ShiftOk holds, for every set of emulated opcodes. */
  lemma Agrees(feeble: set<Op>, f: Alu2, a: word, b: word)
    ensures Computed(feeble, f, a, b) == Alu2Value(f, a, b) <==> ShiftOk(feeble, f, a, b)
  {
    hide ShiftLeft, ShiftRight, ShiftRightSigned, Pow2, Or, SignFillOf;
    if IsShift(f) && Binary(f) in feeble {
      var k := a % 32;
      assert a % 64 == k || a % 64 == 32 + k;
      if f == AShiftLeft {
        LeftWhole(b, k);
      } else if f == LShiftRight {
        RightWhole(b, k);
      } else {
        RightWhole(b, k);
        SignedSplits(b, k);
      }
    }
  }

  /** Shifting left by 32 or more gives 0; by fewer, 0 exactly when the digits kept are 0. */
  lemma LeftWhole(b: word, k: nat)
    requires k < 32
    ensures ShiftLeft(b, 32 + k) == 0
    ensures ShiftLeft(b, k) == 0 <==> b % Pow2(32 - k) == 0
  {
    Pow2Values();
    Pow2Add(32, k);
    OnesShifted(k);
    WholeTurns(b, Pow2(k));
    LeftDigits(b, Pow2(k), Pow2(32 - k));
  }

  lemma WholeTurns(b: nat, p: nat)
    ensures Wrap(b * (M * p)) == 0
  {
    DivModUnique(b * (M * p), M, b * p, 0);
  }

  lemma LeftDigits(b: nat, p: nat, q: nat)
    requires p > 0 && q > 0 && p * q == M
    ensures Wrap(b * p) == 0 <==> b % q == 0
  {
    var h, l := b / q, b % q;
    assert b * p == M * h + l * p by {
      assert b == q * h + l;
      assert (q * h) * p == (p * q) * h;
    }
    assert 0 <= l * p < M by {
      MulSign(p, l);
      MulSign(p, q - l - 1);
      assert p * (q - l - 1) == M - l * p - p;
    }
    DivModUnique(b * p, M, h, l * p);
    if l != 0 {
      MulBound(p, l);
    }
  }

  lemma RightWhole(b: word, k: nat)
    requires k < 32
    ensures ShiftRight(b, 32 + k) == 0
    ensures ShiftRight(b, k) == 0 <==> b < Pow2(k)
  {
    Pow2Values();
    Pow2Add(32, k);
    Below(b, Pow2(k));
    MulBound(M, Pow2(k));
    Below(b, M * Pow2(k));
  }

  lemma Below(b: nat, p: nat)
    requires p > 0
    ensures b / p == 0 <==> b < p
  {
    if b < p {
      DivModUnique(b, p, 0, b);
    }
  }

  /** The arithmetic shift is the sign fill and the logical shift, which share no digit. */
  lemma SignedSplits(b: word, k: nat)
    requires k < 32
    ensures OrWord(SignFillOf(k, b), ShiftRight(b, k)) == ShiftRightSigned(b, k)
    ensures OrWord(SignFillOf(k, b), 0) == ShiftRightSigned(b, k) <==> ShiftRight(b, k) == 0
  {
    var x := ShiftRight(b, k);
    if Top(b) == 1 {
      SignFillWord(b, k);
      OnesShifted(k);
      var p, q := Pow2(k), Pow2(32 - k);
      QuotientBelow(b, p, q);
      FillDisjoint(x, k, p, q);
      FillDisjoint(0, k, p, q);
    } else {
      OrZero(x);
      OrZero(0);
      PositiveShift(b, k);
    }
  }

  /** The amount 32 with ashiftleft emulated: the processor shifts everything out, the routine nothing. */
  lemma ShiftBy32Differs()
    ensures Alu2Value(AShiftLeft, 32, 1) == 0
    ensures Computed({Binary(AShiftLeft)}, AShiftLeft, 32, 1) == 1
  {
    Pow2Values();
  }
}
