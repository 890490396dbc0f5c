/** 32-bit machine words as residues modulo 2^32, with the bit operations of the
    ZPU defined on their binary digits.  All bit identities used by the emulation
    proofs are derived here by induction on digits. */
module Words {

  const M: int := 0x1_0000_0000

  type word = x: int | 0 <= x < 0x1_0000_0000

  function Pow2(k: nat): (p: nat)
    ensures p > 0
  {
    if k == 0 then 1 else 2 * Pow2(k - 1)
  }

  /** The residue of an integer: Java's int arithmetic read as unsigned. */
  function Wrap(x: int): word {
    x % M
  }

  /** Two's complement reading of a word: the value Java's `int` has. */
  function Signed(x: word): int {
    if x < 0x8000_0000 then x else x - M
  }

  function Not(x: word): word {
    M - 1 - x
  }

  /** The digit of a conjunction. */
  function Both(a: nat, b: nat): nat {
    if a == 1 && b == 1 then 1 else 0
  }

  function And(x: nat, y: nat): (r: nat)
    ensures r <= x && r <= y
    decreases x
  {
    if x == 0 || y == 0 then 0 else 2 * And(x / 2, y / 2) + Both(x % 2, y % 2)
  }

  function Or(x: nat, y: nat): nat
    decreases x
  {
    if x == 0 then y else 2 * Or(x / 2, y / 2) + (if x % 2 + y % 2 == 0 then 0 else 1)
  }

  function Xor(x: nat, y: nat): nat
    decreases x
  {
    if x == 0 then y else 2 * Xor(x / 2, y / 2) + (if x % 2 == y % 2 then 0 else 1)
  }

  /** The n low digits of x in reverse order. */
  function Reverse(x: nat, n: nat): nat {
    if n == 0 then 0 else (if x % 2 == 1 then Pow2(n - 1) else 0) + Reverse(x / 2, n - 1)
  }

  function Flip(x: word): nat {
    Reverse(x, 32)
  }

  lemma Pow2Values()
    ensures Pow2(0) == 1 && Pow2(1) == 2 && Pow2(2) == 4 && Pow2(3) == 8 && Pow2(4) == 16
    ensures Pow2(5) == 32 && Pow2(8) == 0x100 && Pow2(16) == 0x1_0000 && Pow2(24) == 0x100_0000
    ensures Pow2(31) == 0x8000_0000 && Pow2(32) == M
  {
    assert Pow2(8) == 0x100;
    assert Pow2(16) == 0x1_0000;
    assert Pow2(24) == 0x100_0000;
  }

  lemma {:induction false} Pow2Add(a: nat, b: nat)
    ensures Pow2(a + b) == Pow2(a) * Pow2(b)
  {
    if a == 0 {
      assert Pow2(a) * Pow2(b) == Pow2(b);
    } else {
      Pow2Add(a - 1, b);
      DoubleProduct(Pow2(a - 1), Pow2(b));
    }
  }

  lemma DoubleProduct(p: int, q: int)
    ensures 2 * (p * q) == (2 * p) * q
  {
  }

  // ---- Or and Xor reduce to sum and And ----

  lemma {:induction false} OrSum(x: nat, y: nat)
    ensures Or(x, y) == x + y - And(x, y)
    decreases x
  {
    if x > 0 {
      OrSum(x / 2, y / 2);
    }
  }

  lemma {:induction false} XorSum(x: nat, y: nat)
    ensures Xor(x, y) == x + y - 2 * And(x, y)
    decreases x
  {
    if x > 0 {
      XorSum(x / 2, y / 2);
    }
  }

  lemma {:induction false} AndComm(x: nat, y: nat)
    ensures And(x, y) == And(y, x)
    decreases x
  {
    if x > 0 && y > 0 {
      AndComm(x / 2, y / 2);
    }
  }

  // ---- And works separately on the digits above and below a position ----

  lemma {:induction false} AndJoin(h1: nat, l1: nat, h2: nat, l2: nat, k: nat)
    requires l1 < Pow2(k) && l2 < Pow2(k)
    ensures And(At(h1, l1, Pow2(k)), At(h2, l2, Pow2(k))) == At(And(h1, h2), And(l1, l2), Pow2(k))
    decreases k
  {
    if k > 0 {
      AndJoin(h1, l1 / 2, h2, l2 / 2, k - 1);
      AndJoinStep(h1, l1, h2, l2, Pow2(k - 1));
    }
  }

  /** A number with digits h above and l below the position of weight p. */
  function At(h: nat, l: nat, p: nat): nat {
    p * h + l
  }

  lemma AndJoinStep(h1: nat, l1: nat, h2: nat, l2: nat, p: nat)
    requires l1 < 2 * p && l2 < 2 * p
    requires And(At(h1, l1 / 2, p), At(h2, l2 / 2, p)) == At(And(h1, h2), And(l1 / 2, l2 / 2), p)
    ensures And(At(h1, l1, 2 * p), At(h2, l2, 2 * p)) == At(And(h1, h2), And(l1, l2), 2 * p)
  {
    HalfJoin(h1, l1, p);
    HalfJoin(h2, l2, p);
    AndStep(At(h1, l1, 2 * p), At(h2, l2, 2 * p));
    AndStep(l1, l2);
    HalfJoin(And(h1, h2), And(l1, l2), p);
  }

  lemma HalfJoin(h: nat, l: nat, p: nat)
    requires l < 2 * p
    ensures At(h, l, 2 * p) / 2 == At(h, l / 2, p)
    ensures At(h, l, 2 * p) % 2 == l % 2
  {
    assert 2 * p * h == 2 * (p * h);
  }

  lemma AndStep(x: nat, y: nat)
    ensures And(x, y) == 2 * And(x / 2, y / 2) + Both(x % 2, y % 2)
  {
  }

  lemma HalfDivMod(x: nat, p: nat)
    requires p > 0
    ensures x / (2 * p) == x / 2 / p
    ensures x % (2 * p) / 2 == x / 2 % p
    ensures x % (2 * p) % 2 == x % 2
  {
    var h, b := x / 2, x % 2;
    var q, r := h / p, h % p;
    assert x == (2 * p) * q + (2 * r + b);
    DivModUnique(x, 2 * p, q, 2 * r + b);
  }

  lemma DivModUnique(x: int, d: int, q: int, r: int)
    requires d > 0 && 0 <= r < d && x == d * q + r
    ensures x / d == q && x % d == r
  {
    var t := x / d - q;
    assert d * t == r - x % d by {
      assert x == d * (x / d) + x % d;
      assert d * (x / d) == d * q + d * t;
    }
    MulBound(d, t);
  }

  lemma MulBound(d: int, t: int)
    requires d > 0
    ensures t >= 1 ==> d * t >= d
    ensures t <= -1 ==> d * t <= -d
    ensures t == 0 ==> d * t == 0
  {
  }

  /** Masking with 2^k - 1 keeps the k low digits. */
  lemma {:induction false} AndLow(x: nat, k: nat)
    ensures And(x, Pow2(k) - 1) == x % Pow2(k)
    decreases k
  {
    if k > 0 {
      AndStep(x, Pow2(k) - 1);
      AndLow(x / 2, k - 1);
      HalfDivMod(x, Pow2(k - 1));
      assert (Pow2(k) - 1) / 2 == Pow2(k - 1) - 1;
    }
  }

  lemma AndOnes(x: word)
    ensures And(x, M - 1) == x && And(M - 1, x) == x
  {
    Pow2Values();
    AndLow(x, 32);
    AndComm(x, M - 1);
  }

  /** A word splits against any mask and its complement. */
  lemma {:induction false} AndComplement(x: nat, m: nat, k: nat)
    requires x < Pow2(k) && m < Pow2(k)
    ensures And(x, m) + And(x, Pow2(k) - 1 - m) == x
    decreases k
  {
    if k > 0 {
      var c := Pow2(k) - 1 - m;
      assert c / 2 == Pow2(k - 1) - 1 - m / 2 && c % 2 == 1 - m % 2;
      AndComplement(x / 2, m / 2, k - 1);
      AndStep(x, m);
      AndStep(x, c);
      assert x % 2 == 0 || x % 2 == 1;
    }
  }

  lemma AndNot(x: word, m: word)
    ensures And(x, Not(m)) == x - And(x, m)
    ensures And(Not(m), x) == x - And(x, m)
  {
    Pow2Values();
    AndComplement(x, m, 32);
    AndComm(x, Not(m));
  }

  lemma AndZero(x: nat)
    ensures And(x, 0) == 0 && And(0, x) == 0
  {
  }

  lemma LowMask(x: nat, k: nat, m: nat)
    requires m == Pow2(k) - 1
    ensures And(m, x) == x % Pow2(k)
  {
    AndLow(x, k);
    AndComm(m, x);
  }

  // The low masks the emulation code uses, in the operand order it uses.

  lemma Mask1(x: nat)
    ensures And(1, x) == x % 2
  {
    LowMask(x, 1, 1);
  }

  lemma Mask3(x: nat)
    ensures And(3, x) == x % 4
  {
    Pow2Values();
    LowMask(x, 2, 3);
  }

  lemma Mask31(x: nat)
    ensures And(31, x) == x % 32
  {
    Pow2Values();
    LowMask(x, 5, 31);
  }

  lemma Mask255(x: nat)
    ensures And(255, x) == x % 256
  {
    Pow2Values();
    LowMask(x, 8, 255);
  }

  lemma Mask65535(x: nat)
    ensures And(0xffff, x) == x % 0x1_0000
  {
    Pow2Values();
    LowMask(x, 16, 0xffff);
  }

  /** im ~3; and rounds an address down to its word; im ~2; and does so for even ones. */
  lemma AlignMasks(x: word)
    ensures And(M - 4, x) == x - x % 4
    ensures x % 2 == 0 ==> And(M - 3, x) == x - x % 4
    ensures x % 2 == 1 ==> And(M - 3, x) % 2 == 1
  {
    Pow2Values();
    AndLow(x, 2);
    AndNot(x, 3);
    AndNot(x, 2);
    AndStep(x, 2);
    AndStep(x, 3);
    AndLow(x / 2, 1);
    assert And(x, 2) == 2 * (x / 2 % 2);
  }

  lemma OrBound(x: word, y: word)
    ensures Or(x, y) == Not(And(Not(x), Not(y)))
    ensures 0 <= Or(x, y) < M
  {
    OrSum(x, y);
    AndNot(x, y);
    AndNot(Not(y), x);
    AndComm(Not(y), x);
  }

  lemma XorBound(x: word, y: word)
    ensures Xor(x, y) == Or(And(Not(x), y), And(x, Not(y)))
    ensures 0 <= Xor(x, y) < M
  {
    var p, q := And(Not(x), y), And(x, Not(y));
    assert p == y - And(x, y) && q == x - And(x, y) by {
      AndNot(y, x);
      AndNot(x, y);
      AndComm(x, y);
    }
    assert And(p, q) == 0 by {
      Pow2Values();
      Disjoint(x, y, Not(x), Not(y), 32);
    }
    XorSum(x, y);
    OrSum(p, q);
    OrBound(p, q);
  }

  /** No digit is in both y without x and x without y. */
  lemma {:induction false} Disjoint(x: nat, y: nat, nx: nat, ny: nat, k: nat)
    requires x + nx == Pow2(k) - 1 && y + ny == Pow2(k) - 1
    ensures And(And(nx, y), And(x, ny)) == 0
    decreases k
  {
    if k > 0 {
      Disjoint(x / 2, y / 2, nx / 2, ny / 2, k - 1);
      HalfAnd(nx, y);
      HalfAnd(x, ny);
      AndStep(And(nx, y), And(x, ny));
    }
  }

  lemma HalfAnd(x: nat, y: nat)
    ensures And(x, y) / 2 == And(x / 2, y / 2) && And(x, y) % 2 == Both(x % 2, y % 2)
  {
    AndStep(x, y);
  }

  // ---- The sign digit ----

  function Top(x: nat): nat {
    x / 0x8000_0000
  }

  lemma TopAnd(x: word, y: word)
    ensures Top(And(x, y)) == Both(Top(x), Top(y))
  {
    Pow2Values();
    var p := 0x8000_0000;
    AndJoin(Top(x), x % p, Top(y), y % p, 31);
    assert x == At(Top(x), x % p, p) && y == At(Top(y), y % p, p);
    assert And(x, y) == p * And(Top(x), Top(y)) + And(x % p, y % p);
    AndStep(Top(x), Top(y));
  }

  lemma TopOr(x: word, y: word)
    ensures Top(Or(x, y)) == if Top(x) + Top(y) == 0 then 0 else 1
  {
    OrBound(x, y);
    TopAnd(Not(x), Not(y));
  }

  // ---- Reversal ----

  lemma {:induction false} ReverseBound(x: nat, n: nat)
    ensures Reverse(x, n) < Pow2(n)
  {
    if n > 0 {
      ReverseBound(x / 2, n - 1);
    }
  }

  /** Reversal seen from the top digit. */
  lemma {:induction false} ReverseTop(h: nat, l: nat, n: nat)
    requires h < 2 && l < Pow2(n)
    ensures Reverse(At(h, l, Pow2(n)), n + 1) == 2 * Reverse(l, n) + h
  {
    AtBit(h, l, Pow2(n));
    if n > 0 {
      var p := Pow2(n - 1);
      HalfJoin(h, l, p);
      ReverseTop(h, l / 2, n - 1);
    }
  }

  lemma AtBit(h: nat, l: nat, p: nat)
    requires h < 2
    ensures At(h, l, p) == if h == 1 then p + l else l
  {
  }

  lemma {:induction false} ReverseTwice(x: nat, n: nat)
    requires x < Pow2(n)
    ensures Reverse(Reverse(x, n), n) == x
  {
    if n > 0 {
      var r := Reverse(x / 2, n - 1);
      ReverseBound(x / 2, n - 1);
      ReverseTwice(x / 2, n - 1);
      AtBit(x % 2, r, Pow2(n - 1));
      assert Reverse(x, n) == At(x % 2, r, Pow2(n - 1));
      ReverseTop(x % 2, r, n - 1);
    }
  }

  lemma FlipBound(x: word)
    ensures Flip(x) < M
  {
    Pow2Values();
    ReverseBound(x, 32);
  }

  lemma FlipTwice(x: word)
    ensures Flip(x) < M && Flip(Flip(x)) == x
  {
    FlipBound(x);
    Pow2Values();
    ReverseTwice(x, 32);
  }

  /** Doubling a word halves its reversal, and the low digit of a reversal is the sign. */
  lemma FlipDouble(x: word)
    ensures Flip(Wrap(x + x)) == Flip(x) / 2
    ensures Flip(x) % 2 == Top(x)
  {
    var h, l := Top(x), x % 0x8000_0000;
    assert Flip(x) == 2 * Reverse(l, 31) + h by {
      Pow2Values();
      assert x == At(h, l, Pow2(31));
      ReverseTop(h, l, 31);
    }
    assert Flip(Wrap(x + x)) == Reverse(l, 31) by {
      assert Wrap(x + x) == 2 * l;
      ReverseEven(l, 32);
    }
  }

  lemma ReverseEven(l: nat, n: nat)
    requires n > 0
    ensures Reverse(2 * l, n) == Reverse(l, n - 1)
  {
  }

  /** flip; addsp 0; flip shifts right by one, and flip; im 1; and tests the sign. */
  lemma FlipIdioms(x: word)
    ensures Flip(x) < M && Flip(Wrap(Flip(x) + Flip(x))) == x / 2
    ensures And(1, Flip(x)) == Top(x)
  {
    FlipTwice(x);
    FlipDouble(Flip(x));
    FlipDouble(x);
    Mask1(Flip(x));
  }
}
