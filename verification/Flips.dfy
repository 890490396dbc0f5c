/** The loop that reverses the bits of a word. */
module Flips {
  import opened Words
  import opened Isa

  /** flip: bit j of the argument becomes bit 31-j of the result. */
  method FlipLoop(x: word) returns (t: word)
    ensures t == FlipWord(x)
  {
    t := 0;
    for j := 0 to 32
      invariant t == Pow2(32 - j) * Reverse(x % Pow2(j), j)
    {
      FlipStep(x, j, t);
      t := Or(t, x / Pow2(j) % 2 * Pow2(31 - j));
    }
    Pow2Values();
    assert x % Pow2(32) == x;
  }

  lemma FlipStep(x: word, j: nat, t: word)
    requires j < 32 && t == Pow2(32 - j) * Reverse(x % Pow2(j), j)
    ensures 0 <= x / Pow2(j) % 2 * Pow2(31 - j)
    ensures Or(t, x / Pow2(j) % 2 * Pow2(31 - j)) == Pow2(31 - j) * Reverse(x % Pow2(j + 1), j + 1) < M
  {
    hide Or, Reverse;
    var bit, r := x / Pow2(j) % 2, Reverse(x % Pow2(j), j);
    NextDigitOf(x, j);
    ReverseTop(bit, x % Pow2(j), j);
    Regroup(t, Pow2(31 - j), r);
    DigitApart(r, bit, 31 - j);
    ReversedBelow(x % Pow2(j + 1), j + 1);
  }

  lemma Regroup(t: int, q: nat, r: nat)
    requires t == (2 * q) * r
    ensures t == q * (2 * r)
  {
  }

  lemma ReversedBelow(y: nat, n: nat)
    requires n <= 32
    ensures Pow2(32 - n) * Reverse(y, n) < M
  {
    ReverseBound(y, n);
    Pow2Values();
    Pow2Add(32 - n, n);
    ProductBelow(Pow2(32 - n), Reverse(y, n), Pow2(n));
  }

  lemma NextDigitOf(x: nat, j: nat)
    ensures x % Pow2(j + 1) == At(x / Pow2(j) % 2, x % Pow2(j), Pow2(j))
    ensures x % Pow2(j) < Pow2(j)
  {
    var p := Pow2(j);
    var h, l := x / p, x % p;
    assert x == (2 * p) * (h / 2) + (p * (h % 2) + l) by {
      assert p * h == p * (2 * (h / 2) + h % 2);
    }
    assert h % 2 == 0 || h % 2 == 1;
    DivModUnique(x, 2 * p, h / 2, p * (h % 2) + l);
  }

  /** A digit or-ed in below a multiple of twice its weight is added. */
  lemma DigitApart(r: nat, bit: nat, k: nat)
    requires bit < 2
    ensures Or(Pow2(k) * (2 * r), bit * Pow2(k)) == Pow2(k) * (2 * r + bit)
  {
    var q := Pow2(k);
    AndJoin(2 * r, 0, bit, 0, k);
    AndStep(2 * r, bit);
    AndZero(r);
    AndZero(0);
    OrSum(q * (2 * r), bit * q);
    assert q * (2 * r) + bit * q == q * (2 * r + bit);
  }

  lemma ProductBelow(q: nat, r: nat, n: nat)
    requires r < n && q > 0
    ensures q * r < q * n
  {
  }
}
