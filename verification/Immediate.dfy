/** The value of a run of IM instructions in closed form, and its shortest encoding. */
module Immediate {
  import opened Words
  import opened Isa
  import opened Runs

  function Power128(n: nat): (p: nat)
    ensures p > 0
  {
    if n == 0 then 1 else 128 * Power128(n - 1)
  }

  /** The base-128 number with these digits, most significant first. */
  function Number(gs: seq<nat>): nat {
    if gs == [] then 0 else Number(gs[..|gs| - 1]) * 128 + gs[|gs| - 1]
  }

  /** The same digits in two's complement: the first one carries the sign. */
  function SignedNumber(gs: seq<nat>): int
    requires Groups(gs)
  {
    if gs[0] < 64 then Number(gs) else Number(gs) - Power128(|gs|)
  }

  /** n >= 1 IM bytes push the sign-extended base-128 value modulo 2^32. */
  lemma {:induction false} ImmediateClosedForm(gs: seq<nat>)
    requires Groups(gs)
    ensures ImmediateValue(gs) == Wrap(SignedNumber(gs))
    decreases |gs|
  {
    var n := |gs| - 1;
    if n == 0 {
      assert gs[..0] == [];
      assert Power128(1) == 128 * Power128(0);
    } else {
      var h := gs[..n];
      assert h[0] == gs[0];
      ImmediateClosedForm(h);
      AppendDigit(SignedNumber(h), gs[n]);
    }
  }

  lemma AppendDigit(x: int, g: nat)
    ensures Wrap(Wrap(x) * 128 + g) == Wrap(x * 128 + g)
  {
    assert x == M * (x / M) + x % M;
    DivModUnique(x * 128 + g, M, (Wrap(x) * 128 + g) / M + 128 * (x / M), (Wrap(x) * 128 + g) % M);
  }

  /** The shortest run of groups for a signed value. */
  function Encode(x: int): (gs: seq<nat>)
    ensures Groups(gs)
    decreases if x < 0 then -x else x
  {
    if -64 <= x < 64 then [x % 128] else Encode(x / 128) + [x % 128]
  }

  lemma {:induction false} EncodeValue(x: int)
    ensures SignedNumber(Encode(x)) == x
    decreases if x < 0 then -x else x
  {
    var gs := Encode(x);
    if -64 <= x < 64 {
      assert gs[..0] == [];
      assert Number(gs) == x % 128;
      assert Power128(1) == 128 * Power128(0);
    } else {
      var h := Encode(x / 128);
      EncodeValue(x / 128);
      assert gs[..|gs| - 1] == h && gs[0] == h[0];
    }
  }

  /** Encoding a word and executing the bytes pushes that word. */
  lemma ImmediateRoundTrip(w: word)
    ensures ImmediateValue(Encode(Signed(w))) == w
  {
    EncodeValue(Signed(w));
    ImmediateClosedForm(Encode(Signed(w)));
  }

  /** The first digit says between which multiples of 128^(n-1) the number lies. */
  lemma {:induction false} NumberBound(gs: seq<nat>)
    requires Groups(gs)
    ensures gs[0] * Power128(|gs| - 1) <= Number(gs) < (gs[0] + 1) * Power128(|gs| - 1)
    decreases |gs|
  {
    var n := |gs| - 1;
    var h := gs[..n];
    if n == 0 {
      assert h == [];
    } else {
      assert h[0] == gs[0];
      NumberBound(h);
      NextDigit(gs[0], Power128(n - 1), Number(h), gs[n]);
    }
  }

  lemma NextDigit(d: nat, p: nat, x: nat, g: nat)
    requires d * p <= x < (d + 1) * p && g < 128
    ensures d * (128 * p) <= x * 128 + g < (d + 1) * (128 * p)
  {
    assert d * (128 * p) == 128 * (d * p);
    assert (d + 1) * (128 * p) == 128 * ((d + 1) * p);
  }

  /** n groups hold the values from -64 * 128^(n-1) up to but not including 64 * 128^(n-1). */
  lemma SignedRange(gs: seq<nat>)
    requires Groups(gs)
    ensures var p := Power128(|gs| - 1); -64 * p <= SignedNumber(gs) < 64 * p
  {
    NumberBound(gs);
    var p := Power128(|gs| - 1);
    if gs[0] < 64 {
      MulSign(p, gs[0]);
      MulSign(p, 63 - gs[0]);
      assert p * (63 - gs[0]) == 64 * p - (gs[0] + 1) * p;
    } else {
      MulSign(p, gs[0] - 64);
      assert p * (gs[0] - 64) == gs[0] * p - 64 * p;
    }
  }

  lemma {:induction false} EncodeLength(x: int, n: nat)
    requires -64 * Power128(n) <= x < 64 * Power128(n)
    ensures |Encode(x)| <= n + 1
    decreases n
  {
    if !(-64 <= x < 64) {
      if n > 0 {
        EncodeLength(x / 128, n - 1);
      }
    }
  }

  /** No run of IM bytes that pushes x is shorter than Encode(x), and a word needs at most five. */
  lemma EncodeShortest(x: int, gs: seq<nat>)
    requires Groups(gs) && SignedNumber(gs) == x
    ensures |Encode(x)| <= |gs|
    ensures -0x8000_0000 <= x < 0x8000_0000 ==> |Encode(x)| <= 5
  {
    SignedRange(gs);
    EncodeLength(x, |gs| - 1);
    if -0x8000_0000 <= x < 0x8000_0000 {
      assert Power128(4) == 128 * (128 * (128 * 128));
      EncodeLength(x, 4);
    }
  }
}
