/** The Internet checksum as the network test computes it, against the one's complement sum of
    RFC 1071, sections 1 and 4.1. */
module Checksum {
  import opened Words

  const U16: int := 0x1_0000

  predicate Bytes(bs: seq<int>) {
    forall i :: 0 <= i < |bs| ==> 0 <= bs[i] < 256
  }

  /** The buffer as big-endian 16-bit words; an odd last byte is padded with zero on the right. */
  function WordsOf(bs: seq<int>): seq<int> {
    if |bs| == 0 then []
    else if |bs| == 1 then [bs[0] * 256]
    else [bs[0] * 256 + bs[1]] + WordsOf(bs[2..])
  }

  predicate Halves(ws: seq<int>) {
    forall i :: 0 <= i < |ws| ==> 0 <= ws[i] < U16
  }

  lemma {:induction false} WordsAreHalves(bs: seq<int>)
    requires Bytes(bs)
    ensures Halves(WordsOf(bs)) && |WordsOf(bs)| == (|bs| + 1) / 2
    decreases |bs|
  {
    if |bs| >= 2 {
      WordsAreHalves(bs[2..]);
    }
  }

  /** One's complement addition: the carry out of the top bit is added at the bottom. */
  function EndAround(a: int, b: int): int {
    if a + b >= U16 then a + b - U16 + 1 else a + b
  }

  function OnesSum(ws: seq<int>): int {
    if ws == [] then 0 else EndAround(OnesSum(ws[..|ws| - 1]), ws[|ws| - 1])
  }

  function Total(ws: seq<int>): int {
    if ws == [] then 0 else Total(ws[..|ws| - 1]) + ws[|ws| - 1]
  }

  /** The representative of n modulo 2^16 - 1 that one's complement arithmetic uses: zero stands
      for itself only. */
  function Folded(n: nat): int {
    if n == 0 then 0 else 1 + (n - 1) % (U16 - 1)
  }

  lemma FoldedAdd(n: nat, w: int)
    requires 0 <= w < U16
    ensures EndAround(Folded(n), w) == Folded(n + w)
  {
    if n > 0 {
      var q, r := (n - 1) / (U16 - 1), (n - 1) % (U16 - 1);
      if r + w < U16 - 1 {
        DivModUnique(n + w - 1, U16 - 1, q, r + w);
      } else if r + w < 2 * (U16 - 1) {
        DivModUnique(n + w - 1, U16 - 1, q + 1, r + w - (U16 - 1));
      }
    } else if w > 0 {
      if w == U16 - 1 {
        DivModUnique(w - 1, U16 - 1, 0, w - 1);
      }
    }
  }

  lemma {:induction false} OnesSumFolds(ws: seq<int>)
    requires Halves(ws)
    ensures 0 <= Total(ws) <= |ws| * (U16 - 1) && OnesSum(ws) == Folded(Total(ws))
    decreases |ws|
  {
    if ws != [] {
      OnesSumFolds(ws[..|ws| - 1]);
      FoldedAdd(Total(ws[..|ws| - 1]), ws[|ws| - 1]);
    }
  }

  /** What the one's complement sum is: congruent to the sum modulo 2^16 - 1, and zero for zeroes only. */
  lemma OnesSumIs(ws: seq<int>)
    requires Halves(ws)
    ensures 0 <= OnesSum(ws) < 0x1_0000 && OnesSum(ws) % 0xffff == Total(ws) % 0xffff
    ensures OnesSum(ws) == 0 <==> Total(ws) == 0
  {
    OnesSumFolds(ws);
    var n := Total(ws);
    if n > 0 {
      var q, r := (n - 1) / 0xffff, (n - 1) % 0xffff;
      assert n == 0xffff * q + (r + 1);
      if r + 1 == 0xffff {
        DivModUnique(n, 0xffff, q + 1, 0);
      } else {
        DivModUnique(n, 0xffff, q, r + 1);
      }
    }
  }

  lemma {:induction false} TotalJoin(s: seq<int>, t: seq<int>)
    ensures Total(s + t) == Total(s) + Total(t)
    ensures |t| == 1 ==> Total(t) == t[0]
    decreases |t|
  {
    if t == [] {
      assert s + t == s;
    } else {
      assert (s + t)[..|s + t| - 1] == s + t[..|t| - 1];
      TotalJoin(s, t[..|t| - 1]);
    }
  }

  /** The buffer as words: two bytes each, high byte first, an odd last byte padded on the right. */
  lemma {:induction false} WordAt(bs: seq<int>, i: nat)
    requires 2 * i < |bs|
    ensures |WordsOf(bs)| == (|bs| + 1) / 2
    ensures WordsOf(bs)[i] == 256 * bs[2 * i] + (if 2 * i + 1 < |bs| then bs[2 * i + 1] else 0)
    decreases |bs|
  {
    if |bs| >= 2 {
      if i > 0 {
        WordAt(bs[2..], i - 1);
      } else if |bs| > 2 {
        WordAt(bs[2..], 0);
      }
    }
  }

  /** The example of RFC 1071, section 3. */
  lemma RfcExample()
    ensures OnesSum([0x0001, 0xf203, 0xf4f5, 0xf6f7]) == 0xddf2
  {
    var ws := [0x0001, 0xf203, 0xf4f5, 0xf6f7];
    assert ws[..3] == [0x0001, 0xf203, 0xf4f5] && ws[..3][..2] == [0x0001, 0xf203] && ws[..3][..2][..1] == [0x0001];
    assert OnesSum([0x0001]) == 1 by { assert [0x0001][..0] == []; }
  }

  /** Adding the high half to the low half twice and truncating. */
  function TwoFolds(sum: word): int {
    var s := sum / U16 + sum % U16;
    (s + s / U16) % U16
  }

  /** Two folds of any 32-bit sum leave its one's complement representative. */
  lemma TwoFoldsEnough(sum: word)
    ensures TwoFolds(sum) == Folded(sum)
  {
    var h, l := sum / U16, sum % U16;
    assert sum == U16 * h + l && 0 <= h < U16;
    if sum > 0 {
      if h + l <= U16 - 1 {
        DivModUnique(sum - 1, U16 - 1, h, h + l - 1);
      } else {
        DivModUnique(sum - 1, U16 - 1, h + 1, h + l - U16);
      }
    }
  }

  lemma {:induction false} TotalFront(w: int, ws: seq<int>)
    ensures Total([w] + ws) == w + Total(ws)
    decreases |ws|
  {
    if ws == [] {
      assert [w] + ws == [w];
      assert Total([w]) == Total([]) + w;
    } else {
      assert ([w] + ws)[..|ws|] == [w] + ws[..|ws| - 1];
      TotalFront(w, ws[..|ws| - 1]);
    }
  }

  /** inet_cksum.  The 32-bit accumulator holds the sum of up to 65537 words exactly. */
  method InetCksum(bs: array<int>, len: nat) returns (answer: int)
    requires len <= bs.Length && Bytes(bs[..])
    ensures answer == U16 - 1 - TwoFolds(Wrap(Total(WordsOf(bs[..len]))))
    ensures len <= 2 * 65537 ==> answer == U16 - 1 - OnesSum(WordsOf(bs[..len]))
  {
    hide WordsOf, Total, OnesSum, TwoFolds;
    var nleft, w := len, 0;
    var sum: word := 0;
    assert bs[0..len] == bs[..len];
    while nleft > 1
      invariant w + nleft == len && nleft >= 0
      invariant Wrap(sum + Total(WordsOf(bs[w..len]))) == Wrap(Total(WordsOf(bs[..len])))
      decreases nleft
    {
      var t := bs[w] * 256 + bs[w + 1];
      FirstWord(bs[w..len], bs[w + 2..len]);
      WrapAdd(sum + t, Total(WordsOf(bs[w + 2..len])));
      sum := Wrap(sum + t);
      w := w + 2;
      nleft := nleft - 2;
    }
    if nleft == 1 {
      assert bs[w..len] == [bs[w]];
      LastByte(bs[w]);
      sum := Wrap(sum + bs[w] * 256);
    } else {
      assert bs[w..len] == [];
      NoBytes();
    }
    answer := U16 - 1 - TwoFolds(sum);
    NoOverflow(bs[..len]);
  }

  lemma NoBytes()
    ensures Total(WordsOf([])) == 0
  {
  }

  lemma FirstWord(bs: seq<int>, rest: seq<int>)
    requires |bs| >= 2 && rest == bs[2..]
    ensures Total(WordsOf(bs)) == bs[0] * 256 + bs[1] + Total(WordsOf(rest))
  {
    TotalFront(bs[0] * 256 + bs[1], WordsOf(rest));
  }

  lemma LastByte(b: int)
    ensures Total(WordsOf([b])) == b * 256
  {
    assert WordsOf([b]) == [b * 256];
    assert Total([b * 256]) == Total([]) + b * 256;
  }

  lemma WrapAdd(x: int, y: int)
    ensures Wrap(Wrap(x) + y) == Wrap(x + y)
  {
  }

  lemma NoOverflow(bs: seq<int>)
    requires Bytes(bs)
    ensures |bs| <= 2 * 65537 ==> TwoFolds(Wrap(Total(WordsOf(bs)))) == OnesSum(WordsOf(bs))
  {
    hide WordsOf, Total, OnesSum, TwoFolds, Folded, Halves;
    var ws := WordsOf(bs);
    WordsAreHalves(bs);
    OnesSumFolds(ws);
    TwoFoldsEnough(Wrap(Total(ws)));
    Exact(|ws|, Total(ws));
  }

  lemma Exact(n: nat, total: int)
    requires 0 <= total <= n * (U16 - 1)
    ensures n <= 65537 ==> Wrap(total) == total
  {
  }

  // ---- A stored checksum makes the sum vanish ----

  function Check(bs: seq<int>): int {
    U16 - 1 - OnesSum(WordsOf(bs))
  }

  /** The bytes with value v in the aligned field number i. */
  function WithField(bs: seq<int>, i: nat, v: int): seq<int>
    requires 2 * i + 1 < |bs|
  {
    bs[2 * i := v / 256][2 * i + 1 := v % 256]
  }

  lemma {:induction false} FieldIsWord(bs: seq<int>, i: nat, v: int)
    requires 2 * i + 1 < |bs|
    ensures i < |WordsOf(bs)| && WordsOf(bs)[i] == bs[2 * i] * 256 + bs[2 * i + 1]
    ensures WordsOf(WithField(bs, i, v)) == WordsOf(bs)[i := v]
    decreases i
  {
    var cs := WithField(bs, i, v);
    if i == 0 {
      assert cs[2..] == bs[2..];
      assert v / 256 * 256 + v % 256 == v;
    } else {
      FieldIsWord(bs[2..], i - 1, v);
      assert cs[2..] == WithField(bs[2..], i - 1, v);
    }
  }

  lemma {:induction false} TotalUpdate(ws: seq<int>, i: nat, v: int)
    requires i < |ws|
    ensures Total(ws[i := v]) == Total(ws) - ws[i] + v
    decreases |ws|
  {
    var n := |ws| - 1;
    if i < n {
      TotalUpdate(ws[..n], i, v);
      assert ws[i := v][..n] == ws[..n][i := v];
    } else {
      assert ws[i := v][..n] == ws[..n];
    }
  }

  /** The checksum of a message whose zeroed, aligned field has been filled with its checksum is 0. */
  lemma StoredChecksumVerifies(bs: seq<int>, i: nat)
    requires Bytes(bs) && 2 * i + 1 < |bs| && bs[2 * i] == 0 && bs[2 * i + 1] == 0
    ensures 0 <= Check(bs) < U16 && Check(WithField(bs, i, Check(bs))) == 0
  {
    var ws, c := WordsOf(bs), Check(bs);
    WordsAreHalves(bs);
    OnesSumFolds(ws);
    FieldIsWord(bs, i, c);
    WordsAreHalves(WithField(bs, i, c));
    OnesSumFolds(WordsOf(WithField(bs, i, c)));
    TotalUpdate(ws, i, c);
    FoldedComplement(Total(ws));
  }

  lemma FoldedComplement(n: nat)
    ensures 0 <= Folded(n) < U16 && Folded(n + (U16 - 1 - Folded(n))) == U16 - 1
  {
    if n > 0 {
      var q, r := (n - 1) / (U16 - 1), (n - 1) % (U16 - 1);
      DivModUnique(n + (U16 - 1 - Folded(n)) - 1, U16 - 1, q, U16 - 2);
    }
  }
}
