/** Address collisions between the ports of an asymmetric block memory: the comparison of scaled
    addresses decides whether the accessed ranges of cells overlap. */
module Collision {
  import opened Words

  /** The least w with v <= 2^w. */
  function CeilLog(v: nat): nat
    decreases v
  {
    if v <= 1 then 0 else 1 + CeilLog((v + 1) / 2)
  }

  lemma {:induction false} CeilLogBounds(v: nat)
    ensures v <= Pow2(CeilLog(v))
    ensures v > 1 ==> CeilLog(v) > 0 && Pow2(CeilLog(v) - 1) < v
    decreases v
  {
    if v > 1 {
      CeilLogBounds((v + 1) / 2);
    }
  }

  lemma {:induction false} Pow2Ordered(a: nat, b: nat)
    ensures Pow2(a) < Pow2(b) <==> a < b
    decreases a + b
  {
    if a > 0 && b > 0 {
      Pow2Ordered(a - 1, b - 1);
    } else if a > 0 {
      Pow2Ordered(a - 1, b);
    } else if b > 0 {
      Pow2Ordered(a, b - 1);
    }
  }

  /** Only one exponent satisfies the bounds. */
  lemma CeilLogUnique(v: nat, w: nat)
    requires v <= Pow2(w) && (w > 0 ==> Pow2(w - 1) < v)
    ensures w == CeilLog(v)
  {
    CeilLogBounds(v);
    var c := CeilLog(v);
    if c < w {
      Pow2Ordered(w - 1, c);
    } else if w < c {
      Pow2Ordered(c - 1, w);
    }
  }

  /** log2roundup. */
  method Log2Roundup(v: nat) returns (width: nat)
    ensures width == CeilLog(v)
    ensures v <= Pow2(width) && (v > 1 ==> width > 0 && Pow2(width - 1) < v)
  {
    CeilLogBounds(v);
    width := 0;
    if v <= 1 {
      return;
    }
    var cnt := 1;
    while cnt < v
      invariant cnt == Pow2(width) && width <= CeilLog(v)
      invariant width > 0 ==> Pow2(width - 1) < v
    {
      Pow2Ordered(width, CeilLog(v));
      width := width + 1;
      cnt := cnt * 2;
    }
    CeilLogUnique(v, width);
  }

  /** Data widths of the four accesses and the address widths of the two ports. */
  datatype Shape = Shape(writeA: nat, readA: nat, writeB: nat, readB: nat, addrA: nat, addrB: nat)

  function Min(a: nat, b: nat): nat {
    if a < b then a else b
  }

  predicate Positive(sh: Shape) {
    sh.writeA > 0 && sh.readA > 0 && sh.writeB > 0 && sh.readB > 0
  }

  function MinA(sh: Shape): nat {
    Min(sh.writeA, sh.readA)
  }

  function MinB(sh: Shape): nat {
    Min(sh.writeB, sh.readB)
  }

  /** Both addresses scaled to the coarser of the two effective address widths are equal. */
  predicate SameScaled(addrA: nat, widthA: int, effectiveA: int, addrB: nat, widthB: int, effectiveB: int) {
    var e := if effectiveA > effectiveB then effectiveB else effectiveA;
    e <= widthA && e <= widthB && addrA / Pow2(widthA - e) == addrB / Pow2(widthB - e)
  }

  /** collision_check. */
  predicate CollisionCheck(sh: Shape, a: nat, isWriteA: bool, b: nat, isWriteB: bool)
    requires Positive(sh)
  {
    var writeAddrA := sh.addrA - CeilLog(sh.writeA / MinA(sh));
    var readAddrA := sh.addrA - CeilLog(sh.readA / MinA(sh));
    var writeAddrB := sh.addrB - CeilLog(sh.writeB / MinB(sh));
    var readAddrB := sh.addrB - CeilLog(sh.readB / MinB(sh));
    || (isWriteA && isWriteB && SameScaled(a, sh.addrA, writeAddrA, b, sh.addrB, writeAddrB))
    || (isWriteA && SameScaled(a, sh.addrA, writeAddrA, b, sh.addrB, readAddrB))
    || (isWriteB && SameScaled(a, sh.addrA, readAddrA, b, sh.addrB, writeAddrB))
  }

  /** Cells lo up to but not including hi. */
  datatype Range = Range(lo: int, hi: int)

  predicate Overlap(x: Range, y: Range) {
    x.lo < y.hi && y.lo < x.hi
  }

  /** The cells an access of width bits at an address of the port touches, as the read and write
      procedures compute them: the address divided by the port's ratio, times cells per access. */
  function Cells(addr: nat, width: nat, portMin: nat, cell: nat): Range
    requires 0 < portMin <= width && 0 < cell
  {
    var first := addr / (width / portMin) * (width / cell);
    Range(first, first + width / cell)
  }

  /** Every width is the cell width times a power of two: 2^p, 2^q for port A, 2^r, 2^t for port B. */
  predicate Dyadic(sh: Shape, cell: nat, p: nat, q: nat, r: nat, t: nat) {
    && cell > 0
    && sh.writeA == cell * Pow2(p) && sh.readA == cell * Pow2(q)
    && sh.writeB == cell * Pow2(r) && sh.readB == cell * Pow2(t)
    && Min(Min(p, q), Min(r, t)) == 0
  }

  function Times(x: int, y: int): int {
    x * y
  }

  /** Both ports address the same number of bits. */
  predicate SameCapacity(sh: Shape) {
    Times(MinA(sh), Pow2(sh.addrA)) == Times(MinB(sh), Pow2(sh.addrB))
  }

  lemma {:induction false} CeilLogPower(k: nat)
    ensures CeilLog(Pow2(k)) == k
    decreases k
  {
    if k > 0 {
      CeilLogPower(k - 1);
      assert (Pow2(k) + 1) / 2 == Pow2(k - 1);
    }
  }

  /** Dividing in two steps. */
  lemma DivTwice(a: nat, x: nat, y: nat)
    requires x > 0 && y > 0
    ensures x * y > 0 && a / (x * y) == a / x / y
  {
    var q, r, s := a / x / y, a / x % y, a % x;
    assert a == x * (y * q + r) + s;
    assert x * (y * q + r) == (x * y) * q + x * r;
    MulBound(x, r - (y - 1));
    assert x * (r - (y - 1)) == x * r - x * y + x;
    MulBound(x, y);
    DivModUnique(a, x * y, q, x * r + s);
  }

  /** An aligned range of 2^p cells meets an aligned range of 2^(p+d) cells exactly when it lies in it. */
  lemma NestedOverlap(i: nat, j: nat, u: nat, n: nat)
    requires u > 0 && n > 0
    ensures Overlap(Range(i * u, i * u + u), Range(j * (u * n), j * (u * n) + u * n)) <==> i / n == j
  {
    var lo := j * n;
    assert j * (u * n) == u * lo && j * (u * n) + u * n == u * (lo + n);
    assert i * u == u * i;
    MulOrder(u, i, lo + n);
    MulOrder(u, lo, i + 1);
    assert lo == n * j;
    if lo <= i < lo + n {
      DivModUnique(i, n, j, i - lo);
    }
  }

  lemma MulOrder(u: nat, x: int, y: int)
    requires u > 0
    ensures u * x < u * y <==> x < y
  {
    MulBound(u, y - x);
    assert u * (y - x) == u * y - u * x;
  }

  /** The cells of an access at level p of a port whose smallest access is at level c. */
  function Block(a: nat, p: nat, c: nat): Range
    requires c <= p
  {
    var first := a / Pow2(p - c) * Pow2(p);
    Range(first, first + Pow2(p))
  }

  lemma ScaledAddress(a: nat, p: nat, r: nat, c: nat)
    requires c <= p <= r
    ensures a / Pow2(r - c) == a / Pow2(p - c) / Pow2(r - p)
  {
    Pow2Add(p - c, r - p);
    DivTwice(a, Pow2(p - c), Pow2(r - p));
  }

  lemma FinerFirst(a: nat, p: nat, ca: nat, b: nat, r: nat, cb: nat)
    requires ca <= p <= r && cb <= r
    ensures Overlap(Block(a, p, ca), Block(b, r, cb)) <==> a / Pow2(r - ca) == b / Pow2(r - cb)
  {
    hide Pow2, Overlap;
    ScaledAddress(a, p, r, ca);
    Pow2Add(p, r - p);
    NestedRanges(a / Pow2(p - ca), b / Pow2(r - cb), Pow2(p), Pow2(r - p), Pow2(r));
  }

  lemma NestedRanges(i: nat, j: nat, u: nat, n: nat, v: nat)
    requires u > 0 && n > 0 && v == u * n
    ensures Overlap(Range(i * u, i * u + u), Range(j * v, j * v + v)) <==> i / n == j
  {
    NestedOverlap(i, j, u, n);
  }

  /** Two accesses: the scaled addresses match exactly when the ranges overlap. */
  lemma PairCollides(a: nat, p: nat, ca: nat, addrA: nat, b: nat, r: nat, cb: nat, addrB: nat)
    requires ca <= p && cb <= r && addrA + ca == addrB + cb
    ensures SameScaled(a, addrA, addrA - (p - ca), b, addrB, addrB - (r - cb))
       <==> Overlap(Block(a, p, ca), Block(b, r, cb))
  {
    if p <= r {
      FinerFirst(a, p, ca, b, r, cb);
    } else {
      FinerFirst(b, r, cb, a, p, ca);
    }
  }

  /** The sizes of a port in terms of exponents. */
  lemma PortSizes(cell: nat, p: nat, q: nat)
    requires cell > 0
    ensures Min(cell * Pow2(p), cell * Pow2(q)) == cell * Pow2(Min(p, q)) > 0
    ensures cell * Pow2(p) / (cell * Pow2(Min(p, q))) == Pow2(p - Min(p, q))
    ensures cell * Pow2(p) / cell == Pow2(p)
    ensures cell * Pow2(Min(p, q)) <= cell * Pow2(p)
  {
    Pow2Ordered(p, q);
    MulOrder(cell, Pow2(p), Pow2(q));
    var c := Min(p, q);
    Pow2Add(c, p - c);
    assert cell * Pow2(p) == (cell * Pow2(c)) * Pow2(p - c);
    MulBound(cell, Pow2(c));
    DivModUnique(cell * Pow2(p), cell * Pow2(c), Pow2(p - c), 0);
    DivModUnique(cell * Pow2(p), cell, Pow2(p), 0);
    Pow2Ordered(c, p);
    MulOrder(cell, Pow2(c), Pow2(p));
  }

  lemma Cancel(u: int, x: int, y: int, z: int, w: int)
    requires u > 0 && Times(Times(u, x), y) == Times(Times(u, z), w)
    ensures Times(x, y) == Times(z, w)
  {
    assert (u * x) * y == u * (x * y) && (u * z) * w == u * (z * w);
    MulOrder(u, x * y, z * w);
    MulOrder(u, z * w, x * y);
  }

  lemma Pow2Times(a: nat, b: nat)
    ensures Pow2(a + b) == Times(Pow2(a), Pow2(b))
  {
    Pow2Add(a, b);
  }

  lemma EqualBits(cell: nat, ca: nat, addrA: nat, cb: nat, addrB: nat)
    requires cell > 0 && Times(Times(cell, Pow2(ca)), Pow2(addrA)) == Times(Times(cell, Pow2(cb)), Pow2(addrB))
    ensures ca + addrA == cb + addrB
  {
    hide Pow2, Times;
    Cancel(cell, Pow2(ca), Pow2(addrA), Pow2(cb), Pow2(addrB));
    Pow2Times(ca, addrA);
    Pow2Times(cb, addrB);
    SameExponent(ca + addrA, cb + addrB);
  }

  lemma SameExponent(a: nat, b: nat)
    requires Pow2(a) == Pow2(b)
    ensures a == b
  {
    Pow2Ordered(a, b);
    Pow2Ordered(b, a);
  }

  /** An access of a port, by exponents. */
  lemma AccessCells(a: nat, cell: nat, p: nat, q: nat, portMin: nat)
    requires cell > 0 && portMin == Min(cell * Pow2(p), cell * Pow2(q)) && 0 < portMin <= cell * Pow2(p)
    ensures Cells(a, cell * Pow2(p), portMin, cell) == Block(a, p, Min(p, q))
    ensures CeilLog(cell * Pow2(p) / portMin) == p - Min(p, q)
  {
    PortSizes(cell, p, q);
    CeilLogPower(p - Min(p, q));
  }

  /** For dyadic widths and ports of equal capacity a collision is reported exactly when a write
      overlaps the other port's write or read in some cell. */
  lemma CollisionExact(sh: Shape, cell: nat, p: nat, q: nat, r: nat, t: nat,
                       a: nat, isWriteA: bool, b: nat, isWriteB: bool)
    requires Positive(sh) && Dyadic(sh, cell, p, q, r, t) && SameCapacity(sh)
    ensures CollisionCheck(sh, a, isWriteA, b, isWriteB) <==>
      || (isWriteA && isWriteB
          && Overlap(Cells(a, sh.writeA, MinA(sh), cell), Cells(b, sh.writeB, MinB(sh), cell)))
      || (isWriteA && Overlap(Cells(a, sh.writeA, MinA(sh), cell), Cells(b, sh.readB, MinB(sh), cell)))
      || (isWriteB && Overlap(Cells(a, sh.readA, MinA(sh), cell), Cells(b, sh.writeB, MinB(sh), cell)))
  {
    hide Pow2, Overlap, CeilLog, Block, Cells, SameScaled;
    var ca, cb := Min(p, q), Min(r, t);
    PortSizes(cell, p, q);
    PortSizes(cell, q, p);
    PortSizes(cell, r, t);
    PortSizes(cell, t, r);
    EqualBits(cell, ca, sh.addrA, cb, sh.addrB);
    AccessCells(a, cell, p, q, MinA(sh));
    AccessCells(a, cell, q, p, MinA(sh));
    AccessCells(b, cell, r, t, MinB(sh));
    AccessCells(b, cell, t, r, MinB(sh));
    PairCollides(a, p, ca, sh.addrA, b, r, cb, sh.addrB);
    PairCollides(a, p, ca, sh.addrA, b, t, cb, sh.addrB);
    PairCollides(a, q, ca, sh.addrA, b, r, cb, sh.addrB);
  }
}
