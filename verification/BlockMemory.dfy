/** The behavioural model of an asymmetric block memory: an array of cells of the smallest port
    width, read and written through ports of different widths, seen as one flat array of bits. */
module BlockMemory {
  import opened Words

  /** A port's access of one kind: its width in bits, the ratio that its address is divided by, the
      number of addressable words, and the byte size when byte enables are used (0 when not). */
  datatype Access = Access(width: nat, addrDiv: nat, depth: nat, byteSize: nat)

  // ---- The flat view ----

  /** The bits of the cells one after the other, least significant first. */
  function Flatten(cells: seq<seq<bool>>): seq<bool> {
    if cells == [] then [] else cells[0] + Flatten(cells[1..])
  }

  predicate Uniform(cells: seq<seq<bool>>, w: nat) {
    forall i :: 0 <= i < |cells| ==> |cells[i]| == w
  }

  function Splice(flat: seq<bool>, lo: int, piece: seq<bool>): seq<bool>
    requires 0 <= lo <= lo + |piece| <= |flat|
  {
    flat[..lo] + piece + flat[lo + |piece|..]
  }

  lemma {:induction false} FlattenSplit(xs: seq<seq<bool>>, ys: seq<seq<bool>>)
    ensures Flatten(xs + ys) == Flatten(xs) + Flatten(ys)
    decreases |xs|
  {
    if xs == [] {
      assert xs + ys == ys;
    } else {
      assert (xs + ys)[1..] == xs[1..] + ys;
      FlattenSplit(xs[1..], ys);
    }
  }

  lemma {:induction false} FlattenLength(cells: seq<seq<bool>>, w: nat)
    requires Uniform(cells, w)
    ensures |Flatten(cells)| == |cells| * w
    decreases |cells|
  {
    if cells != [] {
      FlattenLength(cells[1..], w);
      assert |cells| * w == w + (|cells| - 1) * w;
    }
  }

  lemma Distribute(x: int, y: int, w: int)
    ensures (x + y) * w == x * w + y * w
  {
  }

  lemma Middle(x: seq<bool>, y: seq<bool>, z: seq<bool>)
    ensures (x + (y + z))[|x|..|x| + |y|] == y
  {
  }

  /** A run of cells is a slice of the bits. */
  lemma FlattenSlice(cells: seq<seq<bool>>, w: nat, i: nat, n: nat)
    requires Uniform(cells, w) && i + n <= |cells|
    ensures 0 <= i * w <= i * w + n * w <= |Flatten(cells)|
    ensures Flatten(cells[i..i + n]) == Flatten(cells)[i * w..i * w + n * w]
  {
    var xs, ys, zs := cells[..i], cells[i..i + n], cells[i + n..];
    assert cells == xs + (ys + zs);
    FlattenSplit(xs, ys + zs);
    FlattenSplit(ys, zs);
    FlattenLength(xs, w);
    FlattenLength(ys, w);
    Middle(Flatten(xs), Flatten(ys), Flatten(zs));
  }

  lemma SpliceMiddle(x: seq<bool>, y: seq<bool>, z: seq<bool>, y': seq<bool>)
    requires |y| == |y'|
    ensures Splice(x + (y + z), |x|, y') == x + (y' + z)
  {
    var f := x + (y + z);
    assert f[..|x|] == x;
    assert f[|x| + |y'|..] == z;
    assert x + y' + z == x + (y' + z);
  }

  /** Replacing a run of cells replaces a slice of the bits. */
  lemma FlattenReplace(cells: seq<seq<bool>>, w: nat, i: nat, ys: seq<seq<bool>>)
    requires Uniform(cells, w) && Uniform(ys, w) && i + |ys| <= |cells|
    ensures 0 <= i * w <= i * w + |Flatten(ys)| <= |Flatten(cells)|
    ensures Flatten(cells[..i] + (ys + cells[i + |ys|..])) == Splice(Flatten(cells), i * w, Flatten(ys))
  {
    var xs, old', zs := cells[..i], cells[i..i + |ys|], cells[i + |ys|..];
    assert cells == xs + (old' + zs);
    FlattenSplit(xs, old' + zs);
    FlattenSplit(old', zs);
    FlattenSplit(xs, ys + zs);
    FlattenSplit(ys, zs);
    FlattenLength(xs, w);
    FlattenLength(old', w);
    FlattenLength(ys, w);
    SpliceMiddle(Flatten(xs), Flatten(old'), Flatten(zs), Flatten(ys));
  }

  /** A word cut into cells. */
  function Cut(bits: seq<bool>, w: nat, n: nat): (cells: seq<seq<bool>>)
    requires |bits| == n * w
    ensures |cells| == n
    decreases n
  {
    if n == 0 then [] else
      Distribute(1, n - 1, w);
      [bits[..w]] + Cut(bits[w..], w, n - 1)
  }

  lemma {:induction false} CutWhole(bits: seq<bool>, w: nat, n: nat)
    requires |bits| == n * w
    ensures Uniform(Cut(bits, w, n), w) && Flatten(Cut(bits, w, n)) == bits
    decreases n
  {
    if n > 0 {
      Distribute(1, n - 1, w);
      CutWhole(bits[w..], w, n - 1);
    }
  }

  lemma {:induction false} CutAt(bits: seq<bool>, w: nat, n: nat, i: nat)
    requires |bits| == n * w && i < n
    ensures 0 <= i * w <= i * w + w <= |bits| && Cut(bits, w, n)[i] == bits[i * w..i * w + w]
    decreases n
  {
    Distribute(1, n - 1, w);
    if i > 0 {
      Distribute(1, i - 1, w);
      CutAt(bits[w..], w, n - 1, i - 1);
      var j := (i - 1) * w;
      assert bits[w..][j..j + w] == bits[w + j..w + j + w];
    }
  }

  // ---- What an access means for the flat bits ----

  /** The old word with the enabled bytes of data. */
  function Merged(was: seq<bool>, data: seq<bool>, byteEn: seq<bool>, byteSize: nat): (r: seq<bool>)
    requires |was| == |data| == |byteEn| * byteSize && byteSize > 0
    ensures |r| == |data|
  {
    seq(|data|, k requires 0 <= k < |data| =>
      ByteIndex(k, |byteEn|, byteSize); if byteEn[k / byteSize] then data[k] else was[k])
  }

  lemma ByteIndex(k: nat, n: nat, size: nat)
    requires size > 0 && k < n * size
    ensures 0 <= k / size < n
  {
    var q := k / size;
    assert size * q <= k;
    Order(q, n, size);
  }

  lemma Order(q: int, n: int, size: int)
    requires size > 0 && q * size < n * size
    ensures q < n
  {
    Distribute(n, 0 - q, size);
  }

  /** The word a write leaves. */
  function WordWritten(was: seq<bool>, data: seq<bool>, byteEn: seq<bool>, byteSize: nat): (r: seq<bool>)
    requires |was| == |data| && (byteSize > 0 ==> |data| == |byteEn| * byteSize)
    ensures |r| == |data|
  {
    if byteSize > 0 then Merged(was, data, byteEn, byteSize) else data
  }

  predicate InRange(flat: seq<bool>, p: Access, addr: nat) {
    p.addrDiv > 0 && addr / p.addrDiv < p.depth && p.depth * p.width <= |flat|
  }

  /** The position of the first bit of the word an address selects. */
  function Position(p: Access, addr: nat): nat
    requires p.addrDiv > 0
  {
    addr / p.addrDiv * p.width
  }

  lemma PositionInside(flat: seq<bool>, p: Access, addr: nat)
    requires InRange(flat, p, addr)
    ensures 0 <= Position(p, addr) <= Position(p, addr) + p.width <= |flat|
  {
    var i := addr / p.addrDiv;
    assert (i + 1) * p.width == i * p.width + p.width;
    assert (p.depth - i - 1) * p.width >= 0;
    assert (p.depth - i - 1) * p.width == p.depth * p.width - (i + 1) * p.width;
  }

  function Word(flat: seq<bool>, p: Access, addr: nat): (r: seq<bool>)
    requires InRange(flat, p, addr)
    ensures |r| == p.width
  {
    PositionInside(flat, p, addr);
    flat[Position(p, addr)..Position(p, addr) + p.width]
  }

  /** Plain bit writes: the flat memory after a write through port p. */
  function Written(flat: seq<bool>, p: Access, addr: nat, byteEn: seq<bool>, data: seq<bool>): (r: seq<bool>)
    requires p.addrDiv > 0 && p.depth * p.width <= |flat|
    requires |data| == p.width && (p.byteSize > 0 ==> p.width == |byteEn| * p.byteSize)
    ensures |r| == |flat|
  {
    if addr / p.addrDiv < p.depth then
      PositionInside(flat, p, addr);
      Splice(flat, Position(p, addr), WordWritten(Word(flat, p, addr), data, byteEn, p.byteSize))
    else flat
  }

  lemma WrittenAt(flat: seq<bool>, p: Access, addr: nat, byteEn: seq<bool>, data: seq<bool>, k: nat)
    requires InRange(flat, p, addr) && k < |flat|
    requires |data| == p.width && (p.byteSize > 0 ==> p.width == |byteEn| * p.byteSize)
    ensures var lo := Position(p, addr);
      Written(flat, p, addr, byteEn, data)[k]
      == if lo <= k < lo + p.width && Enabled(p, byteEn, k - lo) then data[k - lo] else flat[k]
  {
    hide Splice, WordWritten, Position;
    PositionInside(flat, p, addr);
    var lo, was := Position(p, addr), Word(flat, p, addr);
    SplicedAt(flat, lo, WordWritten(was, data, byteEn, p.byteSize), k);
    if lo <= k < lo + p.width {
      WordWrittenBit(was, data, byteEn, p, k - lo);
    }
  }

  lemma WordWrittenBit(was: seq<bool>, data: seq<bool>, byteEn: seq<bool>, p: Access, j: nat)
    requires |was| == |data| && (p.byteSize > 0 ==> |data| == |byteEn| * p.byteSize) && j < |data|
    ensures |WordWritten(was, data, byteEn, p.byteSize)| == |data|
    ensures WordWritten(was, data, byteEn, p.byteSize)[j] == if Enabled(p, byteEn, j) then data[j] else was[j]
  {
    if p.byteSize > 0 {
      ByteIndex(j, |byteEn|, p.byteSize);
    }
  }

  /** Bit by bit: an enabled bit of the word has the new value, every other bit of the memory the old. */
  lemma WrittenBit(flat: seq<bool>, p: Access, addr: nat, byteEn: seq<bool>, data: seq<bool>, k: nat)
    requires InRange(flat, p, addr) && k < |flat|
    requires |data| == p.width && (p.byteSize > 0 ==> p.width == |byteEn| * p.byteSize)
    ensures var lo := addr / p.addrDiv * p.width;
      Written(flat, p, addr, byteEn, data)[k]
      == if lo <= k < lo + p.width
            && (p.byteSize > 0 ==> (k - lo) / p.byteSize < |byteEn| && byteEn[(k - lo) / p.byteSize])
         then data[k - lo] else flat[k]
  {
    hide Written;
    WrittenAt(flat, p, addr, byteEn, data, k);
  }

  predicate Enabled(p: Access, byteEn: seq<bool>, k: nat) {
    p.byteSize > 0 ==> k / p.byteSize < |byteEn| && byteEn[k / p.byteSize]
  }

  // ---- Sequences of writes through ports of any width ----

  datatype Op = Op(p: Access, addr: nat, byteEn: seq<bool>, data: seq<bool>)

  predicate Performable(size: nat, o: Op) {
    && o.p.addrDiv > 0 && o.p.depth * o.p.width <= size
    && |o.data| == o.p.width && (o.p.byteSize > 0 ==> o.p.width == |o.byteEn| * o.p.byteSize)
  }

  predicate AllPerformable(size: nat, ops: seq<Op>)
    decreases |ops|
  {
    ops != [] ==> Performable(size, ops[|ops| - 1]) && AllPerformable(size, ops[..|ops| - 1])
  }

  function RunOps(flat: seq<bool>, ops: seq<Op>): (r: seq<bool>)
    requires AllPerformable(|flat|, ops)
    ensures |r| == |flat|
    decreases |ops|
  {
    if ops == [] then flat
    else
      var o := ops[|ops| - 1];
      Written(RunOps(flat, ops[..|ops| - 1]), o.p, o.addr, o.byteEn, o.data)
  }

  /** The operation writes bit k of the flat memory. */
  predicate Touches(o: Op, k: nat) {
    o.p.addrDiv > 0 && o.addr / o.p.addrDiv < o.p.depth
    && (var lo := o.addr / o.p.addrDiv * o.p.width; lo <= k < lo + o.p.width && Enabled(o.p, o.byteEn, k - lo))
  }

  /** The bit written last, port widths notwithstanding. */
  function LastBit(flat: seq<bool>, ops: seq<Op>, k: nat): bool
    requires k < |flat| && AllPerformable(|flat|, ops)
    decreases |ops|
  {
    if ops == [] then flat[k]
    else
      var o := ops[|ops| - 1];
      if Touches(o, k) then o.data[k - o.addr / o.p.addrDiv * o.p.width] else LastBit(flat, ops[..|ops| - 1], k)
  }

  /** Whatever ports the writes go through, every bit of the memory is the one written to it last. */
  lemma {:induction false} LastWriterWins(flat: seq<bool>, ops: seq<Op>, k: nat)
    requires k < |flat| && AllPerformable(|flat|, ops)
    ensures RunOps(flat, ops)[k] == LastBit(flat, ops, k)
    decreases |ops|
  {
    hide Written;
    if ops != [] {
      var o, front := ops[|ops| - 1], ops[..|ops| - 1];
      LastWriterWins(flat, front, k);
      if o.addr / o.p.addrDiv < o.p.depth {
        WrittenBit(RunOps(flat, front), o.p, o.addr, o.byteEn, o.data, k);
      } else {
        OutOfRange(RunOps(flat, front), o);
      }
    }
  }

  lemma OutOfRange(flat: seq<bool>, o: Op)
    requires Performable(|flat|, o) && o.addr / o.p.addrDiv >= o.p.depth
    ensures Written(flat, o.p, o.addr, o.byteEn, o.data) == flat
  {
  }

  /** A read through one port after writes through the others returns, bit by bit, what was written
      last at address * width + k. */
  lemma ReadSeesLastWrites(flat: seq<bool>, ops: seq<Op>, q: Access, addr: nat, k: nat)
    requires AllPerformable(|flat|, ops) && InRange(flat, q, addr) && k < q.width
    ensures addr / q.addrDiv * q.width + k < |flat|
    ensures Word(RunOps(flat, ops), q, addr)[k] == LastBit(flat, ops, addr / q.addrDiv * q.width + k)
  {
    hide RunOps, LastBit;
    PositionInside(flat, q, addr);
    LastWriterWins(flat, ops, Position(q, addr) + k);
  }

  // ---- The memory itself ----

  /** The bytes applied so far by the byte-enable loop. */
  function MergedUpTo(was: seq<bool>, data: seq<bool>, byteEn: seq<bool>, byteSize: nat, n: nat): (r: seq<bool>)
    requires |was| == |data| == |byteEn| * byteSize && byteSize > 0 && n <= |byteEn|
    ensures |r| == |data|
  {
    seq(|data|, k requires 0 <= k < |data| =>
      ByteIndex(k, |byteEn|, byteSize); if k / byteSize < n && byteEn[k / byteSize] then data[k] else was[k])
  }

  lemma ByteRange(k: nat, n: nat, size: nat)
    requires size > 0
    ensures k / size == n <==> n * size <= k < n * size + size
  {
    if n * size <= k < n * size + size {
      DivModUnique(k, size, n, k - n * size);
    }
  }

  lemma ByteBelow(k: nat, n: nat, size: nat)
    requires size > 0
    ensures k / size < n <==> k < n * size
  {
    var q := k / size;
    assert q * size <= k < q * size + size;
    if k < n * size {
      Order(q, n, size);
    } else {
      NotAbove(q, n, k, size);
    }
  }

  lemma NotAbove(q: nat, n: nat, k: nat, size: nat)
    requires n * size <= k < q * size + size && size > 0
    ensures n <= q
  {
    Distribute(q, 1, size);
    Order(n, q + 1, size);
  }

  lemma ApplyByte(was: seq<bool>, data: seq<bool>, byteEn: seq<bool>, size: nat, i: nat)
    requires |was| == |data| == |byteEn| * size && size > 0 && i < |byteEn|
    ensures 0 <= i * size <= i * size + size <= |data|
    ensures var c := MergedUpTo(was, data, byteEn, size, i);
      MergedUpTo(was, data, byteEn, size, i + 1)
      == if byteEn[i] then c[..i * size] + data[i * size..i * size + size] + c[i * size + size..] else c
  {
    Distribute(|byteEn| - i - 1, i + 1, size);
    Distribute(i, 1, size);
    var c, d := MergedUpTo(was, data, byteEn, size, i), MergedUpTo(was, data, byteEn, size, i + 1);
    var e := if byteEn[i] then c[..i * size] + data[i * size..i * size + size] + c[i * size + size..] else c;
    forall k | 0 <= k < |data| ensures d[k] == e[k] {
      ByteIndex(k, |byteEn|, size);
      ByteRange(k, i, size);
      ByteBelow(k, i, size);
    }
    assert d == e;
  }

  class Memory {
    const cells: array<seq<bool>>
    const cellWidth: nat

    ghost predicate Valid()
      reads this, cells
    {
      cellWidth > 0 && Uniform(cells[..], cellWidth)
    }

    ghost function Flat(): seq<bool>
      reads this, cells
    {
      Flatten(cells[..])
    }

    /** The port's words are whole numbers of cells, all inside the array. */
    predicate Serves(p: Access)
      reads this
    {
      && cellWidth > 0 && p.addrDiv > 0 && p.width == p.width / cellWidth * cellWidth
      && p.depth * (p.width / cellWidth) <= cells.Length
    }

    constructor (width: nat, depth: nat)
      requires width > 0
      ensures Valid() && fresh(cells) && cellWidth == width && cells.Length == depth
      ensures Flat() == seq(depth * width, k => false)
    {
      cellWidth := width;
      cells := new seq<bool>[depth](_ => seq(width, j => false));
      new;
      AllFalse(cells[..], width);
    }

    /** The cells of one word, one after the other. */
    method Collect(first: nat, n: nat) returns (contents: seq<bool>)
      requires Valid() && first + n <= cells.Length
      ensures 0 <= first * cellWidth <= first * cellWidth + n * cellWidth <= |Flat()|
      ensures contents == Flat()[first * cellWidth..first * cellWidth + n * cellWidth]
    {
      contents := [];
      for i := 0 to n
        invariant contents == Flatten(cells[first..first + i])
      {
        contents := contents + cells[first + i];
        assert cells[first..first + i + 1] == cells[first..first + i] + [cells[first + i]];
        FlattenSplit(cells[first..first + i], [cells[first + i]]);
        assert Flatten([cells[first + i]]) == cells[first + i];
      }
      FlattenSlice(cells[..], cellWidth, first, n);
      assert cells[..][first..first + n] == cells[first..first + n];
    }

    method Store(first: nat, n: nat, contents: seq<bool>)
      requires Valid() && first + n <= cells.Length && |contents| == n * cellWidth
      modifies cells
      ensures Valid() && 0 <= first * cellWidth <= first * cellWidth + |contents| <= |old(Flat())|
      ensures Flat() == Splice(old(Flat()), first * cellWidth, contents)
    {
      hide Flatten, Splice;
      ghost var before, pieces := cells[..], Cut(contents, cellWidth, n);
      CutWhole(contents, cellWidth, n);
      FlattenReplace(before, cellWidth, first, pieces);
      for i := 0 to n
        invariant forall j :: 0 <= j < cells.Length ==>
          cells[j] == if first <= j < first + i then pieces[j - first] else before[j]
      {
        CutAt(contents, cellWidth, n, i);
        cells[first + i] := contents[i * cellWidth..i * cellWidth + cellWidth];
      }
      assert cells[..] == before[..first] + (pieces + before[first + n..]);
    }

    /** Byte enables: the enabled bytes of data over the old word. */
    method Merge(was: seq<bool>, data: seq<bool>, byteEn: seq<bool>, size: nat) returns (contents: seq<bool>)
      requires |was| == |data| == |byteEn| * size && size > 0
      ensures contents == Merged(was, data, byteEn, size)
    {
      contents := was;
      for i := 0 to |byteEn|
        invariant contents == MergedUpTo(was, data, byteEn, size, i)
      {
        ApplyByte(was, data, byteEn, size, i);
        if byteEn[i] {
          contents := contents[..i * size] + data[i * size..i * size + size] + contents[i * size + size..];
        }
      }
      AllMerged(was, data, byteEn, size);
    }

    method SetBit(i: nat, j: nat, b: bool)
      requires Valid() && i < cells.Length && j < cellWidth
      modifies cells
      ensures Valid() && 0 <= i * cellWidth + j < |old(Flat())| && Flat() == old(Flat())[i * cellWidth + j := b]
    {
      hide Flatten;
      FlattenBit(cells[..], cellWidth, i, j, b);
      cells[i] := cells[i][j := b];
      assert cells[..] == old(cells[..])[i := old(cells[i])[j := b]];
    }

    /** init_memory, default data: the word repeated over all cells. */
    method LoadDefault(data: seq<bool>)
      requires Valid() && |data| > 0
      modifies cells
      ensures Valid() && |Flat()| == |old(Flat())| == cells.Length * cellWidth
      ensures forall k :: 0 <= k < |Flat()| ==> Flat()[k] == data[k % |data|]
    {
      hide Flatten;
      FlattenLength(cells[..], cellWidth);
      var index := 0;
      for i := 0 to cells.Length
        invariant Valid() && |Flat()| == cells.Length * cellWidth
        invariant index == i * cellWidth % |data|
        invariant forall k :: 0 <= k < |Flat()| && k < i * cellWidth ==> Flat()[k] == data[k % |data|]
      {
        for j := 0 to cellWidth
          invariant Valid() && |Flat()| == cells.Length * cellWidth
          invariant index == (i * cellWidth + j) % |data|
          invariant forall k :: 0 <= k < |Flat()| && k < i * cellWidth + j ==> Flat()[k] == data[k % |data|]
        {
          SetBit(i, j, data[index]);
          NextIndex(i * cellWidth + j, |data|);
          index := (index + 1) % |data|;
        }
        Distribute(i, 1, cellWidth);
      }
    }

    /** init_memory, initialisation file: each line is the next word of write port A, or of that port made
        as deep as the memory if the file is longer.  The last line that is read must fit. */
    method LoadLines(p: Access, lines: seq<seq<bool>>)
      requires Valid() && Serves(p) && p.width > 0 && p.width / cellWidth > 0
      requires |lines| <= cells.Length / (p.width / cellWidth) || cells.Length % (p.width / cellWidth) == 0
      modifies cells
      ensures Valid() && p.depth <= cells.Length / (p.width / cellWidth)
      ensures var q := p.(depth := cells.Length / (p.width / cellWidth));
        && q.depth * q.width <= |old(Flat())| && Flat() == LinesWritten(old(Flat()), q, lines, 0)
        && LinesIn(Flat(), old(Flat()), q, lines)
      ensures |lines| <= p.depth ==> p.depth * p.width <= |old(Flat())| && Flat() == LinesWritten(old(Flat()), p, lines, 0)
    {
      hide Flatten, Splice, LinesWritten, Padded, Uniform, LinesIn;
      var n := p.width / cellWidth;
      var q := p.(depth := cells.Length / n);
      Deepest(p.depth, n, cells.Length);
      ghost var start := Flat();
      FlattenLength(cells[..], cellWidth);
      Fits(p.depth, n, cellWidth, p.width, cells.Length);
      LoadWords(q, lines, n);
      AllLoaded(start, q, lines);
      if |lines| <= p.depth {
        SameLines(start, p, q, lines, 0);
      }
    }

    /** The loop over the lines, for a port as deep as the memory. */
    method LoadWords(p: Access, lines: seq<seq<bool>>, n: nat)
      requires Valid() && Serves(p) && p.width > 0 && n == p.width / cellWidth
      requires |lines| <= p.depth || p.depth * n == cells.Length
      modifies cells
      ensures Valid() && p.depth * p.width <= |old(Flat())| && Flat() == LinesWritten(old(Flat()), p, lines, 0)
    {
      hide Flatten, Splice, LinesWritten, Padded, Uniform;
      FlattenLength(cells[..], cellWidth);
      WholeBits(p.depth, n, cellWidth, p.width);
      Distribute(p.depth * n, cells.Length - p.depth * n, cellWidth);
      ghost var start := Flat();
      var i, line := 0, 0;
      while i < cells.Length && line < |lines|
        invariant Valid() && i == line * n && line <= p.depth && |Flat()| == |start|
        invariant LinesWritten(start, p, lines, 0) == LinesWritten(Flat(), p, lines, line)
      {
        LineFits(line, p.depth, n, i, cells.Length);
        LineWritten(Flat(), p, lines, line, n, cellWidth);
        LoadWord(i, n, Padded(lines[line], p.width));
        i := i + n;
        line := line + 1;
      }
      if i >= cells.Length {
        AllLines(p.depth, n, line, i, cells.Length);
      }
      LinesEnd(Flat(), p, lines, line);
    }

    /** The bit loop of init_memory for one line, from cell number first on. */
    method LoadWord(first: nat, n: nat, bits: seq<bool>)
      requires Valid() && first + n <= cells.Length && |bits| == n * cellWidth && n > 0
      modifies cells
      ensures Valid() && 0 <= first * cellWidth <= first * cellWidth + |bits| <= |old(Flat())|
      ensures Flat() == Splice(old(Flat()), first * cellWidth, bits)
    {
      hide Flatten, Splice, Uniform;
      FlattenSlice(cells[..], cellWidth, first, n);
      ghost var start := Flat();
      var i := first;
      SpliceNothing(start, first * cellWidth, bits);
      ghost var q, r := 0, 0;
      for j := 0 to |bits|
        invariant Valid() && |Flat()| == |start| && i == first + q
        invariant j == q * cellWidth + r && 0 <= q && 0 <= r <= cellWidth && (j > 0 ==> r > 0)
        invariant Flat() == Splice(start, first * cellWidth, bits[..j])
      {
        NextCell(j, q, r, cellWidth);
        if j % cellWidth == 0 && j != 0 {
          i := i + 1;
          q, r := q + 1, 0;
        }
        BitInCell(first, n, q, r, cellWidth, j);
        SetBit(i, j % cellWidth, bits[j]);
        SpliceNext(start, first * cellWidth, bits, j);
        r := r + 1;
      }
      assert bits[..|bits|] == bits;
    }

    /** write_a and write_b. */
    method Write(p: Access, addr: nat, byteEn: seq<bool>, data: seq<bool>)
      requires Valid() && Serves(p) && p.depth * p.width <= |Flat()|
      requires |data| == p.width && (p.byteSize > 0 ==> p.width == |byteEn| * p.byteSize)
      modifies cells
      ensures Valid() && Flat() == Written(old(Flat()), p, addr, byteEn, data)
    {
      hide Flatten, Splice, Merged, Written, Word, Uniform;
      var addressI, n := addr / p.addrDiv, p.width / cellWidth;
      OutsideUnwritten(Flat(), p, addr, byteEn, data);
      if addressI >= p.depth {
        return;
      }
      WordCells(addressI, p.depth, n, cellWidth, cells.Length);
      InsideWritten(Flat(), p, addr, byteEn, data, n, cellWidth);
      var contents := data;
      if p.byteSize > 0 {
        var was := Collect(addressI * n, n);
        contents := Merge(was, data, byteEn, p.byteSize);
      }
      Store(addressI * n, n, contents);
    }

    /** read_a and read_b: latch is the output before the clock edge. */
    method Read(p: Access, addr: nat, reset: bool, initial: seq<bool>, latch: seq<bool>) returns (out: seq<bool>)
      requires Valid() && Serves(p) && p.depth * p.width <= |Flat()|
      ensures out == if reset then initial else if InRange(Flat(), p, addr) then Word(Flat(), p, addr) else latch
      ensures !reset && addr / p.addrDiv < p.depth ==>
        forall k :: 0 <= k < p.width ==>
          k < |out| && addr / p.addrDiv * p.width + k < |Flat()| && out[k] == Flat()[addr / p.addrDiv * p.width + k]
    {
      if reset {
        return initial;
      }
      var addressI, n := addr / p.addrDiv, p.width / cellWidth;
      if addressI >= p.depth {
        return latch;
      }
      WordCells(addressI, p.depth, n, cellWidth, cells.Length);
      out := Collect(addressI * n, n);
    }
  }

  lemma AllMerged(was: seq<bool>, data: seq<bool>, byteEn: seq<bool>, size: nat)
    requires |was| == |data| == |byteEn| * size && size > 0
    ensures MergedUpTo(was, data, byteEn, size, |byteEn|) == Merged(was, data, byteEn, size)
  {
    forall k | 0 <= k < |data|
      ensures MergedUpTo(was, data, byteEn, size, |byteEn|)[k] == Merged(was, data, byteEn, size)[k]
    {
      ByteIndex(k, |byteEn|, size);
    }
  }

  lemma OutsideUnwritten(flat: seq<bool>, p: Access, addr: nat, byteEn: seq<bool>, data: seq<bool>)
    requires p.addrDiv > 0 && p.depth * p.width <= |flat|
    requires |data| == p.width && (p.byteSize > 0 ==> p.width == |byteEn| * p.byteSize)
    ensures addr / p.addrDiv >= p.depth ==> Written(flat, p, addr, byteEn, data) == flat
  {
  }

  /** A write in terms of cells: n cells of w bits from cell number i * n on. */
  lemma InsideWritten(flat: seq<bool>, p: Access, addr: nat, byteEn: seq<bool>, data: seq<bool>, n: nat, w: nat)
    requires InRange(flat, p, addr) && p.width == n * w
    requires |data| == p.width && (p.byteSize > 0 ==> p.width == |byteEn| * p.byteSize)
    requires (addr / p.addrDiv * n) * w == addr / p.addrDiv * (n * w)
    ensures var lo := (addr / p.addrDiv * n) * w;
      && 0 <= lo <= lo + n * w <= |flat|
      && Written(flat, p, addr, byteEn, data)
         == Splice(flat, lo, WordWritten(flat[lo..lo + n * w], data, byteEn, p.byteSize))
  {
    PositionInside(flat, p, addr);
  }

  /** The cells of word i of a port. */
  lemma WordCells(i: nat, depth: nat, n: nat, w: nat, length: nat)
    requires i < depth && depth * n <= length
    ensures i * n + n <= length && (i * n) * w == i * (n * w)
  {
    Distribute(i, 1, n);
    Distribute(depth - i - 1, i + 1, n);
    assert (depth - i - 1) * n >= 0;
  }

  lemma {:induction false} AllFalse(cells: seq<seq<bool>>, w: nat)
    requires forall i :: 0 <= i < |cells| ==> cells[i] == seq(w, j => false)
    ensures Flatten(cells) == seq(|cells| * w, k => false)
    decreases |cells|
  {
    if cells != [] {
      AllFalse(cells[1..], w);
      Distribute(1, |cells| - 1, w);
    }
  }

  lemma FlattenBit(cells: seq<seq<bool>>, w: nat, i: nat, j: nat, b: bool)
    requires Uniform(cells, w) && i < |cells| && j < w
    ensures 0 <= i * w + j < |Flatten(cells)|
    ensures Flatten(cells[i := cells[i][j := b]]) == Flatten(cells)[i * w + j := b]
  {
    hide Flatten, Splice;
    var piece := cells[i][j := b];
    FlattenReplace(cells, w, i, [piece]);
    FlattenSlice(cells, w, i, 1);
    FlattenOne(piece);
    FlattenOne(cells[i]);
    assert cells[i..i + 1] == [cells[i]];
    assert cells[i := piece] == cells[..i] + ([piece] + cells[i + 1..]);
    SpliceBit(Flatten(cells), i * w, cells[i], j, b);
  }

  /** Bit j of cell i in the flat memory. */
  lemma CellBit(cells: seq<seq<bool>>, w: nat, i: nat, j: nat)
    requires Uniform(cells, w) && i < |cells| && j < w
    ensures i * w + j < |Flatten(cells)| && Flatten(cells)[i * w + j] == cells[i][j]
  {
    hide Flatten;
    FlattenBit(cells, w, i, j, cells[i][j]);
    FlattenSlice(cells, w, i, 1);
    assert cells[i..i + 1] == [cells[i]];
    FlattenOne(cells[i]);
    assert Flatten(cells)[i * w..i * w + 1 * w][j] == Flatten(cells)[i * w + j];
  }

  lemma FlattenOne(piece: seq<bool>)
    ensures Flatten([piece]) == piece
  {
    assert [piece][1..] == [];
  }

  lemma SpliceBit(flat: seq<bool>, lo: nat, piece: seq<bool>, j: nat, b: bool)
    requires lo + |piece| <= |flat| && j < |piece| && flat[lo..lo + |piece|] == piece
    ensures Splice(flat, lo, piece[j := b]) == flat[lo + j := b]
  {
  }

  lemma NextIndex(x: nat, m: nat)
    requires m > 0
    ensures (x % m + 1) % m == (x + 1) % m
  {
    var q, r := x / m, x % m;
    assert x + 1 == m * q + (r + 1);
    if r + 1 < m {
      DivModUnique(x + 1, m, q, r + 1);
      DivModUnique(r + 1, m, 0, r + 1);
    } else {
      DivModUnique(x + 1, m, q + 1, 0);
      DivModUnique(m, m, 1, 0);
    }
  }

  /** A line read into a cleared word: shorter lines leave the upper bits 0. */
  function Padded(line: seq<bool>, width: nat): (r: seq<bool>)
    ensures |r| == width
  {
    seq(width, k requires 0 <= k < width => k < |line| && line[k])
  }

  /** One whole-word write per line, from line i on, as far as the memory goes. */
  function LinesWritten(flat: seq<bool>, p: Access, lines: seq<seq<bool>>, i: nat): (r: seq<bool>)
    requires p.addrDiv > 0 && p.depth * p.width <= |flat|
    ensures |r| == |flat|
    decreases |lines| - i
  {
    if i >= |lines| || i >= p.depth then flat
    else LinesWritten(Written(flat, p.(byteSize := 0), i * p.addrDiv, [], Padded(lines[i], p.width)), p, lines, i + 1)
  }

  lemma LineWritten(flat: seq<bool>, p: Access, lines: seq<seq<bool>>, i: nat, n: nat, w: nat)
    requires p.addrDiv > 0 && p.depth * p.width <= |flat| && i < |lines| && i < p.depth && p.width == n * w
    ensures 0 <= (i * n) * w <= (i * n) * w + p.width <= |flat|
    ensures LinesWritten(flat, p, lines, i)
         == LinesWritten(Splice(flat, (i * n) * w, Padded(lines[i], p.width)), p, lines, i + 1)
  {
    DivModUnique(i * p.addrDiv, p.addrDiv, i, 0);
    PositionInside(flat, p.(byteSize := 0), i * p.addrDiv);
    assert (i * n) * w == i * (n * w);
  }

  lemma LinesEnd(flat: seq<bool>, p: Access, lines: seq<seq<bool>>, i: nat)
    requires p.addrDiv > 0 && p.depth * p.width <= |flat| && (i >= |lines| || i >= p.depth)
    ensures LinesWritten(flat, p, lines, i) == flat
  {
  }

  /** The deepest port of n cells a word that the memory serves. */
  lemma Deepest(depth: nat, n: nat, length: nat)
    requires n > 0 && depth * n <= length
    ensures depth <= length / n && length / n * n <= length
    ensures length % n == 0 ==> length / n * n == length
  {
    assert length / n * n + length % n == length;
    var q, r := length / n, length % n;
    assert length == q * n + r;
    Distribute(q, 1, n);
    Order(depth, q + 1, n);
  }

  lemma Fits(depth: nat, n: nat, w: nat, width: nat, length: nat)
    requires width == n * w && depth * n <= length
    ensures depth * width <= length * w
  {
    Distribute(depth * n, length - depth * n, w);
    assert (depth * n) * w == depth * (n * w);
  }

  /** A port deep enough for all lines may be made deeper. */
  lemma {:induction false} SameLines(flat: seq<bool>, p: Access, q: Access, lines: seq<seq<bool>>, i: nat)
    requires p.addrDiv > 0 && q == p.(depth := q.depth) && |lines| <= p.depth <= q.depth
    requires p.depth * p.width <= |flat| && q.depth * q.width <= |flat|
    ensures LinesWritten(flat, p, lines, i) == LinesWritten(flat, q, lines, i)
    decreases |lines| - i
  {
    hide Written, Padded;
    if i < |lines| {
      var a := i * p.addrDiv;
      DivModUnique(a, p.addrDiv, i, 0);
      var data := Padded(lines[i], p.width);
      SameWord(flat, p.(byteSize := 0), q.(byteSize := 0), a, data);
      SameLines(Written(flat, p.(byteSize := 0), a, [], data), p, q, lines, i + 1);
    }
  }

  lemma SameWord(flat: seq<bool>, p: Access, q: Access, addr: nat, data: seq<bool>)
    requires p.addrDiv > 0 && q == p.(depth := q.depth) && addr / p.addrDiv < p.depth <= q.depth && p.byteSize == 0
    requires p.depth * p.width <= |flat| && q.depth * q.width <= |flat| && |data| == p.width
    ensures Written(flat, p, addr, [], data) == Written(flat, q, addr, [], data)
  {
    PositionInside(flat, p, addr);
    PositionInside(flat, q, addr);
  }

  /** Bit by bit what loading leaves: the words of the port that have a line hold it, all other bits are as
      before. */
  lemma {:induction false} LinesLoaded(flat: seq<bool>, p: Access, lines: seq<seq<bool>>, i: nat, k: nat)
    requires p.addrDiv > 0 && p.width > 0 && p.depth * p.width <= |flat| && k < |flat|
    ensures LinesWritten(flat, p, lines, i)[k]
         == if i <= k / p.width < |lines| && k / p.width < p.depth
            then k % p.width < |lines[k / p.width]| && lines[k / p.width][k % p.width]
            else flat[k]
    decreases |lines| - i
  {
    hide Written, Splice;
    if i < |lines| && i < p.depth {
      LineWritten(flat, p, lines, i, 1, p.width);
      var lo, piece := (i * 1) * p.width, Padded(lines[i], p.width);
      LinesLoaded(Splice(flat, lo, piece), p, lines, i + 1, k);
      SplicedAt(flat, lo, piece, k);
      WordOfBit(i, p.width, k);
    }
  }

  /** The words of the port that have a line hold its bits, the missing ones 0; all other bits are as in was. */
  predicate LinesIn(now: seq<bool>, was: seq<bool>, p: Access, lines: seq<seq<bool>>) {
    && |now| == |was| && p.width > 0
    && forall k :: 0 <= k < |was| ==>
         now[k] == if k / p.width < |lines| && k / p.width < p.depth
                   then k % p.width < |lines[k / p.width]| && lines[k / p.width][k % p.width]
                   else was[k]
  }

  lemma AllLoaded(flat: seq<bool>, p: Access, lines: seq<seq<bool>>)
    requires p.addrDiv > 0 && p.width > 0 && p.depth * p.width <= |flat|
    ensures LinesIn(LinesWritten(flat, p, lines, 0), flat, p, lines)
  {
    hide LinesWritten;
    forall k | 0 <= k < |flat|
      ensures LinesWritten(flat, p, lines, 0)[k]
           == if k / p.width < |lines| && k / p.width < p.depth
              then k % p.width < |lines[k / p.width]| && lines[k / p.width][k % p.width]
              else flat[k]
    {
      LinesLoaded(flat, p, lines, 0, k);
    }
  }

  lemma SplicedAt(flat: seq<bool>, lo: int, piece: seq<bool>, k: nat)
    requires 0 <= lo <= lo + |piece| <= |flat| && k < |flat|
    ensures Splice(flat, lo, piece)[k] == if lo <= k < lo + |piece| then piece[k - lo] else flat[k]
  {
  }

  lemma WordOfBit(i: nat, w: nat, k: nat)
    requires w > 0
    ensures k / w == i <==> i * w <= k < i * w + w
    ensures k / w == i ==> k % w == k - i * w
  {
    if i * w <= k < i * w + w {
      DivModUnique(k, w, i, k - i * w);
    }
  }

  /** A file longer than the port, in a memory deeper than the port: the lines behind the port's last word
      are loaded too, while writes through the port leave those bits as they were. */
  lemma LongFile(flat: seq<bool>, p: Access, q: Access, lines: seq<seq<bool>>, k: nat)
    requires p.addrDiv > 0 && p.width > 0 && q == p.(depth := q.depth) && k < |flat|
    requires p.depth * p.width <= |flat| && q.depth * q.width <= |flat|
    requires p.depth <= k / p.width < |lines| && k / p.width < q.depth
    ensures LinesWritten(flat, q, lines, 0)[k]
         == (k % p.width < |lines[k / p.width]| && lines[k / p.width][k % p.width])
    ensures LinesWritten(flat, p, lines, 0)[k] == flat[k]
  {
    hide LinesWritten, Padded;
    LinesLoaded(flat, p, lines, 0, k);
    LinesLoaded(flat, q, lines, 0, k);
  }

  lemma WholeBits(depth: nat, n: nat, w: nat, width: nat)
    requires width == n * w && width > 0
    ensures (depth * n) * w == depth * width && n > 0
  {
  }

  lemma LineFits(line: nat, depth: nat, n: nat, i: nat, length: nat)
    requires i == line * n && depth * n <= length && n > 0 && i < length && (line < depth || length == depth * n)
    ensures line < depth && i + n <= length && i + n == (line + 1) * n
  {
    if length == depth * n {
      Order(line, depth, n);
    }
    Distribute(line, 1, n);
    Distribute(depth - line - 1, line + 1, n);
  }

  lemma AllLines(depth: nat, n: nat, line: nat, i: nat, length: nat)
    requires i == line * n && depth * n <= length && n > 0 && i >= length
    ensures line >= depth
  {
    Distribute(depth, 0 - line, n);
    assert depth > line ==> (depth - line) * n > 0;
  }

  /** The bit loop moves on to the next cell exactly when the current one is full. */
  lemma NextCell(j: nat, q: nat, r: nat, w: nat)
    requires w > 0 && j == q * w + r && r <= w && (j > 0 ==> r > 0)
    ensures j % w == 0 && j != 0 <==> r == w
    ensures r == w ==> j == (q + 1) * w + 0
  {
    Distribute(q, 1, w);
    if r == w {
      DivModUnique(j, w, q + 1, 0);
    } else {
      DivModUnique(j, w, q, r);
    }
  }

  /** Bit j of a word is bit r of its cell q. */
  lemma BitInCell(first: nat, n: nat, q: nat, r: nat, w: nat, j: nat)
    requires j == q * w + r && r < w && j < n * w
    ensures j % w == r && q < n && (first + q) * w + r == first * w + j
  {
    DivModUnique(j, w, q, r);
    Distribute(first, q, w);
    Order(q, n, w);
  }

  lemma SpliceNothing(flat: seq<bool>, lo: nat, bits: seq<bool>)
    requires lo <= |flat|
    ensures Splice(flat, lo, bits[..0]) == flat
  {
  }

  lemma SpliceNext(flat: seq<bool>, lo: nat, bits: seq<bool>, j: nat)
    requires lo + |bits| <= |flat| && j < |bits|
    ensures Splice(flat, lo, bits[..j])[lo + j := bits[j]] == Splice(flat, lo, bits[..j + 1])
  {
  }
}
