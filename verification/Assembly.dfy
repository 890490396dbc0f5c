/** Assembling the emulation code: every routine fits its 32-byte vector, and the assembled
    bytes are an image of the kind the emulation proofs start from. */
module Assembly {
  import opened Words
  import opened Isa
  import opened Cpu
  import opened Immediate
  import opened Crt0
  import opened StackCode
  import opened Images
  import opened CodeRuns

  /** The opcode byte of the instructions emulation code consists of. */
  function OpByte(op: Op): (b: int)
    ensures 0 <= b < 128
  {
    match op
    case LoadSp(k) => if k < 16 then 112 + k else if k < 32 then 80 + k else 0
    case StoreSp(k) => if k < 16 then 80 + k else if k < 32 then 48 + k else 0
    case AddSp(k) => if k < 16 then 16 + k else 0
    case PushSp => 2
    case PopPc => 4
    case Binary(Add) => 5
    case Binary(And_) => 6
    case Binary(Or_) => 7
    case Load => 8
    case Unary(Not_) => 9
    case Unary(Flip_) => 10
    case Nop => 11
    case Store => 12
    case PopSp => 13
    case _ => EmulateCode(op)
  }

  /** Instructions that OpByte encodes. */
  predicate Coded(op: Op) {
    Decode(OpByte(op)) == op
  }

  predicate EndsIm(code: Code) {
    code.End? || StartsWithIm(code)
  }

  /** Every instruction has an opcode byte, and every run of IM bytes is ended by another instruction. */
  predicate Assemblable(code: Code)
    decreases code
  {
    match code
    case End => true
    case Imm(v, next) => !EndsIm(next) && Assemblable(next)
    case ImmOf(s, next) => !EndsIm(next) && Assemblable(next)
    case Loadsp(k, next) => k < 32 && Assemblable(next)
    case Storesp(k, next) => k < 32 && Assemblable(next)
    case Addsp(k, next) => k < 16 && Assemblable(next)
    case Un(g, next) => Coded(Unary(g)) && Assemblable(next)
    case Bin(f, next) => Coded(Binary(f)) && Assemblable(next)
    case Noop(next) => Assemblable(next)
    case Other(op, next) => Coded(op) && Assemblable(next)
  }

  function ImBytes(gs: seq<nat>): seq<int> {
    seq(|gs|, j requires 0 <= j < |gs| => 128 + gs[j])
  }

  function Bytes(code: Code, lay: Layout): seq<int>
    decreases code
  {
    match code
    case End => []
    case Imm(v, next) => ImBytes(Encode(Signed(v))) + Bytes(next, lay)
    case ImmOf(s, next) => ImBytes(Encode(Signed(Address(s, lay)))) + Bytes(next, lay)
    case Loadsp(k, next) => [OpByte(LoadSp(k))] + Bytes(next, lay)
    case Storesp(k, next) => [OpByte(StoreSp(k))] + Bytes(next, lay)
    case Addsp(k, next) => [OpByte(AddSp(k))] + Bytes(next, lay)
    case Un(g, next) => [OpByte(Unary(g))] + Bytes(next, lay)
    case Bin(f, next) => [OpByte(Binary(f))] + Bytes(next, lay)
    case Noop(next) => [OpByte(Nop)] + Bytes(next, lay)
    case Other(op, next) => [OpByte(op)] + Bytes(next, lay)
  }

  ghost predicate ByteIs(img: Image, a: int, b: int) {
    0 <= a < RAM_SIZE && a / 4 in img && Byte(img[a / 4], a % 4) == b
  }

  /** The bytes from address a on are bs. */
  ghost predicate BytesAt(img: Image, a: int, bs: seq<int>) {
    forall j :: 0 <= j < |bs| ==> ByteIs(img, a + j, bs[j])
  }

  lemma BytesTail(img: Image, a: int, bs: seq<int>, cs: seq<int>)
    requires BytesAt(img, a, bs + cs)
    ensures BytesAt(img, a, bs) && BytesAt(img, a + |bs|, cs)
  {
    hide ByteIs;
    forall j | 0 <= j < |bs| ensures ByteIs(img, a + j, bs[j]) {
      assert (bs + cs)[j] == bs[j];
    }
    forall j | 0 <= j < |cs| ensures ByteIs(img, a + |bs| + j, cs[j]) {
      assert (bs + cs)[|bs| + j] == cs[j];
      assert a + (|bs| + j) == a + |bs| + j;
    }
  }

  lemma FirstAt(img: Image, a: int, bs: seq<int>)
    requires BytesAt(img, a, bs) && |bs| > 0
    ensures ByteIs(img, a, bs[0])
  {
    assert ByteIs(img, a + 0, bs[0]);
  }

  /** A run of IM bytes ended by another instruction is read back whole. */
  lemma {:induction false} RunReadBack(img: Image, a: int, gs: seq<nat>, b: int)
    requires BytesAt(img, a, ImBytes(gs)) && (forall j :: 0 <= j < |gs| ==> gs[j] < 128)
    requires ByteIs(img, a + |gs|, b) && b < 128
    ensures ImGroups(img, a) == gs
    decreases |gs|
  {
    if gs != [] {
      assert ImBytes(gs) == [128 + gs[0]] + ImBytes(gs[1..]);
      BytesTail(img, a, [128 + gs[0]], ImBytes(gs[1..]));
      FirstAt(img, a, [128 + gs[0]]);
      RunReadBack(img, a + 1, gs[1..], b);
      assert gs == [gs[0]] + gs[1..];
    }
  }

  lemma FirstByte(code: Code, lay: Layout)
    requires Assemblable(code) && !EndsIm(code)
    ensures |Bytes(code, lay)| > 0 && Bytes(code, lay)[0] < 128
  {
  }

  lemma ImHolds(img: Image, a: int, v: word, rest: seq<int>)
    requires BytesAt(img, a, ImBytes(Encode(Signed(v))) + rest) && |rest| > 0 && rest[0] < 128
    ensures ImIn(img, a, v) && AfterIm(img, a) == a + |Encode(Signed(v))|
  {
    var gs := Encode(Signed(v));
    BytesTail(img, a, ImBytes(gs), rest);
    FirstAt(img, a + |gs|, rest);
    RunReadBack(img, a, gs, rest[0]);
    ImmediateRoundTrip(v);
  }

  lemma OpHolds(img: Image, a: int, op: Op, rest: seq<int>)
    requires BytesAt(img, a, [OpByte(op)] + rest) && Coded(op)
    ensures OpIn(img, a, op) && BytesAt(img, a + 1, rest)
  {
    BytesTail(img, a, [OpByte(op)], rest);
    FirstAt(img, a, [OpByte(op)]);
  }

  lemma CodedStack(k: nat)
    ensures k < 32 ==> Coded(LoadSp(k)) && Coded(StoreSp(k))
    ensures k < 16 ==> Coded(AddSp(k))
    ensures Coded(Nop)
  {
  }

  function Width(v: word): nat {
    |Encode(Signed(v))|
  }

  /** The number of bytes in front of the first instruction that stops straight-line execution. */
  function Prefix(code: Code, lay: Layout): nat
    decreases code
  {
    match code
    case End => 0
    case Other(op, next) => 0
    case Imm(v, next) => Width(v) + Prefix(next, lay)
    case ImmOf(s, next) => Width(Address(s, lay)) + Prefix(next, lay)
    case Loadsp(k, next) => 1 + Prefix(next, lay)
    case Storesp(k, next) => 1 + Prefix(next, lay)
    case Addsp(k, next) => 1 + Prefix(next, lay)
    case Un(g, next) => 1 + Prefix(next, lay)
    case Bin(f, next) => 1 + Prefix(next, lay)
    case Noop(next) => 1 + Prefix(next, lay)
  }

  /** Assembled bytes are the code. */
  lemma {:induction false} Assembled(img: Image, lay: Layout, a: int, code: Code)
    requires Assemblable(code) && BytesAt(img, a, Bytes(code, lay))
    ensures Holds(img, lay, a, code) && BranchAddress(img, a, code) == a + Prefix(code, lay)
    decreases code
  {
    hide OpByte, Encode, Decode, ImIn, OpIn, AfterIm, BytesAt, ImBytes;
    match code
    case End =>
    case Imm(v, next) =>
      ImItem(img, lay, a, v, next);
      Assembled(img, lay, a + |Encode(Signed(v))|, next);
    case ImmOf(s, next) =>
      ImItem(img, lay, a, Address(s, lay), next);
      Assembled(img, lay, a + |Encode(Signed(Address(s, lay)))|, next);
    case Loadsp(k, next) =>
      CodedStack(k);
      OpHolds(img, a, LoadSp(k), Bytes(next, lay));
      Assembled(img, lay, a + 1, next);
    case Storesp(k, next) =>
      CodedStack(k);
      OpHolds(img, a, StoreSp(k), Bytes(next, lay));
      Assembled(img, lay, a + 1, next);
    case Addsp(k, next) =>
      CodedStack(k);
      OpHolds(img, a, AddSp(k), Bytes(next, lay));
      Assembled(img, lay, a + 1, next);
    case Un(g, next) =>
      OpHolds(img, a, Unary(g), Bytes(next, lay));
      Assembled(img, lay, a + 1, next);
    case Bin(f, next) =>
      OpHolds(img, a, Binary(f), Bytes(next, lay));
      Assembled(img, lay, a + 1, next);
    case Noop(next) =>
      CodedStack(0);
      OpHolds(img, a, Nop, Bytes(next, lay));
      Assembled(img, lay, a + 1, next);
    case Other(op, next) =>
      OpHolds(img, a, op, Bytes(next, lay));
      Assembled(img, lay, a + 1, next);
  }

  lemma ImItem(img: Image, lay: Layout, a: int, v: word, next: Code)
    requires BytesAt(img, a, ImBytes(Encode(Signed(v))) + Bytes(next, lay)) && Assemblable(next) && !EndsIm(next)
    ensures ImIn(img, a, v) && AfterIm(img, a) == a + |Encode(Signed(v))|
    ensures BytesAt(img, a + |Encode(Signed(v))|, Bytes(next, lay))
  {
    hide BytesAt, ImIn, Bytes, Encode, ImGroups;
    FirstByte(next, lay);
    ImHolds(img, a, v, Bytes(next, lay));
    BytesTail(img, a, ImBytes(Encode(Signed(v))), Bytes(next, lay));
  }

  // ---- Every routine fits its vector ----

  /** The number of bytes of a piece of code if every link-time value takes five IM bytes. */
  function Size(code: Code): nat
    decreases code
  {
    match code
    case End => 0
    case Imm(v, next) => Width(v) + Size(next)
    case ImmOf(s, next) => 5 + Size(next)
    case Other(op, next) => 1 + Size(next)
    case Loadsp(k, next) => 1 + Size(next)
    case Storesp(k, next) => 1 + Size(next)
    case Addsp(k, next) => 1 + Size(next)
    case Un(g, next) => 1 + Size(next)
    case Bin(f, next) => 1 + Size(next)
    case Noop(next) => 1 + Size(next)
  }

  lemma AnyWidth(v: word)
    ensures 1 <= Width(v) <= 5
  {
    EncodeValue(Signed(v));
    EncodeShortest(Signed(v), Encode(Signed(v)));
  }

  lemma {:induction false} SizeOfBytes(code: Code, lay: Layout)
    ensures |Bytes(code, lay)| <= Size(code)
    decreases code
  {
    if !code.End? {
      SizeOfBytes(code.next, lay);
      if code.ImmOf? {
        AnyWidth(Address(code.s, lay));
      }
    }
  }

  lemma SmallWidths()
    ensures Width(0) == 1 && Width(1) == 1 && Width(2) == 1 && Width(3) == 1 && Width(4) == 1 && Width(31) == 1
    ensures Width(255) == 2 && Width(0xffff) == 3
    ensures Width(0xffff_ffff) == 1 && Width(0xffff_fffc) == 1 && Width(0xffff_fffd) == 1
  {
  }

  /** The code in a vector, with room for what the linker fills in. */
  predicate Fits(code: Code, room: nat) {
    Assemblable(code) && Size(code) <= room
  }

  lemma ReturnFits()
    ensures Fits(Return2(), 3) && Fits(ReturnSign2(), 6)
    ensures Fits(FlushReturn(), 3) && Fits(Drop2(), 3)
  {
    hide Width, Coded;
    SmallWidths();
    CodedAlu();
  }

  lemma LoadSelectFits()
    ensures Fits(LoadBSelect(), 9) && Fits(LoadHSelect(), 9)
  {
    hide Width, Coded;
    SmallWidths();
    CodedAlu();
  }

  lemma LoadShiftFits()
    ensures Fits(LoadBShift(), 17) && Fits(LoadHShift(), 17)
  {
    hide Width, Coded, LoadBSelect, LoadHSelect;
    SmallWidths();
    CodedAlu();
    LoadSelectFits();
  }

  lemma LoadFits()
    ensures Fits(LoadBCode(), 21) && Fits(LoadHCode(), 21)
  {
    hide Width, Coded, LoadBShift, LoadHShift;
    SmallWidths();
    CodedAlu();
    LoadShiftFits();
  }

  lemma StoreHClearFits()
    ensures Fits(StoreHClear(), 16)
  {
    hide Width, Coded;
    SmallWidths();
    CodedAlu();
  }

  lemma StoreHMaskFits()
    ensures Fits(StoreHMask(), 27)
  {
    hide Width, Coded, StoreHClear;
    SmallWidths();
    CodedAlu();
    StoreHClearFits();
  }

  lemma StoreBMaskFits()
    ensures Fits(StoreBMask(), 19)
  {
    hide Width, Coded;
    SmallWidths();
    CodedAlu();
  }

  lemma StoreFits()
    ensures Fits(StoreHCode(), 31) && Fits(StoreBCode(), 23)
  {
    hide Width, Coded, StoreHMask, StoreBMask;
    SmallWidths();
    CodedAlu();
    StoreHMaskFits();
    StoreBMaskFits();
  }

  lemma LessThanMaskFits()
    ensures Fits(LessThanMask(), 17)
  {
    hide Width, Coded, ReturnSign2;
    SmallWidths();
    CodedAlu();
    ReturnFits();
  }

  lemma LessThanFits()
    ensures Fits(LessThanCode(), 23)
  {
    hide Width, Coded, LessThanMask;
    SmallWidths();
    CodedAlu();
    LessThanMaskFits();
  }

  lemma OrEqualFits()
    ensures Fits(LessThanOrEqualCode(), 10) && Fits(ULessThanOrEqualCode(), 10)
  {
    hide Width, Coded, Return2;
    SmallWidths();
    CodedAlu();
    ReturnFits();
  }

  lemma ULessThanTestFits()
    ensures Fits(ULessThanTest(), 10)
  {
    hide Width, Coded, Return2;
    SmallWidths();
    CodedAlu();
    ReturnFits();
  }

  lemma ULessThanHalvesFits()
    ensures Fits(ULessThanHalves(), 18)
  {
    hide Width, Coded, ULessThanTest;
    SmallWidths();
    CodedAlu();
    ULessThanTestFits();
  }

  lemma ULessThanFits()
    ensures Fits(ULessThanCode(), 27)
  {
    hide Width, Coded, ULessThanHalves;
    SmallWidths();
    CodedAlu();
    ULessThanHalvesFits();
  }

  lemma EqTestFits()
    ensures Fits(EqTest(), 12) && Fits(NeqTest(), 13)
  {
    hide Width, Coded, Return2;
    SmallWidths();
    CodedAlu();
    ReturnFits();
  }

  lemma EqFits()
    ensures Fits(EqCode(), 18) && Fits(NeqCode(), 19)
  {
    hide Width, Coded, EqTest, NeqTest;
    SmallWidths();
    CodedAlu();
    EqTestFits();
  }

  lemma ArithmeticFits()
    ensures Fits(NegCode(), 6) && Fits(SubCode(), 9) && Fits(XorCode(), 13)
  {
    hide Width, Coded, Return2;
    SmallWidths();
    CodedAlu();
    ReturnFits();
  }

  lemma SignFillFits()
    ensures Fits(SignFill(), 12)
  {
    hide Width, Coded, Return2;
    SmallWidths();
    CodedAlu();
    ReturnFits();
  }

  lemma ShiftFits()
    ensures Fits(LShiftRightCode(), 8) && Fits(AShiftLeftCode(), 14)
  {
    hide Width, Coded, Return2;
    SmallWidths();
    CodedAlu();
    ReturnFits();
  }

  lemma AShiftRightFits()
    ensures Fits(AShiftRightCode(), 21)
  {
    hide Width, Coded, SignFill;
    SmallWidths();
    CodedAlu();
    SignFillFits();
  }

  lemma StoreAlignedFits()
    ensures Fits(StoreHInsert(), 12) && Fits(StoreBInsert(), 12)
  {
    hide Width, Coded, Drop2;
    SmallWidths();
    CodedAlu();
    ReturnFits();
  }

  lemma StoreTailFits()
    ensures Fits(StoreHTail(), 21) && Fits(StoreBTail(), 24)
  {
    hide Width, Coded, StoreHInsert, StoreBInsert;
    SmallWidths();
    CodedAlu();
    StoreAlignedFits();
  }

  lemma BranchTargetFits()
    ensures Fits(BranchTarget(), 11)
  {
    hide Width, Coded;
    SmallWidths();
    CodedAlu();
  }

  lemma BranchMaskFits()
    ensures Fits(BranchMask(), 21)
  {
    hide Width, Coded, BranchTarget;
    SmallWidths();
    CodedAlu();
    BranchTargetFits();
  }

  lemma BranchFits()
    ensures Fits(EqBranchCode(), 29) && Fits(NeqBranchCode(), 30)
  {
    hide Width, Coded, BranchMask;
    SmallWidths();
    CodedAlu();
    BranchMaskFits();
  }

  lemma CallFits()
    ensures Fits(CallCode(), 7) && Fits(CallPcRelCode(), 11)
    ensures Fits(PopPcRelCode(), 4) && Fits(PushSpAddCode(), 9) && Fits(MultCode(), 6)
  {
    hide Width, Coded, FlushReturn;
    SmallWidths();
    CodedAlu();
    ReturnFits();
  }

  lemma MultShiftFits()
    ensures Fits(MultShift(), 20)
  {
    hide Width, Coded, Return2;
    SmallWidths();
    CodedAlu();
    ReturnFits();
  }

  lemma SlowMultFits()
    ensures Fits(SlowMult(), 32)
  {
    hide Width, Coded, MultShift;
    SmallWidths();
    CodedAlu();
    MultShiftFits();
  }

  lemma CodedAlu()
    ensures Coded(Binary(Add)) && Coded(Binary(And_)) && Coded(Binary(Or_)) && Coded(Binary(Sub)) && Coded(Binary(Eq))
    ensures Coded(Binary(LessThan)) && Coded(Binary(ULessThan)) && Coded(Binary(LShiftRight)) && Coded(Binary(AShiftLeft))
    ensures Coded(Unary(Not_)) && Coded(Unary(Flip_)) && Coded(Unary(Neg_))
    ensures Coded(PopPc) && Coded(PushSp) && Coded(PopSp) && Coded(Load) && Coded(Store) && Coded(NeqBranch)
  {
    hide Coded;
    CodedSimple();
    CodedBinary();
  }

  lemma CodedSimple()
    ensures Coded(Binary(Add)) && Coded(Binary(And_)) && Coded(Binary(Or_)) && Coded(Unary(Not_)) && Coded(Unary(Flip_))
    ensures Coded(PopPc) && Coded(PushSp) && Coded(PopSp) && Coded(Load) && Coded(Store)
  {
    hide Coded;
    CodedLogic();
    CodedMoves();
  }

  lemma CodedLogic()
    ensures Coded(Binary(Add)) && Coded(Binary(And_)) && Coded(Binary(Or_)) && Coded(Unary(Not_)) && Coded(Unary(Flip_))
  {
    hide DecodeEmulatable, EmulateCode;
  }

  lemma CodedMoves()
    ensures Coded(PopPc) && Coded(PushSp) && Coded(PopSp) && Coded(Load) && Coded(Store)
  {
    hide DecodeEmulatable, EmulateCode;
  }

  lemma CodedEmulated(op: Op)
    requires Emulatable(op)
    ensures Coded(op)
  {
    hide Decode;
  }

  lemma CodedBinary()
    ensures Coded(Binary(Sub)) && Coded(Binary(Eq)) && Coded(Binary(LessThan)) && Coded(Binary(ULessThan))
    ensures Coded(Binary(LShiftRight)) && Coded(Binary(AShiftLeft)) && Coded(Unary(Neg_)) && Coded(NeqBranch)
  {
    hide Coded;
    CodedEmulated(Binary(Sub));
    CodedEmulated(Binary(Eq));
    CodedEmulated(Binary(LessThan));
    CodedEmulated(Binary(ULessThan));
    CodedEmulated(Binary(LShiftRight));
    CodedEmulated(Binary(AShiftLeft));
    CodedEmulated(Unary(Neg_));
    CodedEmulated(NeqBranch);
  }

  lemma {:induction false} TableFits(n: nat)
    ensures Fits(ShiftTable(n), n + 3)
    decreases n
  {
    hide Width, Coded;
    ReturnFits();
    if n > 0 {
      TableFits(n - 1);
    }
  }

  /** The bytes in the vector of op: its routine, and behind _call the text of _storehtail. */
  function SlotSize(op: Op): nat {
    Size(Routine(op)) + if op == Call then Size(StoreHTail()) else 0
  }

  /** Every vector holds its routine in 32 bytes, whatever the link map says. */
  lemma RoutineFits(op: Op)
    requires HasRoutine(op)
    ensures Assemblable(Routine(op)) && SlotSize(op) <= 32 && Assemblable(StoreHTail())
  {
    hide Assemblable, Size, StoreHTail, LoadHCode, StoreHCode, LessThanCode, LessThanOrEqualCode, ULessThanCode;
    hide ULessThanOrEqualCode, MultCode, LShiftRightCode, AShiftLeftCode, AShiftRightCode, CallCode, EqCode, NeqCode;
    hide NegCode, SubCode, XorCode, LoadBCode, StoreBCode, EqBranchCode, NeqBranchCode, PopPcRelCode, PushSpAddCode;
    hide CallPcRelCode;
    LoadFits();
    StoreFits();
    LessThanFits();
    OrEqualFits();
    ULessThanFits();
    EqFits();
    ArithmeticFits();
    ShiftFits();
    AShiftRightFits();
    BranchFits();
    CallFits();
    StoreTailFits();
  }

  // ---- A program text that holds the emulation code ----

  /** One link map: _storehtail behind _call, the other texts from 0x400 on, _mask at 0x600. */
  function LinkMap(): Layout {
    Layout(0x600, 0x400 + 31, 0x480, 0x450, 0x1a7, 0xffff_ffed)
  }

  function SlotBytes(op: Op): seq<int> {
    Bytes(Routine(op), LinkMap()) + if op == Call then Bytes(StoreHTail(), LinkMap()) else []
  }

  function Entry(bs: seq<int>, j: int): int {
    if 0 <= j < |bs| then bs[j] else 11
  }

  /** The byte at each address below 0x800; nop where nothing else is. */
  function Text(a: int): int {
    if 0x40 <= a < 0x400 then
      var op := DecodeEmulatable(a / 32 + 32);
      if HasRoutine(op) then Entry(SlotBytes(op), a % 32) else 11
    else if 0x400 <= a < 0x450 then Entry(Bytes(ShiftTable(31), LinkMap()), a - 0x400)
    else if 0x450 <= a < 0x480 then Entry(Bytes(StoreBTail(), LinkMap()), a - 0x450)
    else if 0x480 <= a < 0x600 then Entry(Bytes(SlowMult(), LinkMap()), a - 0x480)
    else if 0x600 <= a < 0x610 then (if (a - 0x600) % 5 == 0 then 0 else 255)
    else 11
  }

  lemma {:induction false} BytesRange(code: Code, lay: Layout)
    ensures forall j :: 0 <= j < |Bytes(code, lay)| ==> 0 <= Bytes(code, lay)[j] < 256
    decreases code
  {
    hide OpByte, Encode;
    if !code.End? {
      BytesRange(code.next, lay);
    }
  }

  lemma TextRange(a: int)
    ensures 0 <= Text(a) < 256
  {
    hide Bytes, Routine, ShiftTable, StoreBTail, SlowMult, StoreHTail, DecodeEmulatable, HasRoutine;
    BytesRange(Routine(DecodeEmulatable(a / 32 + 32)), LinkMap());
    BytesRange(StoreHTail(), LinkMap());
    BytesRange(ShiftTable(31), LinkMap());
    BytesRange(StoreBTail(), LinkMap());
    BytesRange(SlowMult(), LinkMap());
  }

  function TextWord(i: int): word {
    TextRange(4 * i);
    TextRange(4 * i + 1);
    TextRange(4 * i + 2);
    TextRange(4 * i + 3);
    Join(Text(4 * i), Text(4 * i + 1), Text(4 * i + 2), Text(4 * i + 3))
  }

  function TextImage(): Image {
    map i | 0 <= i < 0x200 :: TextWord(i)
  }

  lemma TextByte(a: int)
    requires 0 <= a < 0x800
    ensures ByteIs(TextImage(), a, Text(a))
  {
    hide Text;
    var i := a / 4;
    TextRange(4 * i);
    TextRange(4 * i + 1);
    TextRange(4 * i + 2);
    TextRange(4 * i + 3);
    BytesOfJoin(Text(4 * i), Text(4 * i + 1), Text(4 * i + 2), Text(4 * i + 3));
  }

  /** A text whose bytes agree with Text is in the image. */
  lemma TextAt(a: int, bs: seq<int>)
    requires 0 <= a && a + |bs| <= 0x800 && forall j :: 0 <= j < |bs| ==> Text(a + j) == bs[j]
    ensures BytesAt(TextImage(), a, bs)
  {
    hide Text, ByteIs, TextImage;
    forall j | 0 <= j < |bs| ensures ByteIs(TextImage(), a + j, bs[j]) {
      TextByte(a + j);
    }
  }

  lemma SlotText(op: Op)
    requires HasRoutine(op)
    ensures BytesAt(TextImage(), (EmulateCode(op) - 32) * 32, SlotBytes(op))
  {
    hide Bytes, Routine, StoreHTail, TextImage, BytesAt, Size, HasRoutine, OpByte;
    var bs, b := SlotBytes(op), EmulateCode(op);
    assert |bs| <= 32 by {
      RoutineFits(op);
      SizeOfBytes(Routine(op), LinkMap());
      SizeOfBytes(StoreHTail(), LinkMap());
    }
    SlotNumber(op);
    forall j | 0 <= j < |bs| ensures Text((b - 32) * 32 + j) == bs[j] {
      assert ((b - 32) * 32 + j) / 32 == b - 32;
    }
    TextAt((b - 32) * 32, bs);
  }

  lemma SlotNumber(op: Op)
    requires HasRoutine(op)
    ensures 34 <= EmulateCode(op) <= 63 && DecodeEmulatable(EmulateCode(op)) == op
  {
  }

  lemma SlotHolds(op: Op)
    requires HasRoutine(op)
    ensures Holds(TextImage(), LinkMap(), (EmulateCode(op) - 32) * VECTOR_SIZE, Routine(op))
  {
    hide Bytes, Routine, StoreHTail, TextImage, BytesAt, Size, HasRoutine, OpByte, Assemblable, Holds, EmulateCode;
    RoutineFits(op);
    SlotText(op);
    var rest := if op == Call then Bytes(StoreHTail(), LinkMap()) else [];
    BytesTail(TextImage(), (EmulateCode(op) - 32) * 32, Bytes(Routine(op), LinkMap()), rest);
    Assembled(TextImage(), LinkMap(), (EmulateCode(op) - 32) * 32, Routine(op));
  }

  lemma CallLength()
    ensures |Bytes(CallCode(), LinkMap())| == 7 && Routine(Call) == CallCode() && EmulateCode(Call) == 45
    ensures HasRoutine(Call)
  {
    hide OpByte;
  }

  lemma TailHolds()
    ensures Holds(TextImage(), LinkMap(), 0x1a7, StoreHTail())
  {
    hide Bytes, Routine, StoreHTail, TextImage, BytesAt, Size, HasRoutine, OpByte, Assemblable, Holds, CallCode;
    CallLength();
    RoutineFits(Call);
    SlotText(Call);
    BytesTail(TextImage(), 0x1a0, Bytes(CallCode(), LinkMap()), Bytes(StoreHTail(), LinkMap()));
    Assembled(TextImage(), LinkMap(), 0x1a7, StoreHTail());
  }

  lemma TableHolds()
    ensures Holds(TextImage(), LinkMap(), 0x400, ShiftTable(31))
    ensures Holds(TextImage(), LinkMap(), 0x450, StoreBTail())
    ensures Holds(TextImage(), LinkMap(), 0x480, SlowMult())
    ensures BranchAddress(TextImage(), 0x480, SlowMult()) == 0x480 + Prefix(SlowMult(), LinkMap())
    ensures BytesAt(TextImage(), 0x480, Bytes(SlowMult(), LinkMap()))
  {
    hide Bytes, TextImage, BytesAt, Size, OpByte, Assemblable, Holds, ShiftTable, StoreBTail, SlowMult, LinkMap;
    TableFits(31);
    StoreTailFits();
    SlowMultFits();
    SizeOfBytes(ShiftTable(31), LinkMap());
    SizeOfBytes(StoreBTail(), LinkMap());
    SizeOfBytes(SlowMult(), LinkMap());
    TextAt(0x400, Bytes(ShiftTable(31), LinkMap()));
    TextAt(0x450, Bytes(StoreBTail(), LinkMap()));
    TextAt(0x480, Bytes(SlowMult(), LinkMap()));
    Assembled(TextImage(), LinkMap(), 0x400, ShiftTable(31));
    Assembled(TextImage(), LinkMap(), 0x450, StoreBTail());
    Assembled(TextImage(), LinkMap(), 0x480, SlowMult());
  }

  /** The one-byte offset of the loop branch spans the 19 bytes of a round in front of it. */
  lemma LoopDistance()
    ensures Prefix(SlowMult(), LinkMap()) == 22
  {
    hide Width, LinkMap;
    SmallWidths();
    OffsetWidth();
    MultShiftPrefix(LinkMap());
    var lay, t := LinkMap(), MultShift();
    var u := Un(Not_, Loadsp(2, Bin(And_, Bin(Add, t))));
    assert Prefix(Bin(And_, Bin(Add, t)), lay) == 12;
    assert Prefix(u, lay) == 14;
    assert Prefix(Imm(0xffff_ffff, Bin(Add, u)), lay) == 16;
    assert Prefix(Imm(1, Bin(And_, Imm(0xffff_ffff, Bin(Add, u)))), lay) == 18;
    assert Prefix(MoreMult(), lay) == 19;
    assert Prefix(Loadsp(2, Imm(0, MoreMult())), lay) == 21;
  }

  lemma MultShiftPrefix(lay: Layout)
    requires Width(lay.moreMult) == 1
    ensures Prefix(MultShift(), lay) == 10
  {
    hide Width;
    var t := Loadsp(2, ImmOf(MORE_MULT, Other(NeqBranch, MultReturn())));
    assert Prefix(t, lay) == 2;
    assert Prefix(Un(Flip_, Storesp(3, t)), lay) == 4;
    assert Prefix(Un(Flip_, Addsp(0, Un(Flip_, Storesp(3, t)))), lay) == 6;
    assert Prefix(Storesp(2, Loadsp(2, Un(Flip_, Addsp(0, Un(Flip_, Storesp(3, t)))))), lay) == 8;
  }

  lemma OffsetWidth()
    ensures Width(LinkMap().moreMult) == 1
  {
  }

  lemma LoopEntry()
    ensures LoopAddress(TextImage(), LinkMap()) == 0x483
  {
    hide TextImage, Bytes, Holds, BytesAt, MoreMult, Width, AfterIm;
    MoreMultFits();
    TableHolds();
    assert LinkMap().slowMult == 0x480;
    AfterZero(TextImage(), LinkMap(), 0x480, MoreMult());
  }

  lemma MoreMultFits()
    ensures Assemblable(MoreMult()) && !EndsIm(MoreMult())
  {
    hide Coded, MultShift, Width;
    CodedAlu();
    MultShiftFits();
  }

  lemma AfterZero(img: Image, lay: Layout, a: int, next: Code)
    requires BytesAt(img, a, Bytes(Loadsp(2, Loadsp(2, Imm(0, next))), lay)) && Assemblable(next) && !EndsIm(next)
    ensures AfterIm(img, a + 2) == a + 3
  {
    hide BytesAt, OpByte, ImBytes, AfterIm;
    CodedStack(2);
    OpHolds(img, a, LoadSp(2), Bytes(Loadsp(2, Imm(0, next)), lay));
    OpHolds(img, a + 1, LoadSp(2), Bytes(Imm(0, next), lay));
    ImItem(img, lay, a + 2, 0, next);
    SmallWidths();
  }

  lemma MasksInText()
    ensures MaskTable(TextImage(), LinkMap())
  {
    hide Text;
    MaskBytes(0);
    MaskBytes(1);
    MaskBytes(2);
    MaskBytes(3);
  }

  lemma MaskBytes(k: nat)
    requires k < 4
    ensures TextWord(0x180 + k)
         == Join(if k == 0 then 0 else 255, if k == 1 then 0 else 255, if k == 2 then 0 else 255, if k == 3 then 0 else 255)
  {
    hide Text;
    var a := 4 * (0x180 + k);
    MaskByte(a);
    MaskByte(a + 1);
    MaskByte(a + 2);
    MaskByte(a + 3);
  }

  lemma MaskByte(a: int)
    requires 0x600 <= a < 0x610
    ensures Text(a) == if (a - 0x600) % 5 == 0 then 0 else 255
  {
    hide Bytes, Routine, ShiftTable, StoreBTail, SlowMult, DecodeEmulatable, HasRoutine, SlotBytes, Entry;
  }

  /** The assembled vectors, tails and mask table are an image the emulation proofs apply to. */
  lemma Linked()
    ensures Loaded(TextImage(), LinkMap())
  {
    hide TextImage, Holds, Routine, ShiftTable, StoreBTail, SlowMult, StoreHTail, MaskTable, BranchAddress, LoopAddress;
    hide HasRoutine, EmulateCode;
    forall op | HasRoutine(op)
      ensures Holds(TextImage(), LinkMap(), (EmulateCode(op) - 32) * VECTOR_SIZE, Routine(op))
    {
      SlotHolds(op);
    }
    TailHolds();
    TableHolds();
    LoopDistance();
    LoopEntry();
    MasksInText();
  }
}
