/** The simulator as an object: fields updated in place, one instruction at a time, with faults
    rolled back.  Each method is proved against the instruction effects of module Cpu. */
module Simulation {
  import opened Words
  import opened Isa
  import opened Cpu
  import opened Phi
  import opened Flips
  import opened Runs
  import opened Machines
  import opened QuietRuns

  // ---- What an instruction does, with device registers resolved ----

  /** From memory and device an instruction with outcome o leads to c' and d', or raises an exception. */
  ghost predicate Did(mem: seq<word>, d: Device, o: Outcome, c': State, d': Device, s: Status) {
    var e := Perform(mem, d, o.wr);
    if e.Bad? then s.Raised? && c'.mem == mem && d' == d
    else c'.mem == e.t.mem && d' == e.t.device
         && (if o.Trap? then s.Raised? else s == Fine && c'.pc == o.pc && c'.sp == o.sp && c'.decodeMask == o.decodeMask)
  }

  /** Adding to a value that is still to be read from a device. */
  lemma ResolvePlus(d: Device, c: State, addr: word, a: word)
    requires Cpu.Valid(c)
    ensures match ReadLong(c, addr)
            case Got(v) => Resolve(d, v.(w := Wrap(v.w + a)))
                        == (match Resolve(d, v) case Got(x) => Got(Sum(x, a)) case Bad(f) => Bad(f))
            case Bad(f) => true
  {
    hide DeviceRead;
  }

  // ---- Native by the number of words popped ----

  lemma PopsNone(c: State, op: Op)
    requires Cpu.Valid(c) && c.pc < RAM_SIZE && Pops(op, c.decodeMask) == 0
    ensures Native(c, op) == OnNone(c, op)
  {
  }

  lemma PopsOne(c: State, op: Op)
    requires Cpu.Valid(c) && c.pc < RAM_SIZE && Pops(op, c.decodeMask) == 1
    ensures Native(c, op) == if c.sp < RAM_SIZE then OnTop(c, op, c.mem[c.sp / 4]) else Trap(OutOfBounds, NoWrite)
  {
    hide OnTop;
  }

  lemma PopsTwo(c: State, op: Op)
    requires Cpu.Valid(c) && c.pc < RAM_SIZE && Pops(op, c.decodeMask) == 2
    ensures Native(c, op)
         == if c.sp + 4 < RAM_SIZE then OnTwo(c, op, c.mem[c.sp / 4], c.mem[c.sp / 4 + 1]) else Trap(OutOfBounds, NoWrite)
  {
    hide OnTwo;
  }

  lemma ImPops(c: State, bits: nat)
    requires Cpu.Valid(c) && c.pc < RAM_SIZE
    ensures Native(c, Im(bits))
         == if !c.decodeMask then OnNone(c, Im(bits))
            else if c.sp < RAM_SIZE then OnTop(c, Im(bits), c.mem[c.sp / 4]) else Trap(OutOfBounds, NoWrite)
  {
    hide OnTop, OnNone;
  }

  class Simulator {
    const feeble: set<Op>
    const memory: array<word>
    const io: Board
    var pc: int
    var sp: word
    var decodeMask: bool
    var touchedPc: bool
    var commit: bool
    var savedPc: int
    var savedSp: word
    var savedDecodeMask: bool
    var hitVector: bool
    var nextVector: int
    var breakNext: bool
    var instructionCount: nat

    ghost predicate Valid()
      reads this, memory
    {
      memory.Length == RAM_WORDS && 0 <= pc <= RAM_SIZE && sp % 4 == 0
    }

    ghost function Core(): State
      reads this, memory
    {
      State(pc, sp, decodeMask, memory[..])
    }

    /** Everything that lasts from one turn of the instruction loop to the next. */
    ghost function Whole(): Machine
      reads this, memory, io
    {
      Machine(Core(), io.View(), hitVector, breakNext, instructionCount)
    }

    /** The state after a hardware reset. */
    constructor (f: set<Op>)
      ensures Valid() && feeble == f && fresh(memory) && fresh(io)
      ensures pc == 0 && sp == RAM_SIZE - 8 && !decodeMask && !hitVector && commit && !breakNext
      ensures forall i :: 0 <= i < RAM_WORDS ==> memory[i] == 0
      ensures io.View() == Device(false, false, false, false, 0, 0, 0, 0, [])
    {
      feeble := f;
      memory := new word[RAM_WORDS](_ => 0);
      io := new Board();
      pc, sp, decodeMask, touchedPc, commit := 0, RAM_SIZE - 8, false, true, true;
      savedPc, savedSp, savedDecodeMask := 0, 0, false;
      hitVector, nextVector, breakNext, instructionCount := false, 0, false, 0;
    }

    /** The state once pc has moved to the next instruction unless something has set it. */
    ghost function Settled(): State
      reads this, memory
    {
      State(if touchedPc then pc else pc + 1, sp, decodeMask, memory[..])
    }

    method SetPc(target: word) returns (s: Status)
      modifies this`pc, this`touchedPc
      ensures target <= RAM_SIZE ==> s == Fine && pc == target && touchedPc
      ensures target > RAM_SIZE ==> s.Raised? && pc == old(pc) && touchedPc == old(touchedPc)
    {
      if target > RAM_SIZE {
        return Raised(MemoryAccess);
      }
      pc := target;
      touchedPc := true;
      return Fine;
    }

    method CpuReadLong(a: word) returns (v: word, s: Status)
      requires Valid()
      ensures match ReadLong(Core(), a)
              case Bad(f) => s.Raised?
              case Got(x) => (match Resolve(io.View(), x) case Got(w) => s == Fine && v == w case Bad(f) => s.Raised?)
    {
      v, s := 0, Fine;
      if a % 4 != 0 {
        s := Raised(MemoryAccess);
      } else if IsIo(a) {
        var r := io.IoRead(a);
        match r
        case Got(x) => v := x;
        case Bad(f) => s := Raised(f);
      } else if a < RAM_SIZE {
        v := memory[a / 4];
      } else if a == RAM_SIZE {
        s := Raised(OutOfBounds);
      } else {
        s := Raised(MemoryAccess);
      }
    }

    /** A write of v as WriteLong classifies it. */
    ghost predicate Written(m: seq<word>, d: Device, r: Access<Write>, s: Status)
      reads this, memory, io
    {
      if r.Bad? then s.Raised? && memory[..] == m && io.View() == d
      else var e := Perform(m, d, r.t);
           if e.Bad? then s.Raised? && memory[..] == m && io.View() == d
           else s == Fine && memory[..] == e.t.mem && io.View() == e.t.device
    }

    method CpuWriteLong(a: word, v: word) returns (s: Status)
      requires Valid()
      modifies memory, io
      ensures Written(old(memory[..]), old(io.View()), WriteLong(a, Word(v)), s)
    {
      s := Fine;
      if a % 4 != 0 {
        s := Raised(MemoryAccess);
      } else if IsIo(a) {
        s := io.IoWrite(a, v);
      } else if a < RAM_SIZE {
        memory[a / 4] := v;
        assert memory[..] == old(memory[..])[a / 4 := v];
      } else if a == RAM_SIZE {
        s := Raised(OutOfBounds);
      } else {
        s := Raised(MemoryAccess);
      }
    }

    method Pop() returns (v: word, s: Status)
      requires Valid()
      modifies this`sp
      ensures old(sp) < RAM_SIZE ==> s == Fine && v == memory[old(sp) / 4] && sp == old(sp) + 4
      ensures old(sp) >= RAM_SIZE ==> s.Raised? && sp == old(sp)
    {
      v := 0;
      if sp / 4 >= RAM_WORDS {
        return v, Raised(OutOfBounds);
      }
      v, s := CpuReadLong(sp);
      sp := (sp + 4) % M;
    }

    method Push(v: word) returns (s: Status)
      requires Valid()
      modifies this`sp, memory, io
      ensures sp == (old(sp) - 4) % M
      ensures Written(old(memory[..]), old(io.View()), WriteLong((old(sp) - 4) % M, Word(v)), s)
      ensures 4 <= old(sp) <= RAM_SIZE ==>
        s == Fine && memory[..] == old(memory[..])[old(sp) / 4 - 1 := v] && io.View() == old(io.View())
    {
      sp := (sp - 4) % M;
      s := CpuWriteLong(sp, v);
    }

    method ReadByteInternal(a: word) returns (v: word, s: Status)
      requires Valid()
      ensures match ByteWord(Core(), a)
              case Got(w) => s == Fine && v == Byte(w, a % 4)
              case Bad(f) => s.Raised?
    {
      if a < RAM_SIZE {
        return Byte(memory[a / 4], a % 4), Fine;
      } else if a >= M - 3 {
        return Byte(memory[0], a % 4), Fine;
      }
      return 0, Raised(OutOfBounds);
    }

    method WriteByte(a: word, v: word) returns (s: Status)
      requires Valid()
      modifies memory
      ensures a < RAM_SIZE ==> s == Fine && memory[..] == old(memory[..])[a / 4 := SetByte(old(memory[a / 4]), a % 4, v)]
      ensures a >= RAM_SIZE ==> s.Raised? && memory[..] == old(memory[..])
    {
      if a >= RAM_SIZE {
        return Raised(MemoryAccess);
      }
      memory[a / 4] := SetByte(memory[a / 4], a % 4, v);
      assert memory[..] == old(memory[..])[a / 4 := SetByte(old(memory[a / 4]), a % 4, v)];
      return Fine;
    }

    // ---- The instructions ----

    method ExecIm(bits: nat) returns (s: Status)
      requires Valid() && !touchedPc && pc < RAM_SIZE && bits < 128
      modifies this`sp, this`decodeMask, memory, io
      ensures Valid() && Did(old(memory[..]), old(io.View()), Native(old(Core()), Im(bits)), Settled(), io.View(), s)
    {
      hide Native;
      ImPops(Core(), bits);
      if decodeMask {
        s := AppendIm(bits);
      } else {
        s := Push(Wrap(if bits < 64 then bits else bits - 128));
      }
      decodeMask := true;
    }

    method AppendIm(bits: nat) returns (s: Status)
      requires Valid() && pc < RAM_SIZE && bits < 128
      modifies this`sp, memory, io
      ensures Valid() && io.View() == old(io.View())
      ensures if old(sp) >= RAM_SIZE then s.Raised? && memory[..] == old(memory[..])
              else s == Fine && sp == old(sp)
                   && memory[..] == old(memory[..])[sp / 4 := Wrap(old(memory[sp / 4]) * 128 + bits)]
    {
      hide Written, WriteLong;
      var a;
      a, s := Pop();
      if s.Raised? {
        return;
      }
      s := Push(Wrap(a * 128 + bits));
    }

    method ExecAddSp(k: nat) returns (s: Status)
      requires Valid() && !touchedPc && pc < RAM_SIZE && !decodeMask
      modifies this`sp, memory, io
      ensures Valid() && Did(old(memory[..]), old(io.View()), Native(old(Core()), AddSp(k)), Settled(), io.View(), s)
    {
      hide Native, Written, WriteLong, DeviceRead, Sum, OnNone, OnTwo;
      PopsOne(Core(), AddSp(k));
      var valAddr := Wrap(sp + 4 * k);
      var a, v;
      a, s := Pop();
      if s.Raised? {
        return;
      }
      v, s := CpuReadLong(valAddr);
      ResolvePlus(io.View(), Core(), valAddr, a);
      if s.Raised? {
        return;
      }
      s := Push(Sum(v, a));
    }

    method ExecLoadSp(k: nat) returns (s: Status)
      requires Valid() && !touchedPc && pc < RAM_SIZE && !decodeMask
      modifies this`sp, memory, io
      ensures Valid() && Did(old(memory[..]), old(io.View()), Native(old(Core()), LoadSp(k)), Settled(), io.View(), s)
    {
      hide Native, OnTop, OnTwo, ByteWord, Byte, Cpu.Emulate;
      PopsNone(Core(), LoadSp(k));
      var v;
      v, s := CpuReadLong(Wrap(sp + 4 * k));
      if s.Raised? {
        return;
      }
      s := Push(v);
    }

    method ExecStoreSp(k: nat) returns (s: Status)
      requires Valid() && !touchedPc && pc < RAM_SIZE && !decodeMask
      modifies this`sp, memory, io
      ensures Valid() && Did(old(memory[..]), old(io.View()), Native(old(Core()), StoreSp(k)), Settled(), io.View(), s)
    {
      hide Native, OnNone, OnTwo, ReadLong, ByteWord, Byte;
      PopsOne(Core(), StoreSp(k));
      var addr := Wrap(sp + 4 * k);
      var v;
      v, s := Pop();
      if s.Raised? {
        return;
      }
      s := CpuWriteLong(addr, v);
    }

    method ExecUnary(g: Alu1) returns (s: Status)
      requires Valid() && !touchedPc && pc < RAM_SIZE && !decodeMask
      modifies this`sp, memory, io
      ensures Valid() && Did(old(memory[..]), old(io.View()), Native(old(Core()), Unary(g)), Settled(), io.View(), s)
    {
      hide Native, Written, WriteLong, Alu1Value, FlipWord, OnNone, OnTwo;
      PopsOne(Core(), Unary(g));
      var a, v;
      a, s := Pop();
      if s.Raised? {
        return;
      }
      if g == Flip_ {
        v := FlipLoop(a);
        FlipIsUnary(a);
      } else {
        v := Alu1Value(g, a);
      }
      s := Push(v);
    }

    method ExecBinary(f: Alu2) returns (s: Status)
      requires Valid() && !touchedPc && pc < RAM_SIZE && !decodeMask
      modifies this`sp, memory, io
      ensures Valid() && Did(old(memory[..]), old(io.View()), Native(old(Core()), Binary(f)), Settled(), io.View(), s)
    {
      hide Native, Written, WriteLong, Alu2Value, OnNone, OnTop;
      PopsTwo(Core(), Binary(f));
      var a, b;
      a, s := Pop();
      if s.Raised? {
        return;
      }
      b, s := Pop();
      if s.Raised? {
        return;
      }
      s := Push(Alu2Value(f, a, b));
    }

    method ExecDiv() returns (s: Status)
      requires Valid() && !touchedPc && pc < RAM_SIZE && !decodeMask
      modifies this`sp, memory, io
      ensures Valid() && Did(old(memory[..]), old(io.View()), Native(old(Core()), Div), Settled(), io.View(), s)
    {
      hide Native, Written, WriteLong, Divide, OnNone, OnTop;
      PopsTwo(Core(), Div);
      var a, b;
      a, s := Pop();
      if s.Raised? {
        return;
      }
      b, s := Pop();
      if s.Raised? {
        return;
      }
      if b == 0 {
        return Raised(DivideByZero);
      }
      s := Push(Divide(a, b));
    }

    method ExecMod() returns (s: Status)
      requires Valid() && !touchedPc && pc < RAM_SIZE && !decodeMask
      modifies this`sp, memory, io
      ensures Valid() && Did(old(memory[..]), old(io.View()), Native(old(Core()), Mod), Settled(), io.View(), s)
    {
      hide Native, Written, WriteLong, Remainder, OnNone, OnTop;
      PopsTwo(Core(), Mod);
      var a, b;
      a, s := Pop();
      if s.Raised? {
        return;
      }
      b, s := Pop();
      if s.Raised? {
        return;
      }
      if b == 0 {
        return Raised(DivideByZero);
      }
      s := Push(Remainder(a, b));
    }

    method ExecLoad() returns (s: Status)
      requires Valid() && !touchedPc && pc < RAM_SIZE && !decodeMask
      modifies this`sp, memory, io
      ensures Valid() && Did(old(memory[..]), old(io.View()), Native(old(Core()), Load), Settled(), io.View(), s)
    {
      hide Native, Written, WriteLong, OnNone, OnTwo;
      PopsOne(Core(), Load);
      var a, v;
      a, s := Pop();
      if s.Raised? {
        return;
      }
      v, s := CpuReadLong(a);
      if s.Raised? {
        return;
      }
      s := Push(v);
    }

    method ExecLoadB() returns (s: Status)
      requires Valid() && !touchedPc && pc < RAM_SIZE && !decodeMask
      modifies this`sp, memory, io
      ensures Valid() && Did(old(memory[..]), old(io.View()), Native(old(Core()), LoadB), Settled(), io.View(), s)
    {
      hide Native, Written, WriteLong, Byte, OnNone, OnTwo, ReadLong;
      PopsOne(Core(), LoadB);
      var a, v;
      a, s := Pop();
      if s.Raised? {
        return;
      }
      v, s := ReadByteInternal(a);
      if s.Raised? {
        return;
      }
      s := Push(v);
    }

    method ExecLoadH() returns (s: Status)
      requires Valid() && !touchedPc && pc < RAM_SIZE && !decodeMask
      modifies this`sp, memory, io
      ensures Valid() && Did(old(memory[..]), old(io.View()), Native(old(Core()), LoadH), Settled(), io.View(), s)
    {
      hide Native, Written, WriteLong, Byte, OnNone, OnTwo, HalfWord, ReadLong;
      PopsOne(Core(), LoadH);
      var a, v;
      a, s := Pop();
      if s.Raised? {
        return;
      }
      if a % 2 == 0 {
        EvenOffset(a);
      }
      v, s := CpuReadWord(a);
      if s.Raised? {
        return;
      }
      s := Push(v);
    }

    method CpuReadWord(a: word) returns (v: word, s: Status)
      requires Valid()
      ensures a % 4 == 0 || a % 4 == 2 ==>
        match ByteWord(Core(), a)
        case Got(w) => s == Fine && v == HalfWord(w, a % 4)
        case Bad(f) => s.Raised?
      ensures a % 2 != 0 ==> s.Raised?
    {
      hide Byte, OnTop, OnTwo;
      v := 0;
      if a % 2 != 0 {
        return v, Raised(MemoryAccess);
      }
      var high, low;
      high, s := ReadByteInternal(a);
      if s.Raised? {
        return;
      }
      NextByte(a);
      low, s := ReadByteInternal(a + 1);
      if s.Raised? {
        return;
      }
      v := high * 256 + low;
    }

    method CpuWriteWord(a: word, v: word) returns (s: Status)
      requires Valid()
      modifies memory
      ensures a % 2 == 0 && a < RAM_SIZE ==>
        s == Fine && memory[..] == old(memory[..])[a / 4 := SetHalf(old(memory[a / 4]), a % 4, v)]
      ensures a % 2 != 0 || a >= RAM_SIZE ==> s.Raised? && memory[..] == old(memory[..])
    {
      hide SetByte, SetHalf;
      if a % 2 != 0 {
        return Raised(MemoryAccess);
      }
      s := WriteByte(a, v / 256);
      if s.Raised? {
        return;
      }
      s := WriteByte(a + 1, v);
      BytesMakeHalf(old(memory[a / 4]), a % 4, v);
    }

    method ExecStore() returns (s: Status)
      requires Valid() && !touchedPc && pc < RAM_SIZE && !decodeMask
      modifies this`sp, memory, io
      ensures Valid() && Did(old(memory[..]), old(io.View()), Native(old(Core()), Store), Settled(), io.View(), s)
    {
      hide Native, WriteLong, OnNone, OnTop;
      PopsTwo(Core(), Store);
      var a, v;
      a, s := Pop();
      if s.Raised? {
        return;
      }
      v, s := Pop();
      if s.Raised? {
        return;
      }
      s := CpuWriteLong(a, v);
    }

    method ExecStorePart(op: Op) returns (s: Status)
      requires Valid() && !touchedPc && pc < RAM_SIZE && !decodeMask && (op == StoreB || op == StoreH)
      modifies this`sp, memory, io
      ensures Valid() && Did(old(memory[..]), old(io.View()), Native(old(Core()), op), Settled(), io.View(), s)
    {
      hide Native, SetByte, SetHalf, Byte, OnNone, OnTop;
      PopsTwo(Core(), op);
      var a, v;
      a, s := Pop();
      if s.Raised? {
        return;
      }
      v, s := Pop();
      if s.Raised? {
        return;
      }
      if op == StoreB {
        s := WriteByte(a, v);
      } else {
        s := CpuWriteWord(a, v);
      }
    }

    method ExecPopPc(relative: bool) returns (s: Status)
      requires Valid() && !touchedPc && pc < RAM_SIZE && !decodeMask
      modifies this`sp, this`pc, this`touchedPc
      ensures Valid() && Did(old(memory[..]), old(io.View()), Native(old(Core()), if relative then PopPcRel else PopPc),
                             Settled(), io.View(), s)
    {
      hide Native, OnNone, OnTwo;
      PopsOne(Core(), if relative then PopPcRel else PopPc);
      var a;
      a, s := Pop();
      if s.Raised? {
        return;
      }
      s := SetPc(if relative then Wrap(a + pc) else a);
    }

    method ExecBranch(ifZero: bool) returns (s: Status)
      requires Valid() && !touchedPc && pc < RAM_SIZE && !decodeMask
      modifies this`sp, this`pc, this`touchedPc
      ensures Valid() && Did(old(memory[..]), old(io.View()), Native(old(Core()), if ifZero then EqBranch else NeqBranch),
                             Settled(), io.View(), s)
    {
      hide Native, OnNone, OnTop, ReadLong, ByteWord, WriteLong, Written;
      PopsTwo(Core(), if ifZero then EqBranch else NeqBranch);
      var offset, compare;
      offset, s := Pop();
      if s.Raised? {
        return;
      }
      compare, s := Pop();
      if s.Raised? {
        return;
      }
      if (compare == 0) == ifZero {
        s := SetPc(Wrap(offset + pc));
      } else {
        s := SetPc(pc + 1);
      }
    }

    /** The return address is written before the target is checked. */
    method ExecCall() returns (s: Status)
      requires Valid() && !touchedPc && pc < RAM_SIZE && !decodeMask
      modifies this`sp, this`pc, this`touchedPc, memory, io
      ensures Valid() && Did(old(memory[..]), old(io.View()), Native(old(Core()), Call), Settled(), io.View(), s)
    {
      hide Native, Written, WriteLong, OnNone, OnTwo;
      PopsOne(Core(), Call);
      var address;
      address, s := Pop();
      if s.Raised? {
        return;
      }
      s := Push(Wrap(pc + 1));
      if s.Raised? {
        return;
      }
      s := SetPc(address);
    }

    method ExecCallPcRel() returns (s: Status)
      requires Valid() && !touchedPc && pc < RAM_SIZE && !decodeMask
      modifies this`sp, this`pc, this`touchedPc, memory, io
      ensures Valid() && Did(old(memory[..]), old(io.View()), Native(old(Core()), CallPcRel), Settled(), io.View(), s)
    {
      hide Native, Written, WriteLong, OnNone, OnTwo;
      PopsOne(Core(), CallPcRel);
      var address;
      address, s := Pop();
      if s.Raised? {
        return;
      }
      s := Push(Wrap(pc + 1));
      if s.Raised? {
        return;
      }
      s := SetPc(Wrap(address + pc));
    }

    method ExecPushSpAdd() returns (s: Status)
      requires Valid() && !touchedPc && pc < RAM_SIZE && !decodeMask
      modifies this`sp, memory, io
      ensures Valid() && Did(old(memory[..]), old(io.View()), Native(old(Core()), PushSpAdd), Settled(), io.View(), s)
    {
      hide Native, Written, WriteLong, OnNone, OnTwo;
      PopsOne(Core(), PushSpAdd);
      var a: int := sp;
      var x;
      x, s := Pop();
      if s.Raised? {
        return;
      }
      var b: int := 4 * (x as int);
      s := Push(Wrap(a + b));
    }

    method ExecPopSp() returns (s: Status)
      requires Valid() && !touchedPc && pc < RAM_SIZE && !decodeMask
      modifies this`sp
      ensures Valid() && Did(old(memory[..]), old(io.View()), Native(old(Core()), PopSp), Settled(), io.View(), s)
    {
      hide Native, OnNone, OnTwo;
      PopsOne(Core(), PopSp);
      var a;
      a, s := Pop();
      if s.Raised? {
        return;
      }
      if a % 4 != 0 {
        return Raised(IllegalInstruction);
      }
      sp := a;
    }

    method ExecPush(op: Op) returns (s: Status)
      requires Valid() && !touchedPc && pc < RAM_SIZE && !decodeMask && (op == PushPc || op == PushSp)
      modifies this`sp, memory, io
      ensures Valid() && Did(old(memory[..]), old(io.View()), Native(old(Core()), op), Settled(), io.View(), s)
    {
      hide Native, OnTop, OnTwo, ReadLong, ByteWord, Byte, Cpu.Emulate;
      PopsNone(Core(), op);
      s := Push(if op == PushPc then Wrap(pc) else sp);
    }

    /** emulate: push the return address, then enter the vector of the byte that is now at pc. */
    method Emulate() returns (s: Status)
      requires Valid() && !touchedPc && pc < RAM_SIZE && !decodeMask
      modifies this`sp, this`pc, this`touchedPc, memory, io
      ensures Valid() && Did(old(memory[..]), old(io.View()), Cpu.Emulate(old(Core())), Settled(), io.View(), s)
    {
      hide Byte, Written, WriteLong, Perform, Did, Cpu.Emulate;
      var ret := Wrap(pc + 1);
      ghost var c := Core();
      s := Push(ret);
      PushedIs(c.mem, old(io.View()), WriteLong((c.sp - 4) % M, Word(ret)), s);
      if s.Raised? {
        PushRaised(c, old(io.View()), Settled(), s);
        return;
      }
      s := EnterVector();
      PushReread(c, old(io.View()), Byte(memory[c.pc / 4], c.pc % 4), Settled(), io.View(), s);
    }

    /** setPc to the vector of the byte at pc. */
    method EnterVector() returns (s: Status)
      requires Valid() && pc < RAM_SIZE
      modifies this`pc, this`touchedPc
      ensures Valid()
      ensures var b := Byte(memory[old(pc) / 4], old(pc) % 4);
        if b < 32 then s.Raised? && pc == old(pc) && touchedPc == old(touchedPc)
        else s == Fine && pc == (b - 32) * VECTOR_SIZE && touchedPc
    {
      hide Byte, Wrap;
      var b;
      b, s := ReadByteInternal(pc);
      VectorAddress(b);
      s := SetPc(Wrap((b - 32) * VECTOR_SIZE));
    }

    /** What a push has done to memory and board. */
    lemma PushedIs(mem: seq<word>, d: Device, r: Access<Write>, s: Status)
      requires Written(mem, d, r, s)
      ensures s == Fine ==> r.Got? && Perform(mem, d, r.t) == Got(Effects(memory[..], io.View()))
      ensures s.Raised? ==> memory[..] == mem && io.View() == d && (r.Got? ==> Perform(mem, d, r.t).Bad?)
    {
    }

    // ---- One instruction ----

    /** The outcome of decoding op, emulated or not. */
    ghost function Expected(op: Op): Outcome
      requires Valid() && pc < RAM_SIZE
      reads this, memory
    {
      if op in feeble && Emulatable(op) then Cpu.Emulate(Core())
      else if op in feeble && op == Syscall then Trap(IllegalInstruction, NoWrite)
      else Native(Core(), op)
    }

    /** The instructions that pop one word or none. */
    method ExecSmall(op: Op) returns (s: Status)
      requires Valid() && !touchedPc && pc < RAM_SIZE && !decodeMask && Pops(op, false) < 2 && !op.Im?
      modifies this`sp, this`pc, this`touchedPc, memory, io
      ensures Valid() && Did(old(memory[..]), old(io.View()), Native(old(Core()), op), Settled(), io.View(), s)
    {
      hide Did, Native, Valid;
      if op.LoadSp? {
        s := ExecLoadSp(op.k);
      } else if op.StoreSp? {
        s := ExecStoreSp(op.k);
      } else if op.AddSp? {
        s := ExecAddSp(op.k);
      } else if op.Unary? {
        s := ExecUnary(op.g);
      } else if op == Load {
        s := ExecLoad();
      } else if op == LoadB {
        s := ExecLoadB();
      } else if op == LoadH {
        s := ExecLoadH();
      } else if op == PopPc || op == PopPcRel {
        s := ExecPopPc(op == PopPcRel);
      } else if op == Call {
        s := ExecCall();
      } else if op == CallPcRel {
        s := ExecCallPcRel();
      } else if op == PushSpAdd {
        s := ExecPushSpAdd();
      } else if op == PopSp {
        s := ExecPopSp();
      } else if op == PushPc || op == PushSp {
        s := ExecPush(op);
      } else {
        s := ExecPlain(op);
      }
    }

    /** nop, syscall, config, breakpoint and undefined opcodes. */
    method ExecPlain(op: Op) returns (s: Status)
      requires Valid() && !touchedPc && pc < RAM_SIZE && !decodeMask
      requires op == Nop || op == Syscall || op == Config || op == Breakpoint || op == Illegal
      modifies this`sp, this`pc, this`touchedPc, memory, io
      ensures Valid() && Did(old(memory[..]), old(io.View()), Native(old(Core()), op), Settled(), io.View(), s)
    {
      hide Native;
      PopsNone(Core(), op);
      s := Fine;
      if op == Breakpoint {
        s := Raised(BreakpointHit);
      } else if op == Illegal {
        s := Raised(IllegalInstruction);
      } else if op == Config {
        s := Emulate();
      }
    }

    /** The instructions that pop two words. */
    method ExecLarge(op: Op) returns (s: Status)
      requires Valid() && !touchedPc && pc < RAM_SIZE && !decodeMask && Pops(op, false) == 2
      modifies this`sp, this`pc, this`touchedPc, memory, io
      ensures Valid() && Did(old(memory[..]), old(io.View()), Native(old(Core()), op), Settled(), io.View(), s)
    {
      hide Did, Native, Valid;
      match op
      case Binary(f) => s := ExecBinary(f);
      case Div => s := ExecDiv();
      case Mod => s := ExecMod();
      case EqBranch => s := ExecBranch(true);
      case NeqBranch => s := ExecBranch(false);
      case Store => s := ExecStore();
      case StoreB => s := ExecStorePart(op);
      case StoreH => s := ExecStorePart(op);
    }

    method Execute(op: Op) returns (s: Status)
      requires Valid() && !touchedPc && pc < RAM_SIZE && (op.Im? ==> op.bits < 128)
      modifies this`sp, this`pc, this`touchedPc, this`decodeMask, memory, io
      ensures Valid() && Did(old(memory[..]), old(io.View()), old(Expected(op)), Settled(), io.View(), s)
    {
      hide Native, Cpu.Emulate;
      if op.Im? {
        s := ExecIm(op.bits);
        return;
      }
      MaskIrrelevant(Core(), op);
      EmulateWithoutMask(Core());
      decodeMask := false;
      assert Core() == old(Core()).(decodeMask := false);
      if op in feeble && Emulatable(op) {
        s := Emulate();
      } else if op in feeble && op == Syscall {
        s := Raised(IllegalInstruction);
      } else if Pops(op, false) == 2 {
        s := ExecLarge(op);
      } else {
        s := ExecSmall(op);
      }
    }

    /** pc moves on unless the instruction has set it. */
    method Advance(op: Op) returns (s: Status)
      requires Valid() && !touchedPc && pc < RAM_SIZE && (op.Im? ==> op.bits < 128)
      modifies this`sp, this`pc, this`touchedPc, this`decodeMask, memory, io
      ensures Valid() && Did(old(memory[..]), old(io.View()), old(Expected(op)), Core(), io.View(), s)
    {
      hide Perform;
      s := Execute(op);
      if s == Fine && !touchedPc {
        pc := pc + 1;
      }
    }

    // ---- Commit and rollback ----

    /** The body of executeInstruction behind the checks: fetch, execute, advance pc, commit. */
    method ExecuteInstruction() returns (s: Status)
      requires Valid()
      modifies this`sp, this`pc, this`touchedPc, this`decodeMask, this`commit, this`savedPc, this`savedSp
      modifies this`savedDecodeMask, this`instructionCount, memory, io
      ensures Valid() && commit == (s == Fine)
      ensures instructionCount == old(instructionCount) + (if s == Fine then 1 else 0)
      ensures savedPc == old(pc) && savedSp == old(sp) && savedDecodeMask == old(decodeMask)
      ensures Did(old(memory[..]), if old(pc) < RAM_SIZE then Ticked(old(io.View())) else old(io.View()),
                  Effect(feeble, old(Core())), Core(), io.View(), s)
    {
      hide Native, Cpu.Emulate, Emulatable, EmulateCode, Decode, Effect, Byte, Perform;
      commit := false;
      savedSp, savedPc, savedDecodeMask := sp, pc, decodeMask;
      touchedPc := false;
      FaultAtEnd(feeble, Core());
      if pc >= RAM_SIZE {
        Unperformed(memory[..], io.View());
        return Raised(OutOfBounds);
      }
      EffectIs(feeble, Core());
      io.Tick();
      var op := Decode(Byte(memory[pc / 4], pc % 4));
      ImBits(Byte(memory[pc / 4], pc % 4));
      s := Advance(op);
      if s.Raised? {
        return;
      }
      commit := true;
      instructionCount := instructionCount + 1;
    }

    method CheckCommit()
      modifies this`sp, this`pc, this`decodeMask, this`commit
      ensures commit
      ensures if old(commit) then pc == old(pc) && sp == old(sp) && decodeMask == old(decodeMask)
              else pc == savedPc && sp == savedSp && decodeMask == savedDecodeMask
    {
      if !commit {
        decodeMask := savedDecodeMask;
        pc := savedPc;
        sp := savedSp;
        commit := true;
      }
    }

    method Suspend()
      modifies this`breakNext
      ensures breakNext
    {
      breakNext := true;
    }

    /** An instruction with its exception handler: whatever fault is raised, the next turn sees the
        pc, sp and decode mask from before the instruction. */
    method Attempt()
      requires Valid()
      modifies this`sp, this`pc, this`touchedPc, this`decodeMask, this`commit, this`savedPc, this`savedSp
      modifies this`savedDecodeMask, this`instructionCount, this`breakNext, memory, io
      ensures Valid() && commit
      ensures Whole() == Machines.Attempt(feeble, old(Whole()))
    {
      hide Effect, Did;
      var s := ExecuteInstruction();
      AttemptDid(feeble, old(Whole()), Core(), io.View(), s);
      if s.Raised? {
        Suspend();
      }
      CheckCommit();
    }

    // ---- Vectors and interrupts ----

    /** What holds between turns of the instruction loop: sp is aligned, nothing is half done, and a
        vector is only armed for an interrupt between instructions. */
    ghost predicate Invariant()
      reads this, memory
    {
      Valid() && commit && (hitVector ==> !decodeMask && nextVector == 1)
    }

    /** invokeVector, if a vector is armed: pc is pushed and control enters the vector.  When the push
        faults, sp stays where it has been moved. */
    method CheckVector() returns (s: Status)
      requires Invariant()
      modifies this`sp, this`pc, this`touchedPc, this`hitVector, memory, io
      ensures Invariant() && (s == Fine <==> Machines.CheckVector(old(Whole())).Entered?)
      ensures Whole() == Machines.CheckVector(old(Whole())).m.(halting := breakNext)
    {
      s := Fine;
      if hitVector {
        hitVector := false;
        s := Push(Wrap(pc));
        if s == Fine {
          s := SetPc(nextVector * VECTOR_SIZE);
        }
      }
    }

    /** armVector, for an interrupt. */
    method ArmVector()
      modifies this`hitVector, this`nextVector
      ensures hitVector && nextVector == 1
    {
      hitVector := true;
      nextVector := 1;
    }

    /** One turn of the instruction loop, without the halt check, whenever the turn ends. */
    method Turn()
      requires Invariant() && Machines.Turn(feeble, Whole()).After?
      modifies this, memory, io
      ensures Invariant() && Machines.Turn(feeble, old(Whole())) == After(Whole())
      ensures old(decodeMask) && Step(feeble, old(Core())).Ran? ==> Core() == Step(feeble, old(Core())).c && !hitVector
    {
      InsideIm(feeble, Whole());
      hide Machines.Attempt, Machines.CheckVector, Checked, Caught;
      var s := CheckVector();
      if s.Raised? {
        Suspend();
        CheckCommit();
        return;
      }
      var deliver := io.CheckInterrupts(decodeMask);
      DeliversUnmasked(Machines.CheckVector(old(Whole())).m.device, decodeMask);
      if deliver {
        ArmVector();
      } else {
        Attempt();
      }
    }

    /** n turns of the endless loop. */
    method InstructionLoop(n: nat)
      requires Invariant() && Turns(feeble, Whole(), n).After?
      modifies this, memory, io
      ensures Invariant() && Turns(feeble, old(Whole()), n) == After(Whole())
    {
      hide Machines.Turn;
      for i := 0 to n
        invariant Invariant() && Turns(feeble, Whole(), n - i) == Turns(feeble, old(Whole()), n)
      {
        Turn();
      }
    }
  }

  lemma VectorAddress(b: int)
    requires 0 <= b < 256
    ensures if b < 32 then Wrap((b - 32) * VECTOR_SIZE) > RAM_SIZE
            else Wrap((b - 32) * VECTOR_SIZE) == (b - 32) * VECTOR_SIZE <= RAM_SIZE
  {
  }

  /** emulate: the push has faulted. */
  lemma PushRaised(c: State, d: Device, c': State, s: Status)
    requires Cpu.Valid(c) && c.pc < RAM_SIZE && s.Raised? && c'.mem == c.mem
    requires var r := WriteLong((c.sp - 4) % M, Word(Wrap(c.pc + 1))); r.Got? ==> Perform(c.mem, d, r.t).Bad?
    ensures Did(c.mem, d, Cpu.Emulate(c), c', d, s)
  {
    hide Byte, WriteLong;
  }

  /** emulate: the push has been made and the byte at pc is now b. */
  lemma PushReread(c: State, d: Device, b: int, c': State, d': Device, s: Status)
    requires Cpu.Valid(c) && c.pc < RAM_SIZE && 0 <= b < 256
    requires var r := WriteLong((c.sp - 4) % M, Word(Wrap(c.pc + 1)));
      r.Got? && Perform(c.mem, d, r.t) == Got(Effects(c'.mem, d'))
    requires b == Byte(c'.mem[c.pc / 4], c.pc % 4)
    requires if b < 32 then s.Raised?
             else s == Fine && c'.pc == (b - 32) * VECTOR_SIZE && c'.sp == (c.sp - 4) % M && !c'.decodeMask
    ensures Did(c.mem, d, Cpu.Emulate(c), c', d', s)
  {
    hide Byte;
  }

  lemma ImBits(b: int)
    requires 0 <= b < 256
    ensures Decode(b).Im? ==> Decode(b).bits < 128
  {
  }

  lemma Unperformed(mem: seq<word>, d: Device)
    ensures Perform(mem, d, NoWrite) == Got(Effects(mem, d))
  {
  }

  lemma EffectIs(feeble: set<Op>, c: State)
    requires Cpu.Valid(c) && c.pc < RAM_SIZE
    ensures var op := Decode(Byte(c.mem[c.pc / 4], c.pc % 4));
      Effect(feeble, c)
      == if op in feeble && Emulatable(op) then Cpu.Emulate(c)
         else if op in feeble && op == Syscall then Trap(IllegalInstruction, NoWrite)
         else Native(c, op)
  {
    hide Decode, Byte, Native, Cpu.Emulate;
  }

  lemma FaultAtEnd(feeble: set<Op>, c: State)
    requires Cpu.Valid(c)
    ensures c.pc == RAM_SIZE ==> Effect(feeble, c) == Trap(OutOfBounds, NoWrite)
  {
  }

  /** Only im looks at the decode mask. */
  lemma MaskIrrelevant(c: State, op: Op)
    requires Cpu.Valid(c) && c.pc < RAM_SIZE && !op.Im?
    ensures Native(c, op) == Native(c.(decodeMask := false), op)
  {
    hide OnTop, OnTwo, OnNone, Native, Pops;
    var d := c.(decodeMask := false);
    PopsWithoutMask(op, c.decodeMask);
    if Pops(op, false) == 0 {
      PopsNone(c, op);
      PopsNone(d, op);
      NoneWithoutMask(c, op);
    } else if Pops(op, false) == 1 {
      PopsOne(c, op);
      PopsOne(d, op);
      if c.sp < RAM_SIZE {
        TopWithoutMask(c, op, c.mem[c.sp / 4]);
      }
    } else {
      PopsTwo(c, op);
      PopsTwo(d, op);
      if c.sp + 4 < RAM_SIZE {
        TwoWithoutMask(c, op, c.mem[c.sp / 4], c.mem[c.sp / 4 + 1]);
      }
    }
  }

  lemma EmulateWithoutMask(c: State)
    requires Cpu.Valid(c) && c.pc < RAM_SIZE
    ensures Cpu.Emulate(c) == Cpu.Emulate(c.(decodeMask := false))
  {
  }

  lemma PopsWithoutMask(op: Op, mask: bool)
    requires !op.Im?
    ensures Pops(op, mask) == Pops(op, false) && 0 <= Pops(op, false) <= 2
  {
  }

  lemma NoneWithoutMask(c: State, op: Op)
    requires Cpu.Valid(c) && c.pc < RAM_SIZE && !op.Im?
    ensures OnNone(c, op) == OnNone(c.(decodeMask := false), op)
  {
  }

  lemma TopWithoutMask(c: State, op: Op, a: word)
    requires Cpu.Valid(c) && c.pc < RAM_SIZE && c.sp < RAM_SIZE && !op.Im?
    ensures OnTop(c, op, a) == OnTop(c.(decodeMask := false), op, a)
  {
    hide Alu1Value, Byte;
  }

  lemma TwoWithoutMask(c: State, op: Op, a: word, b: word)
    requires Cpu.Valid(c) && c.pc < RAM_SIZE && c.sp + 4 < RAM_SIZE
    ensures OnTwo(c, op, a, b) == OnTwo(c.(decodeMask := false), op, a, b)
  {
    hide Alu2Value, SetByte, SetHalf, Quotient;
  }

  /** The second byte of a half-word is in the same word. */
  lemma NextByte(a: word)
    requires a % 2 == 0
    ensures a + 1 < M && (a + 1) / 4 == a / 4 && (a + 1) % 4 == a % 4 + 1 && (a % 4 == 0 || a % 4 == 2)
    ensures a < RAM_SIZE <==> a + 1 < RAM_SIZE
    ensures a >= M - 3 ==> a + 1 >= M - 3
  {
  }

  /** High byte first, then the low byte: the half is replaced. */
  lemma BytesMakeHalf(w: word, k: int, v: word)
    requires k == 0 || k == 2
    ensures SetByte(SetByte(w, k, v / 256), k + 1, v) == SetHalf(w, k, v)
  {
    hide Byte;
    var high := v / 256 % 256;
    var u := SetByte(w, k, v / 256);
    if k == 0 {
      BytesOfJoin(high, Byte(w, 1), Byte(w, 2), Byte(w, 3));
    } else {
      BytesOfJoin(Byte(w, 0), Byte(w, 1), high, Byte(w, 3));
    }
  }

  lemma FlipIsUnary(x: word)
    ensures Alu1Value(Flip_, x) == FlipWord(x)
  {
  }

  /** In front of a byte that continues a run of IM bytes no vector is taken: the instruction is executed. */
  lemma InsideIm(feeble: set<Op>, m: Machine)
    requires Cpu.Valid(m.core) && (m.hitVector ==> !m.core.decodeMask) && Machines.Turn(feeble, m).After?
    ensures m.core.decodeMask && Step(feeble, m.core).Ran? ==>
      Machines.Turn(feeble, m).m.core == Step(feeble, m.core).c && !Machines.Turn(feeble, m).m.hitVector
  {
    hide Step, Machines.Attempt, Checked;
    if m.core.decodeMask && Step(feeble, m.core).Ran? {
      NoDeliveryInsideIm(m.device);
      QuietTurn(feeble, m);
    }
  }

  /** What an attempted instruction leaves once a fault has been rolled back. */
  lemma AttemptDid(feeble: set<Op>, m: Machine, c': State, d': Device, s: Status)
    requires Cpu.Valid(m.core)
    requires Did(m.core.mem, if m.core.pc < RAM_SIZE then Ticked(m.device) else m.device, Effect(feeble, m.core), c', d', s)
    ensures Machines.Attempt(feeble, m)
         == if s.Raised? then m.(core := m.core.(mem := c'.mem), device := d', halting := true)
            else m.(core := c', device := d', retired := m.retired + 1)
  {
    hide Effect, Perform;
  }
}
