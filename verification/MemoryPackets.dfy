/** The memory packets of the debugger: `M` stores hexadecimal bytes, `m` returns them. */
module MemoryPackets {
  import opened Words
  import opened Isa
  import C = Cpu
  import opened Simulation
  import opened Packets

  const COMMA: int := 0x2c
  const COLON: int := 0x3a

  // ---- Numbers in commands ----

  function HexRun(s: text): (k: nat)
    ensures k <= |s|
  {
    if s == [] || DigitValue(s[0]) < 0 then 0 else 1 + HexRun(s[1..])
  }

  function HexValue(s: text): int {
    if s == [] then 0 else HexValue(s[..|s| - 1]) * 16 + DigitValue(s[|s| - 1])
  }

  datatype Number = NoNumber | Number(value: word, rest: text)

  /** extractInteger: an optional sign and the hexadecimal digits the command starts with, read as a
      long and truncated to an int. */
  function ExtractInteger(s: text): Number {
    var negative := s != [] && s[0] == MINUS;
    var digits := if negative then s[1..] else s;
    var k := HexRun(digits);
    var v := if negative then -HexValue(digits[..k]) else HexValue(digits[..k]);
    if k == 0 || !(-0x8000_0000_0000_0000 <= v < 0x8000_0000_0000_0000) then NoNumber
    else Number(Wrap(v), digits[k..])
  }

  /** Integer.toHexString. */
  function HexText(n: nat): text {
    if n < 16 then [HexDigit(n)] else HexText(n / 16) + [HexDigit(n % 16)]
  }

  lemma DigitRoundTrip(d: int)
    requires 0 <= d < 16
    ensures DigitValue(HexDigit(d)) == d && HexDigit(d) != MINUS
  {
  }

  lemma {:induction false} HexTextReads(n: nat)
    ensures HexText(n) != [] && HexValue(HexText(n)) == n
    ensures forall i :: 0 <= i < |HexText(n)| ==> DigitValue(HexText(n)[i]) >= 0 && HexText(n)[i] != MINUS
    decreases n
  {
    DigitRoundTrip(n % 16);
    if n < 16 {
      assert HexText(n)[..0] == [];
      assert HexValue(HexText(n)) == HexValue([]) * 16 + n;
    } else {
      HexTextReads(n / 16);
      assert HexText(n)[..|HexText(n)| - 1] == HexText(n / 16);
    }
  }

  lemma {:induction false} RunStops(s: text, rest: text)
    requires (forall i :: 0 <= i < |s| ==> DigitValue(s[i]) >= 0) && (rest == [] || DigitValue(rest[0]) < 0)
    ensures HexRun(s + rest) == |s|
    decreases |s|
  {
    if s == [] {
      assert s + rest == rest;
    } else {
      assert (s + rest)[1..] == s[1..] + rest;
      RunStops(s[1..], rest);
    }
  }

  /** A number written by toHexString is read back, up to the first other character. */
  lemma NumberRoundTrip(n: word, rest: text)
    requires rest == [] || DigitValue(rest[0]) < 0
    ensures ExtractInteger(HexText(n) + rest) == Number(n, rest)
  {
    hide HexText, HexValue, HexRun;
    var s := HexText(n);
    HexTextReads(n);
    RunStops(s, rest);
    assert (s + rest)[0] == s[0];
    assert (s + rest)[..|s|] == s && (s + rest)[|s|..] == rest;
  }

  // ---- Bytes of memory ----

  function ByteAt(mem: seq<word>, a: int): int
    requires 0 <= a < 4 * |mem|
  {
    Byte(mem[a / 4], a % 4)
  }

  function WithByte(mem: seq<word>, a: int, v: word): (r: seq<word>)
    requires 0 <= a < 4 * |mem|
    ensures |r| == |mem|
  {
    mem[a / 4 := SetByte(mem[a / 4], a % 4, v)]
  }

  lemma WithByteAt(mem: seq<word>, a: int, v: word, b: int)
    requires 0 <= a < 4 * |mem| && 0 <= b < 4 * |mem|
    ensures ByteAt(WithByte(mem, a, v), b) == if b == a then v % 256 else ByteAt(mem, b)
  {
    hide Byte;
    var w := mem[a / 4];
    SetByteBytes(w, a % 4, v);
    assert b / 4 == a / 4 && b % 4 == a % 4 ==> b == a;
  }

  lemma SetByteBytes(w: word, k: int, v: word)
    requires 0 <= k < 4
    ensures Byte(SetByte(w, k, v), 0) == if k == 0 then v % 256 else Byte(w, 0)
    ensures Byte(SetByte(w, k, v), 1) == if k == 1 then v % 256 else Byte(w, 1)
    ensures Byte(SetByte(w, k, v), 2) == if k == 2 then v % 256 else Byte(w, 2)
    ensures Byte(SetByte(w, k, v), 3) == if k == 3 then v % 256 else Byte(w, 3)
  {
    hide Byte;
    var b := v % 256;
    BytesOfJoin(if k == 0 then b else Byte(w, 0), if k == 1 then b else Byte(w, 1),
                if k == 2 then b else Byte(w, 2), if k == 3 then b else Byte(w, 3));
  }

  // ---- What the packets do ----

  datatype Stored = Stored(mem: seq<word>, ok: bool)

  /** The byte loop of writeMemory; a fault leaves the bytes stored before it. */
  function StoreHex(mem: seq<word>, a: word, length: int, s: text): (r: Stored)
    requires |mem| == C.RAM_WORDS
    ensures |r.mem| == |mem|
    decreases length
  {
    if length <= 0 then Stored(mem, true)
    else if |s| < 2 then Stored(mem, false)
    else match ParseHex2(s[0], s[1])
      case None => Stored(mem, false)
      case Some(v) =>
        if a < C.RAM_SIZE then StoreHex(WithByte(mem, a, Wrap(v)), Wrap(a + 1), length - 1, s[2..])
        else Stored(mem, false)
  }

  datatype Fetched = Fetched(reply: text, ok: bool)

  /** The byte loop of readMemory. */
  function FetchHex(mem: seq<word>, a: word, length: int): Fetched
    requires |mem| == C.RAM_WORDS
    decreases length
  {
    if length <= 0 then Fetched([], true)
    else if a < C.RAM_SIZE then
      var f := FetchHex(mem, Wrap(a + 1), length - 1);
      Fetched(Hex2(ByteAt(mem, a)) + f.reply, f.ok)
    else Fetched([], false)
  }

  function HexOf(vals: seq<int>): text {
    if vals == [] then [] else Hex2(vals[0]) + HexOf(vals[1..])
  }

  predicate ByteValues(vals: seq<int>) {
    forall i :: 0 <= i < |vals| ==> 0 <= vals[i] < 256
  }

  /** In range, the bytes named are stored in order and every other byte keeps its value. */
  lemma {:induction false} StoresExactly(mem: seq<word>, a: word, vals: seq<int>, b: int)
    requires |mem| == C.RAM_WORDS && ByteValues(vals) && a + |vals| <= C.RAM_SIZE && 0 <= b < C.RAM_SIZE
    ensures var r := StoreHex(mem, a, |vals|, HexOf(vals));
      r.ok && ByteAt(r.mem, b) == if a <= b < a + |vals| then vals[b - a] else ByteAt(mem, b)
    decreases |vals|
  {
    hide ByteAt, WithByte, StoreHex, HexOf;
    if vals == [] {
      StoreNone(mem, a);
    } else {
      var rest, next := vals[1..], WithByte(mem, a, vals[0]);
      StoreStep(mem, a, vals);
      WithByteAt(mem, a, vals[0], b);
      StoresExactly(next, a + 1, rest, b);
      assert a + 1 <= b < a + |vals| ==> rest[b - (a + 1)] == vals[b - a];
    }
  }

  lemma StoreNone(mem: seq<word>, a: word)
    requires |mem| == C.RAM_WORDS
    ensures StoreHex(mem, a, 0, HexOf([])) == Stored(mem, true)
  {
  }

  lemma StoreStep(mem: seq<word>, a: word, vals: seq<int>)
    requires |mem| == C.RAM_WORDS && ByteValues(vals) && vals != [] && a < C.RAM_SIZE
    ensures StoreHex(mem, a, |vals|, HexOf(vals))
         == StoreHex(WithByte(mem, a, vals[0]), a + 1, |vals[1..]|, HexOf(vals[1..]))
  {
    hide WithByte, ParseHex2, Hex2;
    HexRoundTrip(vals[0]);
    var s := HexOf(vals);
    assert |Hex2(vals[0])| == 2 by { TwoDigits(vals[0]); }
    assert s[0] == Hex2(vals[0])[0] && s[1] == Hex2(vals[0])[1] && s[2..] == HexOf(vals[1..]);
  }

  lemma TwoDigits(b: int)
    ensures |Hex2(b)| == 2
  {
  }

  lemma {:induction false} FetchesBytes(mem: seq<word>, a: word, vals: seq<int>)
    requires |mem| == C.RAM_WORDS && a + |vals| <= C.RAM_SIZE
    requires forall i :: 0 <= i < |vals| ==> ByteAt(mem, a + i) == vals[i]
    ensures FetchHex(mem, a, |vals|) == Fetched(HexOf(vals), true)
    decreases |vals|
  {
    hide ByteAt;
    if vals != [] {
      assert ByteAt(mem, a + 0) == vals[0];
      forall i | 0 <= i < |vals[1..]| ensures ByteAt(mem, a + 1 + i) == vals[1..][i] {
        assert ByteAt(mem, a + (i + 1)) == vals[i + 1];
      }
      FetchesBytes(mem, a + 1, vals[1..]);
    }
  }

  /** An M packet in range followed by an m packet for the same bytes returns the same digits. */
  lemma WriteThenRead(mem: seq<word>, a: word, vals: seq<int>)
    requires |mem| == C.RAM_WORDS && ByteValues(vals) && a + |vals| <= C.RAM_SIZE
    ensures var r := StoreHex(mem, a, |vals|, HexOf(vals));
      r.ok && FetchHex(r.mem, a, |vals|) == Fetched(HexOf(vals), true)
  {
    hide StoreHex, FetchHex, HexOf, ByteAt;
    var r := StoreHex(mem, a, |vals|, HexOf(vals));
    StoresExactly(mem, a, vals, 0);
    forall i | 0 <= i < |vals| ensures ByteAt(r.mem, a + i) == vals[i] {
      StoresExactly(mem, a, vals, a + i);
    }
    FetchesBytes(r.mem, a, vals);
  }

  /** The loop stores byte by byte: what follows the first bytes is taken from where they end. */
  lemma {:induction false} StoreFirst(mem: seq<word>, a: word, vals: seq<int>, length: int, tail: text)
    requires |mem| == C.RAM_WORDS && ByteValues(vals) && a + |vals| <= C.RAM_SIZE && |vals| <= length
    ensures var mem' := StoreHex(mem, a, |vals|, HexOf(vals)).mem;
      StoreHex(mem, a, length, HexOf(vals) + tail) == StoreHex(mem', a + |vals|, length - |vals|, tail)
    decreases |vals|
  {
    hide ByteAt, WithByte, StoreHex, HexOf, ParseHex2, Hex2;
    if vals == [] {
      StoreNone(mem, a);
      assert HexOf([]) + tail == tail by { NoHex(); }
    } else {
      StoreStep(mem, a, vals);
      StoreStepBefore(mem, a, vals, length, tail);
      StoreFirst(WithByte(mem, a, vals[0]), a + 1, vals[1..], length - 1, tail);
    }
  }

  lemma NoHex()
    ensures HexOf([]) == []
  {
  }

  lemma StoreStepBefore(mem: seq<word>, a: word, vals: seq<int>, length: int, tail: text)
    requires |mem| == C.RAM_WORDS && ByteValues(vals) && vals != [] && a < C.RAM_SIZE && length > 0
    ensures StoreHex(mem, a, length, HexOf(vals) + tail)
         == StoreHex(WithByte(mem, a, vals[0]), a + 1, length - 1, HexOf(vals[1..]) + tail)
  {
    hide WithByte, ParseHex2, Hex2;
    HexRoundTrip(vals[0]);
    var s := HexOf(vals) + tail;
    assert |Hex2(vals[0])| == 2 by { TwoDigits(vals[0]); }
    assert s[0] == Hex2(vals[0])[0] && s[1] == Hex2(vals[0])[1] && s[2..] == HexOf(vals[1..]) + tail;
  }

  /** A write that runs into the end of RAM, or into something that is not two digits, stops there: the bytes
      before are stored, no other byte is changed, and the packet fails. */
  lemma StopsThere(mem: seq<word>, a: word, vals: seq<int>, length: int, tail: text, b: int)
    requires |mem| == C.RAM_WORDS && ByteValues(vals) && a + |vals| <= C.RAM_SIZE && |vals| < length && 0 <= b < C.RAM_SIZE
    requires a + |vals| == C.RAM_SIZE || |tail| < 2 || ParseHex2(tail[0], tail[1]) == None
    ensures var r := StoreHex(mem, a, length, HexOf(vals) + tail);
      !r.ok && ByteAt(r.mem, b) == if a <= b < a + |vals| then vals[b - a] else ByteAt(mem, b)
  {
    hide ByteAt, StoreHex, HexOf, ParseHex2;
    StoreFirst(mem, a, vals, length, tail);
    StoreOne(StoreHex(mem, a, |vals|, HexOf(vals)).mem, a + |vals|, length - |vals|, tail);
    StoresExactly(mem, a, vals, b);
  }

  /** A read that runs into the end of RAM replies with the bytes before it, and fails. */
  lemma {:induction false} FetchStops(mem: seq<word>, a: word, vals: seq<int>, length: int)
    requires |mem| == C.RAM_WORDS && a + |vals| == C.RAM_SIZE && |vals| < length
    requires forall i :: 0 <= i < |vals| ==> ByteAt(mem, a + i) == vals[i]
    ensures FetchHex(mem, a, length) == Fetched(HexOf(vals), false)
    decreases |vals|
  {
    hide ByteAt;
    if vals != [] {
      assert ByteAt(mem, a + 0) == vals[0];
      forall i | 0 <= i < |vals[1..]| ensures ByteAt(mem, a + 1 + i) == vals[1..][i] {
        assert ByteAt(mem, a + (i + 1)) == vals[i + 1];
      }
      FetchStops(mem, a + 1, vals[1..], length - 1);
    }
  }

  /** The value of hexadecimal digits, from the last on. */
  lemma ValueOfDigits(s: text, c: int)
    ensures HexValue(s + [c]) == 0x10 * HexValue(s) + DigitValue(c) && HexValue([]) == 0
  {
    assert (s + [c])[..|s|] == s;
  }

  /** "-1f," is -31, and "800000001" is cut to its low 32 bits. */
  lemma NumberExamples()
    ensures ExtractInteger([0x2d, 0x31, 0x66, 0x2c]) == Number(0xffff_ffe1, [0x2c])
    ensures ExtractInteger([0x38, 0x30, 0x30, 0x30, 0x30, 0x30, 0x30, 0x30, 0x31]) == Number(1, [])
  {
    hide HexRun, HexValue;
    var s, n := [0x31, 0x66], [0x2c];
    RunStops(s, n);
    assert s + n == [0x31, 0x66, 0x2c] && [0x2d, 0x31, 0x66, 0x2c][1..] == s + n;
    ValueOfDigits([], 0x31);
    ValueOfDigits([0x31], 0x66);
    assert [] + [0x31] == [0x31] && [0x31] + [0x66] == s;
    assert (s + n)[..2] == s && (s + n)[2..] == n;
    LongNumber();
  }

  lemma LongNumber()
    ensures ExtractInteger([0x38, 0x30, 0x30, 0x30, 0x30, 0x30, 0x30, 0x30, 0x31]) == Number(1, [])
  {
    hide HexRun, HexValue;
    var t := [0x38, 0x30, 0x30, 0x30, 0x30, 0x30, 0x30, 0x30, 0x31];
    RunStops(t, []);
    assert t + [] == t && t[..9] == t && t[9..] == [];
    var z := [0x38];
    ValueOfDigits([], 0x38);
    assert [] + [0x38] == z;
    for k := 0 to 7
      invariant |z| == k + 1 && z == t[..k + 1] && HexValue(z) == 8 * Sixteen(k)
    {
      ValueOfDigits(z, 0x30);
      z := z + [0x30];
    }
    ValueOfDigits(z, 0x31);
    assert t == z + [0x31];
    assert Sixteen(7) == 0x1000_0000;
  }

  function Sixteen(k: nat): nat {
    if k == 0 then 1 else 16 * Sixteen(k - 1)
  }

  // ---- The commands ----

  const LETTER_M: int := 77
  const LETTER_m: int := 109

  predicate Starts(s: text, c: int) {
    s != [] && s[0] == c
  }

  /** The two numbers of a memory command and what follows the second. */
  datatype Operands = Malformed | Operands(address: word, length: int, rest: text)

  function ParseOperands(cmd: text, letter: int): Operands {
    if !Starts(cmd, letter) then Malformed
    else match ExtractInteger(cmd[1..])
      case NoNumber => Malformed
      case Number(a, r) =>
        if !Starts(r, COMMA) then Malformed
        else match ExtractInteger(r[1..])
          case NoNumber => Malformed
          case Number(n, rest) => Operands(a, Signed(n), rest)
  }

  /** Memory after an M packet, and whether it is answered with OK. */
  function WriteCommand(mem: seq<word>, cmd: text): Stored
    requires |mem| == C.RAM_WORDS
  {
    match ParseOperands(cmd, LETTER_M)
    case Malformed => Stored(mem, false)
    case Operands(a, n, rest) => if Starts(rest, COLON) then StoreHex(mem, a, n, rest[1..]) else Stored(mem, false)
  }

  /** The reply to an m packet. */
  function ReadCommand(mem: seq<word>, cmd: text): Fetched
    requires |mem| == C.RAM_WORDS
  {
    match ParseOperands(cmd, LETTER_m)
    case Malformed => Fetched([], false)
    case Operands(a, n, rest) => if rest == [] then FetchHex(mem, a, n) else Fetched([], false)
  }

  function WriteText(a: word, vals: seq<int>): text {
    [LETTER_M] + (HexText(a) + ([COMMA] + (HexText(|vals|) + ([COLON] + HexOf(vals)))))
  }

  function ReadText(a: word, n: nat): text {
    [LETTER_m] + (HexText(a) + ([COMMA] + (HexText(n) + [])))
  }

  /** The packets "M1f,1:a0" and "m1f,1". */
  lemma TextExamples()
    ensures WriteText(0x1f, [0xa0]) == [0x4d, 0x31, 0x66, 0x2c, 0x31, 0x3a, 0x61, 0x30]
    ensures ReadText(0x1f, 1) == [0x6d, 0x31, 0x66, 0x2c, 0x31]
  {
    assert HexText(1) == [0x31] && HexText(0x1f) == HexText(1) + [0x66];
    assert HexOf([0xa0]) == Hex2(0xa0) + HexOf([]) == [0x61, 0x30];
  }

  lemma OperandsOf(letter: int, a: word, n: word, rest: text)
    requires n < 0x8000_0000 && (rest == [] || DigitValue(rest[0]) < 0)
    ensures ParseOperands([letter] + (HexText(a) + ([COMMA] + (HexText(n) + rest))), letter) == Operands(a, n, rest)
  {
    hide ExtractInteger, HexText;
    var tail := [COMMA] + (HexText(n) + rest);
    NumberRoundTrip(a, tail);
    NumberRoundTrip(n, rest);
    assert ([letter] + (HexText(a) + tail))[1..] == HexText(a) + tail;
    assert tail[1..] == HexText(n) + rest;
  }

  /** The text of an M packet in range, and then that of an m packet: the bytes are stored, every other
      byte is unchanged, and the reply has the same digits. */
  lemma MemoryPacketsRoundTrip(mem: seq<word>, a: word, vals: seq<int>, b: int)
    requires |mem| == C.RAM_WORDS && ByteValues(vals) && a + |vals| <= C.RAM_SIZE && 0 <= b < C.RAM_SIZE
    ensures var r := WriteCommand(mem, WriteText(a, vals));
      && r.ok && ReadCommand(r.mem, ReadText(a, |vals|)) == Fetched(HexOf(vals), true)
      && ByteAt(r.mem, b) == if a <= b < a + |vals| then vals[b - a] else ByteAt(mem, b)
  {
    hide StoreHex, FetchHex, HexOf, ByteAt, HexText, ParseOperands;
    OperandsOf(LETTER_M, a, |vals|, [COLON] + HexOf(vals));
    OperandsOf(LETTER_m, a, |vals|, []);
    assert ([COLON] + HexOf(vals))[1..] == HexOf(vals);
    WriteThenRead(mem, a, vals);
    StoresExactly(mem, a, vals, b);
  }

  class Command {
    const simulator: Simulator
    var cmd: text
    var reply: text

    constructor (s: Simulator, c: text)
      ensures simulator == s && cmd == c && reply == []
    {
      simulator, cmd, reply := s, c, [];
    }

    /** extractString for one character. */
    method ExtractChar(c: int) returns (ok: bool)
      modifies this`cmd
      ensures ok == Starts(old(cmd), c) && cmd == if ok then old(cmd)[1..] else old(cmd)
    {
      ok := cmd != [] && cmd[0] == c;
      if ok {
        cmd := cmd[1..];
      }
    }

    method ExtractNumber() returns (n: Number)
      modifies this`cmd
      ensures n == ExtractInteger(old(cmd)) && cmd == if n.Number? then n.rest else old(cmd)
    {
      n := ExtractInteger(cmd);
      if n.Number? {
        cmd := n.rest;
      }
    }

    method ExtractOperands(letter: int) returns (o: Operands)
      modifies this`cmd
      ensures o == ParseOperands(old(cmd), letter) && (o.Operands? ==> cmd == o.rest)
    {
      var ok := ExtractChar(letter);
      if !ok {
        return Malformed;
      }
      var a := ExtractNumber();
      if a == NoNumber {
        return Malformed;
      }
      ok := ExtractChar(COMMA);
      if !ok {
        return Malformed;
      }
      var n := ExtractNumber();
      if n == NoNumber {
        return Malformed;
      }
      o := Operands(a.value, Signed(n.value), n.rest);
    }

    /** writeMemory. */
    method WriteMemory() returns (ok: bool)
      requires simulator.Valid()
      modifies this, simulator.memory
      ensures simulator.Valid()
      ensures Stored(simulator.memory[..], ok) == WriteCommand(old(simulator.memory[..]), old(cmd))
      ensures reply == old(reply) + if ok then [0x4f, 0x4b] else []
    {
      hide StoreHex;
      var o := ExtractOperands(LETTER_M);
      if o == Malformed {
        return false;
      }
      ok := ExtractChar(COLON);
      if !ok {
        return;
      }
      ok := StoreBytes(o.address, o.length);
      if ok {
        reply := reply + [79, 75];
      }
    }

    method StoreBytes(address: word, length: int) returns (ok: bool)
      requires simulator.Valid()
      modifies simulator.memory
      ensures simulator.Valid()
      ensures Stored(simulator.memory[..], ok) == StoreHex(old(simulator.memory[..]), address, length, cmd)
    {
      hide StoreHex, SetByte, ParseHex2;
      var i := 0;
      assert cmd[0..] == cmd;
      while i < length
        invariant 0 <= 2 * i <= |cmd|
        invariant StoreHex(simulator.memory[..], Wrap(address + i), length - i, cmd[2 * i..])
               == StoreHex(old(simulator.memory[..]), address, length, cmd)
        decreases length - i
      {
        StoreOne(simulator.memory[..], Wrap(address + i), length - i, cmd[2 * i..]);
        if |cmd| < 2 * i + 2 {
          return false;
        }
        var v := ParseHex2(cmd[2 * i], cmd[2 * i + 1]);
        if v == None {
          return false;
        }
        var s := simulator.WriteByte(Wrap(address + i), Wrap(v.value));
        if s.Raised? {
          return false;
        }
        NextAddress(address, i);
        assert cmd[2 * i..][2..] == cmd[2 * (i + 1)..];
        i := i + 1;
      }
      StoreOne(simulator.memory[..], Wrap(address + i), length - i, cmd[2 * i..]);
      ok := true;
    }

    /** readMemory. */
    method ReadMemory() returns (ok: bool)
      requires simulator.Valid() && reply == []
      modifies this
      ensures Fetched(reply, ok) == ReadCommand(old(simulator.memory[..]), old(cmd))
    {
      hide FetchHex;
      var o := ExtractOperands(LETTER_m);
      if o == Malformed || cmd != [] {
        return false;
      }
      ok := FetchBytes(o.address, o.length);
    }

    method FetchBytes(address: word, length: int) returns (ok: bool)
      requires simulator.Valid() && reply == []
      modifies this`reply
      ensures Fetched(reply, ok) == FetchHex(simulator.memory[..], address, length)
    {
      hide FetchHex, Byte, Hex2;
      var i := 0;
      ghost var mem := simulator.memory[..];
      assert [] + FetchHex(mem, address, length).reply == FetchHex(mem, address, length).reply;
      while i < length
        invariant i >= 0
        invariant FetchHex(mem, address, length) == Onto(reply, FetchHex(mem, Wrap(address + i), length - i))
        decreases length - i
      {
        var a := Wrap(address + i);
        FetchOne(mem, a, length - i, reply);
        if a >= C.RAM_SIZE {
          return false;
        }
        var b, s := simulator.ReadByteInternal(a);
        NextAddress(address, i);
        reply := reply + Hex2(b);
        i := i + 1;
      }
      FetchOne(mem, Wrap(address + i), length - i, reply);
      ok := true;
    }
  }

  function Onto(reply: text, f: Fetched): Fetched {
    Fetched(reply + f.reply, f.ok)
  }

  lemma StoreOne(mem: seq<word>, a: word, length: int, s: text)
    requires |mem| == C.RAM_WORDS
    ensures StoreHex(mem, a, length, s) ==
      if length <= 0 then Stored(mem, true)
      else if |s| < 2 || ParseHex2(s[0], s[1]) == None || a >= C.RAM_SIZE then Stored(mem, false)
      else StoreHex(mem[a / 4 := SetByte(mem[a / 4], a % 4, Wrap(ParseHex2(s[0], s[1]).value))], Wrap(a + 1),
                    length - 1, s[2..])
  {
  }

  lemma FetchOne(mem: seq<word>, a: word, length: int, reply: text)
    requires |mem| == C.RAM_WORDS
    ensures Onto(reply, FetchHex(mem, a, length)) ==
      if length <= 0 then Fetched(reply, true)
      else if a >= C.RAM_SIZE then Fetched(reply, false)
      else Onto(reply + Hex2(Byte(mem[a / 4], a % 4)), FetchHex(mem, Wrap(a + 1), length - 1))
  {
    assert reply + [] == reply;
    if length > 0 && a < C.RAM_SIZE {
      var f := FetchHex(mem, Wrap(a + 1), length - 1);
      assert reply + (Hex2(ByteAt(mem, a)) + f.reply) == reply + Hex2(ByteAt(mem, a)) + f.reply;
    }
  }

  lemma NextAddress(a: word, i: int)
    ensures Wrap(Wrap(a + i) + 1) == Wrap(a + (i + 1))
  {
  }
}
