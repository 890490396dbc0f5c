/** Framing of GDB remote protocol packets (the GDB manual, appendix E.1): what sendReply frames,
    receive unframes, and a change of one payload character does not pass. */
module Packets {

  const DOLLAR: int := 0x24
  const HASH: int := 0x23
  const ESCAPE: int := 0x7d
  const ACK: int := 0x2b
  const NAK: int := 0x2d
  const MINUS: int := 0x2d

  /** Characters are their codes. */
  type text = seq<int>

  function HexDigit(v: int): int {
    if v < 10 then 48 + v else 87 + v
  }

  /** The value of a hexadecimal digit of either case, or -1. */
  function DigitValue(c: int): int {
    if 48 <= c <= 57 then c - 48
    else if 97 <= c <= 102 then c - 87
    else if 65 <= c <= 70 then c - 55
    else -1
  }

  /** Two lower-case digits. */
  function Hex2(b: int): text {
    [HexDigit(b / 16), HexDigit(b % 16)]
  }

  datatype Option<T> = None | Some(value: T)

  /** Integer.parseInt of two characters in base 16; it takes a sign in front of one digit. */
  function ParseHex2(c: int, d: int): Option<int> {
    if DigitValue(d) < 0 then None
    else if DigitValue(c) >= 0 then Some(16 * DigitValue(c) + DigitValue(d))
    else if c == ACK then Some(DigitValue(d))
    else if c == MINUS then Some(-DigitValue(d))
    else None
  }

  function Sum(s: text): int {
    if s == [] then 0 else Sum(s[..|s| - 1]) + s[|s| - 1]
  }

  function Unescape(c: int): int {
    if c / 32 % 2 == 1 then c - 32 else c + 32
  }

  // ---- What receive makes of its input ----

  datatype Receipt =
    | Accepted(cmd: text)
    | Rejected              // the checksum differs: '-' is sent
    | NoDollar
    | BadDigits             // the checksum is not a number
    | Ended                 // the connection is closed

  /** The receipt, and the input left over. */
  datatype Parsed = Parsed(r: Receipt, rest: text)

  function Parse(input: text): Parsed {
    if input == [] then Parsed(Ended, [])
    else if input[0] != DOLLAR then Parsed(NoDollar, input[1..])
    else Payload(input[1..], [])
  }

  function Payload(input: text, packet: text): Parsed
    decreases |input|
  {
    if input == [] then Parsed(Ended, [])
    else if input[0] == ESCAPE then
      if |input| == 1 then Parsed(Ended, []) else Payload(input[2..], packet + [Unescape(input[1])])
    else if input[0] == HASH then Trailer(input[1..], packet)
    else Payload(input[1..], packet + [input[0]])
  }

  function Trailer(input: text, packet: text): Parsed {
    if |input| < 2 then Parsed(Ended, [])
    else match ParseHex2(input[0], input[1])
      case None => Parsed(BadDigits, input[2..])
      case Some(v) => Parsed(if v == Sum(packet) % 256 then Accepted(packet) else Rejected, input[2..])
  }

  /** The frame sendReply puts around its text. */
  function Frame(payload: text): text {
    [DOLLAR] + payload + [HASH] + Hex2(Sum(payload) % 256)
  }

  // ---- The round trip ----

  /** Seven-bit characters that need no escape. */
  predicate Plain(s: text) {
    forall i :: 0 <= i < |s| ==> 0 <= s[i] < 128 && s[i] != HASH && s[i] != ESCAPE
  }

  lemma HexRoundTrip(b: int)
    requires 0 <= b < 256
    ensures ParseHex2(Hex2(b)[0], Hex2(b)[1]) == Some(b)
    ensures DigitValue(Hex2(b)[0]) == b / 16 && DigitValue(Hex2(b)[1]) == b % 16
  {
  }

  lemma {:induction false} PlainPayload(s: text, packet: text, rest: text)
    requires Plain(s)
    ensures Payload(s + [HASH] + rest, packet) == Trailer(rest, packet + s)
    decreases |s|
  {
    var input := s + [HASH] + rest;
    if s == [] {
      assert input[1..] == rest && packet + s == packet;
    } else {
      assert input[1..] == s[1..] + [HASH] + rest;
      PlainPayload(s[1..], packet + [s[0]], rest);
      assert packet + [s[0]] + s[1..] == packet + s;
    }
  }

  /** receive inverts sendReply, whatever follows on the line. */
  lemma ReceiveInvertsSend(payload: text, rest: text)
    requires Plain(payload)
    ensures Parse(Frame(payload) + rest) == Parsed(Accepted(payload), rest)
  {
    var t := Hex2(Sum(payload) % 256) + rest;
    assert (Frame(payload) + rest)[1..] == payload + [HASH] + t;
    PlainPayload(payload, [], t);
    HexRoundTrip(Sum(payload) % 256);
    assert t[2..] == rest && [] + payload == payload;
  }

  // ---- The checksum and the digits ----

  /** The sum of the characters. */
  lemma {:induction false} SumJoin(s: text, t: text)
    ensures Sum(s + t) == Sum(s) + Sum(t) && Sum([]) == 0
    ensures |t| == 1 ==> Sum(t) == t[0]
    decreases |t|
  {
    if t == [] {
      assert s + t == s;
    } else {
      var n := |t| - 1;
      assert (s + t)[..|s + t| - 1] == s + t[..n];
      SumJoin(s, t[..n]);
      assert |t| == 1 ==> t[..n] == [];
    }
  }

  /** Decimal digits and the letters a to f of either case, and nothing else, are hexadecimal digits. */
  lemma DigitsAre(c: int)
    ensures 0x30 <= c <= 0x39 ==> DigitValue(c) == c - 0x30
    ensures 0x61 <= c <= 0x66 ==> DigitValue(c) == 10 + (c - 0x61)
    ensures 0x41 <= c <= 0x46 ==> DigitValue(c) == 10 + (c - 0x41)
    ensures DigitValue(c) >= 0 <==> 0x30 <= c <= 0x39 || 0x61 <= c <= 0x66 || 0x41 <= c <= 0x46
  {
  }

  /** A frame is '$', the text, '#' and two digits that read as the sum modulo 256. */
  lemma FrameIs(payload: text)
    ensures |Frame(payload)| == |payload| + 4 && Frame(payload)[..|payload| + 2] == [0x24] + payload + [0x23]
    ensures ParseHex2(Frame(payload)[|payload| + 2], Frame(payload)[|payload| + 3]) == Some(Sum(payload) % 256)
  {
    HexRoundTrip(Sum(payload) % 256);
  }

  /** The frame of "OK" is "$OK#9a". */
  lemma FrameOfOk()
    ensures Frame([0x4f, 0x4b]) == [0x24, 0x4f, 0x4b, 0x23, 0x39, 0x61]
  {
    hide Sum, Hex2;
    var o, k := [0x4f], [0x4b];
    SumJoin(o, k);
    SumJoin([], o);
    assert o + k == [0x4f, 0x4b];
    DigitsOf9a();
  }

  lemma DigitsOf9a()
    ensures Hex2(0x9a) == [0x39, 0x61]
  {
  }

  /** e is s with some characters written as '}' and the character with bit 5 inverted; '#' and '}' must be. */
  predicate Encodes(e: text, s: text)
    decreases |e|
  {
    if e == [] then s == []
    else if e[0] == 0x7d then
      |e| >= 2 && s != [] && s[0] == (if e[1] / 32 % 2 == 1 then e[1] - 32 else e[1] + 32) && Encodes(e[2..], s[1..])
    else e[0] != 0x23 && s != [] && s[0] == e[0] && Encodes(e[1..], s[1..])
  }

  lemma {:induction false} EncodedPayload(e: text, s: text, packet: text, rest: text)
    requires Encodes(e, s)
    ensures Payload(e + [HASH] + rest, packet) == Trailer(rest, packet + s)
    decreases |e|
  {
    var input := e + [HASH] + rest;
    if e == [] {
      assert input[1..] == rest && packet + s == packet;
    } else {
      var n := if e[0] == ESCAPE then 2 else 1;
      assert input[n..] == e[n..] + [HASH] + rest;
      EncodedPayload(e[n..], s[1..], packet + [s[0]], rest);
      assert packet + [s[0]] + s[1..] == packet + s;
    }
  }

  lemma Regrouped(a: text, b: text, c: text)
    ensures (a + b) + c == a + (b + c)
  {
  }

  lemma EncodesMore(x: text, c: int, e: text, s: text)
    requires Encodes(e, s)
    requires (|x| == 2 && x[0] == ESCAPE && c == Unescape(x[1])) || (x == [c] && c != ESCAPE && c != HASH)
    ensures Encodes(x + e, [c] + s)
  {
    assert (x + e)[|x|..] == e && ([c] + s)[1..] == s;
  }

  lemma {:induction false} PayloadAccepts(input: text, packet: text) returns (e: text, s: text, d1: int, d2: int)
    requires Payload(input, packet).r.Accepted?
    ensures Encodes(e, s) && Payload(input, packet).r.cmd == packet + s
    ensures input == e + [HASH, d1, d2] + Payload(input, packet).rest
    ensures ParseHex2(d1, d2) == Some(Sum(packet + s) % 256)
    decreases |input|
  {
    hide ParseHex2, Sum, Unescape;
    if input[0] == HASH {
      e, s, d1, d2 := [], [], input[1], input[2];
      assert packet + s == packet;
    } else {
      hide Encodes;
      var n := if input[0] == ESCAPE then 2 else 1;
      var c := if input[0] == ESCAPE then Unescape(input[1]) else input[0];
      e, s, d1, d2 := PayloadAccepts(input[n..], packet + [c]);
      EncodesMore(input[..n], c, e, s);
      Regrouped(packet, [c], s);
      Regrouped(input[..n], e, [HASH, d1, d2] + Payload(input, packet).rest);
      Regrouped(input[..n] + e, [HASH, d1, d2], Payload(input, packet).rest);
      Regrouped(e, [HASH, d1, d2], Payload(input, packet).rest);
      assert input == input[..n] + input[n..];
      e, s := input[..n] + e, [c] + s;
    }
  }

  /** A '$', an encoding of cmd, '#' and two digits that read as the sum of cmd modulo 256. */
  predicate IsLine(input: text, e: text, d1: int, d2: int, cmd: text, rest: text) {
    input == [0x24] + e + [0x23, d1, d2] + rest && Encodes(e, cmd) && ParseHex2(d1, d2) == Some(Sum(cmd) % 256)
  }

  lemma LineAccepted(input: text, e: text, d1: int, d2: int, cmd: text, rest: text)
    requires IsLine(input, e, d1, d2, cmd, rest)
    ensures Parse(input) == Parsed(Accepted(cmd), rest)
  {
    hide ParseHex2, Sum, Encodes, Payload;
    var t := [d1, d2] + rest;
    assert input[1..] == e + [HASH] + t;
    EncodedPayload(e, cmd, [], t);
    assert [] + cmd == cmd && t[2..] == rest;
  }

  lemma AcceptedIsLine(input: text, cmd: text, rest: text) returns (e: text, d1: int, d2: int)
    requires Parse(input) == Parsed(Accepted(cmd), rest)
    ensures IsLine(input, e, d1, d2, cmd, rest)
  {
    hide ParseHex2, Sum, Encodes, Payload;
    var s;
    e, s, d1, d2 := PayloadAccepts(input[1..], []);
    assert [] + s == s;
    assert input == [0x24] + input[1..];
    assert input == [0x24] + e + [0x23, d1, d2] + rest;
  }

  /** What becomes of a line that begins with '$', an encoded text, '#' and two more characters. */
  lemma Verdicts(e: text, d1: int, d2: int, cmd: text, rest: text)
    requires Encodes(e, cmd)
    ensures Parse([0x24] + e + [0x23, d1, d2] + rest)
         == Parsed(match ParseHex2(d1, d2)
                   case None => BadDigits
                   case Some(v) => if v == Sum(cmd) % 256 then Accepted(cmd) else Rejected, rest)
  {
    hide ParseHex2, Sum, Encodes, Payload;
    var input, t := [0x24] + e + [0x23, d1, d2] + rest, [d1, d2] + rest;
    assert input[1..] == e + [HASH] + t;
    EncodedPayload(e, cmd, [], t);
    assert [] + cmd == cmd && t[2..] == rest;
  }

  /** A line is accepted if and only if it begins with '$', an encoded text, '#' and two digits that read as
      the sum of the characters of the text modulo 256; and what is accepted is that text. */
  lemma AcceptsExactly(input: text, cmd: text, rest: text)
    ensures Parse(input) == Parsed(Accepted(cmd), rest) <==> exists e, d1, d2 :: IsLine(input, e, d1, d2, cmd, rest)
  {
    hide IsLine, Parse;
    if Parse(input) == Parsed(Accepted(cmd), rest) {
      var e, d1, d2 := AcceptedIsLine(input, cmd, rest);
    }
    forall e, d1, d2 | IsLine(input, e, d1, d2, cmd, rest) ensures Parse(input) == Parsed(Accepted(cmd), rest) {
      LineAccepted(input, e, d1, d2, cmd, rest);
    }
  }

  lemma {:induction false} SumUpdate(s: text, i: nat, c: int)
    requires i < |s|
    ensures Sum(s[i := c]) == Sum(s) - s[i] + c
    decreases |s|
  {
    var n := |s| - 1;
    if i < n {
      SumUpdate(s[..n], i, c);
      assert s[i := c][..n] == s[..n][i := c];
    } else {
      assert s[i := c][..n] == s[..n];
    }
  }

  /** A frame with one payload character changed to another plain one is rejected. */
  lemma ChangedCharacterRejected(payload: text, i: nat, c: int, rest: text)
    requires Plain(payload) && i < |payload| && c != payload[i] && Plain(payload[i := c])
    ensures Parse([DOLLAR] + payload[i := c] + [HASH] + Hex2(Sum(payload) % 256) + rest) == Parsed(Rejected, rest)
  {
    var bad, t := payload[i := c], Hex2(Sum(payload) % 256) + rest;
    assert ([DOLLAR] + bad + [HASH] + Hex2(Sum(payload) % 256) + rest)[1..] == bad + [HASH] + t;
    PlainPayload(bad, [], t);
    HexRoundTrip(Sum(payload) % 256);
    SumUpdate(payload, i, c);
    assert bad[i] == c && 0 <= c < 128;
    DifferentResidue(Sum(payload), c - payload[i]);
    assert t[2..] == rest && [] + bad == bad;
  }

  lemma DifferentResidue(x: int, d: int)
    requires d != 0 && -128 < d < 128
    ensures (x + d) % 256 != x % 256
  {
  }

  // ---- The packet object ----

  /** How sendReply ends: acknowledged, refused, with the connection closed, or without waiting. */
  datatype Sending = Acknowledged | NoAck | Closed | Unchecked

  class Connection {
    var input: text
    var output: text
    var alive: bool

    constructor (line: text)
      ensures input == line && output == [] && alive
    {
      input, output, alive := line, [], true;
    }

    method Read() returns (t: Option<int>)
      modifies this`input
      ensures old(input) == [] ==> t == None && input == []
      ensures old(input) != [] ==> t == Some(old(input)[0]) && input == old(input)[1..]
    {
      if input == [] {
        return None;
      }
      t := Some(input[0]);
      input := input[1..];
    }

    method Send(s: text)
      modifies this`output
      ensures output == old(output) + s
    {
      output := output + s;
    }
  }

  class Packet {
    const server: Connection
    var cmd: text
    var reply: text

    constructor (c: Connection)
      ensures server == c && cmd == [] && reply == []
    {
      server, cmd, reply := c, [], [];
    }

    /** receive. */
    method Receive() returns (r: Receipt)
      modifies this`cmd, server
      ensures Parsed(r, server.input) == Parse(old(server.input))
      ensures r.Accepted? ==> cmd == r.cmd && server.output == old(server.output) + [0x2b]
      ensures r.Rejected? ==> server.output == old(server.output) + [0x2d]
      ensures !r.Accepted? && !r.Rejected? ==> server.output == old(server.output)
      ensures !r.Accepted? ==> cmd == old(cmd)
    {
      var t := server.Read();
      if t == None {
        return Ended;
      }
      if t.value != DOLLAR {
        return NoDollar;
      }
      var packet: text, cc := [], 0;
      while true
        invariant cc == Sum(packet) && server.output == old(server.output) && cmd == old(cmd)
        invariant Payload(server.input, packet) == Parse(old(server.input))
        decreases |server.input|
      {
        t := server.Read();
        if t == None {
          return Ended;
        }
        var c := t.value;
        if c == ESCAPE {
          t := server.Read();
          if t == None {
            return Ended;
          }
          c := Unescape(t.value);
        } else if c == HASH {
          break;
        }
        cc := cc + c;
        packet := packet + [c];
      }
      r := CheckTrailer(packet, cc % 256);
    }

    method CheckTrailer(packet: text, cc: int) returns (r: Receipt)
      requires cc == Sum(packet) % 256
      modifies this`cmd, server
      ensures Parsed(r, server.input) == Trailer(old(server.input), packet)
      ensures r.Accepted? ==> cmd == r.cmd && server.output == old(server.output) + [0x2b]
      ensures r.Rejected? ==> server.output == old(server.output) + [0x2d]
      ensures !r.Accepted? && !r.Rejected? ==> server.output == old(server.output)
      ensures !r.Accepted? ==> cmd == old(cmd)
    {
      var c := server.Read();
      if c == None {
        return Ended;
      }
      var d := server.Read();
      if d == None {
        return Ended;
      }
      var v := ParseHex2(c.value, d.value);
      if v == None {
        return BadDigits;
      }
      if v.value != cc {
        server.Send([NAK]);
        return Rejected;
      }
      server.Send([ACK]);
      cmd := packet;
      r := Accepted(packet);
    }

    /** sendReply: the frame is sent, and while the session is alive the acknowledgement is read. */
    method SendReply() returns (r: Sending)
      modifies this`reply, server`output, server`input
      ensures server.output == old(server.output) + Frame(old(reply))
      ensures exists d1, d2 :: server.output == old(server.output) + ([0x24] + old(reply) + [0x23, d1, d2])
                               && ParseHex2(d1, d2) == Some(Sum(old(reply)) % 256)
      ensures !server.alive ==> r == Unchecked && reply == [] && server.input == old(server.input)
      ensures server.alive ==> reply == old(reply)
      ensures server.alive && old(server.input) == [] ==> r == Closed && server.input == []
      ensures server.alive && old(server.input) != [] ==>
        server.input == old(server.input)[1..] && r == if old(server.input)[0] == ACK then Acknowledged else NoAck
    {
      var csum, i := 0, 0;
      while i < |reply|
        invariant 0 <= i <= |reply| && csum == Sum(reply[..i])
      {
        csum := csum + reply[i];
        assert reply[..i + 1][..i] == reply[..i];
        i := i + 1;
      }
      assert reply[..|reply|] == reply;
      HexRoundTrip(csum % 256);
      assert Frame(reply) == [0x24] + reply + [0x23, Hex2(csum % 256)[0], Hex2(csum % 256)[1]];
      server.Send([DOLLAR] + reply + [HASH] + Hex2(csum % 256));
      if server.alive {
        var ack := server.Read();
        return if ack == None then Closed else if ack.value == ACK then Acknowledged else NoAck;
      }
      reply := [];
      r := Unchecked;
    }
  }
}
