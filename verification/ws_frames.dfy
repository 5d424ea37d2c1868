/** WebSocket frames (sections 5.2 to 5.4 of RFC 6455): how a message is written as frames, and what the
    receiver makes of the bytes it gets. */
module WsFrames {
  import opened ByteBlocks
  import opened ByteCodec
  import opened Wrappers

  type Opcode = x: nat | x < 16

  const CONTINUE: Opcode := 0
  const TEXT_FRAME: Opcode := 1
  const BIN_FRAME: Opcode := 2
  const PING: Opcode := 9
  const PONG: Opcode := 10

  // ---------------------------------------------------------------- masking

  /** Exclusive or of the low `k` bits. */
  function XorBits(k: nat, a: nat, b: nat): (x: nat)
    ensures x < Pow2(k)
  {
    if k == 0 then 0 else (if a % 2 == b % 2 then 0 else 1) + 2 * XorBits(k - 1, a / 2, b / 2)
  }

  function Xor(a: Byte, b: Byte): Byte {
    assert Pow2(8) == 256;
    XorBits(8, a, b)
  }

  lemma {:induction false} XorBitsTwice(k: nat, a: nat, b: nat)
    requires a < Pow2(k)
    ensures XorBits(k, XorBits(k, a, b), b) == a
    decreases k
  {
    if k > 0 {
      XorBitsTwice(k - 1, a / 2, b / 2);
      var x := XorBits(k, a, b);
      assert x / 2 == XorBits(k - 1, a / 2, b / 2);
    }
  }

  lemma XorTwice(a: Byte, b: Byte)
    ensures Xor(Xor(a, b), b) == a
  {
    assert Pow2(8) == 256;
    XorBitsTwice(8, a, b);
  }

  type Key = k: seq<Byte> | |k| == 4 witness [0, 0, 0, 0]

  /** Each byte combined with the byte of the key at its index modulo four. */
  function Masked(data: seq<Byte>, key: Key): (m: seq<Byte>)
    ensures |m| == |data| && forall i :: 0 <= i < |data| ==> m[i] == Xor(data[i], key[i % 4])
  {
    seq(|data|, i requires 0 <= i < |data| => Xor(data[i], key[i % 4]))
  }

  lemma MaskedTwice(data: seq<Byte>, key: Key)
    ensures Masked(Masked(data, key), key) == data
  {
    forall i | 0 <= i < |data| ensures Masked(Masked(data, key), key)[i] == data[i] {
      XorTwice(data[i], key[i % 4]);
    }
  }

  // ---------------------------------------------------------------- frames

  /** The first two bytes of a frame; the reserved bits are not looked at. */
  datatype Head = Head(fin: bool, opcode: Opcode, mask: bool, payload: nat)

  predicate IsHead(h: Head) {
    h.payload < 128
  }

  function HeadBytes(h: Head): (s: seq<Byte>)
    requires IsHead(h)
    ensures |s| == 2
  {
    [h.opcode + (if h.fin then 128 else 0), h.payload + (if h.mask then 128 else 0)]
  }

  function HeadOf(a: Byte, b: Byte): (h: Head)
    ensures IsHead(h)
  {
    Head(a >= 128, a % 16, b >= 128, b % 128)
  }

  lemma HeadRoundTrip(h: Head)
    requires IsHead(h)
    ensures HeadOf(HeadBytes(h)[0], HeadBytes(h)[1]) == h
  {}

  function PayloadCode(size: nat): (c: nat)
    ensures c < 128
  {
    if size < 126 then size else if size < 65536 then 126 else 127
  }

  /** The length bytes after the head, in network order. */
  function LengthBytes(size: nat): seq<Byte> {
    if size < 126 then [] else if size < 65536 then Fixed(false, 2, size) else Fixed(false, 8, size)
  }

  /** A frame of a data message; `key` is there when the sender masks. */
  function Frame(fin: bool, opcode: Opcode, data: seq<Byte>, key: Option<Key>): seq<Byte>
  {
    HeadBytes(Head(fin, opcode, key.Some?, PayloadCode(|data|))) + (LengthBytes(|data|) +
    (if key.Some? then key.value + Masked(data, key.value) else data))
  }

  /** A ping or pong as this library sends it: no payload and no mask key. */
  function Control(opcode: Opcode): (s: seq<Byte>)
    ensures |s| == 2
  {
    HeadBytes(Head(true, opcode, false, 0))
  }

  // ---------------------------------------------------------------- receiving

  datatype Message = Message(opcode: Opcode, data: seq<Byte>)

  /** How receiving ends: with a message, with a closed stream, or with bytes read to a place outside the
      buffer, after which nothing is known. */
  datatype Ending = Received(message: Message) | Refused | Overrun

  /** What the receiver ends with, the bytes it left, and how many pongs it sent. */
  datatype Outcome = Outcome(ending: Ending, rest: seq<Byte>, pongs: nat)

  /** The size of the buffer for `length` more bytes, a 64-bit sum. */
  function NewSize(have: nat, length: nat): nat {
    (have + length) % Range(8)
  }

  /** `length` bytes put behind `have` bytes stay inside the buffer. */
  predicate StaysInside(have: nat, length: nat) {
    have + length <= NewSize(have, length)
  }

  lemma RangesGrow()
    ensures 128 <= Range(2) <= Range(4) <= Range(8)
  {}

  /** The length of a frame: from the head, or from 2 or 8 bytes that follow. */
  function ReadLength(h: Head, s: seq<Byte>): (d: Decoded<nat>)
    ensures d.Got? ==> d.used <= |s|
    ensures h.payload < 128 && d.Got? ==> d.value < Range(8)
  {
    RangesGrow();
    if h.payload == 126 then ReadFixed(false, 2, s)
    else if h.payload == 127 then ReadFixed(false, 8, s)
    else Got(h.payload, 0)
  }

  function FirstOpcode(opcode: Opcode, next: Opcode): Opcode {
    if opcode == 0 && next != CONTINUE then next else opcode
  }

  /** The body of a data frame after its length: a key if it is masked, then at least one byte of payload. */
  function ReadBody(h: Head, length: nat, s: seq<Byte>): (d: Decoded<seq<Byte>>)
    ensures d.Got? ==> d.used <= |s| && |d.value| == length
  {
    var k := if h.mask then 4 else 0;
    if length == 0 || |s| < k + length then Short
    else
      var raw := s[k..k + length];
      Got(if h.mask then Masked(raw, s[..4]) else raw, k + length)
  }

  /** What is left after a body that could not be read: a missing payload is still there, an incomplete one
      has been read away. */
  function AfterBadBody(h: Head, length: nat, s: seq<Byte>): seq<Byte> {
    var k := if h.mask then 4 else 0;
    if length == 0 && |s| >= k then s[k..] else []
  }

  predicate IsData(opcode: Opcode) {
    opcode == CONTINUE || opcode == TEXT_FRAME || opcode == BIN_FRAME
  }

  function Failed(rest: seq<Byte>): Outcome {
    Outcome(Refused, rest, 0)
  }

  /** The key is read, and then the first byte that arrives goes outside the buffer. */
  function Outside(h: Head, s: seq<Byte>): Outcome {
    if |s| <= (if h.mask then 4 else 0) then Failed([]) else Outcome(Overrun, [], 0)
  }

  /** The receive loop, with the opcode and data so far. `room`: how many bytes can still be sent. */
  function Receive(client: bool, max: nat, room: nat, opcode: Opcode, data: seq<Byte>, input: seq<Byte>): Outcome
    decreases |input|
  {
    if |input| < 2 then Failed([]) else
      var h := HeadOf(input[0], input[1]);
      var s := input[2..];
      if h.opcode == PING then
        if room < 2 then Failed(s)
        else var r := Receive(client, max, room - 2, opcode, data, s); r.(pongs := r.pongs + 1)
      else if !IsData(h.opcode) then Receive(client, max, room, opcode, data, s)
      else if !client && !h.mask then Failed(s)
      else
        var length := ReadLength(h, s);
        if length.Short? then Failed([]) else
          var t := s[length.used..];
          if NewSize(|data|, length.value) >= max then Failed(t)
          else if !StaysInside(|data|, length.value) then Outside(h, t) else
            var body := ReadBody(h, length.value, t);
            if body.Short? then Failed(AfterBadBody(h, length.value, t)) else
              var op := FirstOpcode(opcode, h.opcode);
              if h.fin then Outcome(Received(Message(op, data + body.value)), t[body.used..], 0)
              else Receive(client, max, room, op, data + body.value, t[body.used..])
  }

  // ---------------------------------------------------------------- the size of the buffer

  /** The buffer suffices exactly if the sum does not wrap. */
  lemma StaysInsideExact(have: nat, length: nat)
    requires have < Range(8) && length < Range(8)
    ensures StaysInside(have, length) <==> have + length < Range(8)
  {
    if have + length >= Range(8) {
      assert (have + length - Range(8)) % Range(8) == have + length - Range(8);
    }
  }

  /** The input begins with a data frame that passes the tests of the head and of the size, and of which at
      least one byte arrives. */
  predicate BeginsFrame(client: bool, max: nat, data: seq<Byte>, input: seq<Byte>) {
    && |input| >= 2
    && var h := HeadOf(input[0], input[1]);
       var length := ReadLength(h, input[2..]);
       && IsData(h.opcode) && (client || h.mask) && length.Got? && NewSize(|data|, length.value) < max
       && |input| - 2 - length.used > if h.mask then 4 else 0
  }

  /** Exactly when such a frame is read to a place outside the buffer: when the data so far and its length make
      2^64 or more. Otherwise it is read as it should be, and only what follows it can be. */
  lemma OverrunExact(client: bool, max: nat, room: nat, opcode: Opcode, data: seq<Byte>, input: seq<Byte>)
    requires |data| < max <= Range(8) && BeginsFrame(client, max, data, input)
    ensures var h := HeadOf(input[0], input[1]);
            var length := ReadLength(h, input[2..]);
            var t := input[2..][length.used..];
            var body := ReadBody(h, length.value, t);
            Receive(client, max, room, opcode, data, input) ==
            if |data| + length.value >= Range(8) then Outcome(Overrun, [], 0)
            else if body.Short? then Failed(AfterBadBody(h, length.value, t))
            else if h.fin then Outcome(Received(Message(FirstOpcode(opcode, h.opcode), data + body.value)), t[body.used..], 0)
            else Receive(client, max, room, FirstOpcode(opcode, h.opcode), data + body.value, t[body.used..])
  {
    var h := HeadOf(input[0], input[1]);
    StaysInsideExact(|data|, ReadLength(h, input[2..]).value);
    hide Range, NewSize, ReadBody, ReadLength, HeadOf, StaysInside;
  }

  function NumberAt(input: seq<Byte>, i: nat): nat
    requires i + 8 <= |input|
  {
    FixedValue(false, input[i..i + 8])
  }

  /** No eight bytes in a row are a number within `max` of 2^64. */
  predicate NoHugeNumber(max: nat, input: seq<Byte>) {
    forall i: nat :: i + 8 <= |input| ==> NumberAt(input, i) + max <= Range(8)
  }

  lemma NoHugeNumberAfter(max: nat, input: seq<Byte>, n: nat)
    requires NoHugeNumber(max, input) && n <= |input|
    ensures NoHugeNumber(max, input[n..])
  {
    forall i: nat | i + 8 <= |input[n..]| ensures NumberAt(input[n..], i) + max <= Range(8) {
      assert NumberAt(input, n + i) + max <= Range(8);
      assert input[n..][i..i + 8] == input[n + i..n + i + 8];
    }
  }

  lemma LengthIsNotHuge(max: nat, h: Head, s: seq<Byte>)
    requires NoHugeNumber(max, s) && h.payload < 128 && 2 * max <= Range(4)
    ensures ReadLength(h, s).Got? ==> ReadLength(h, s).value + max <= Range(8)
  {
    RangesGrow();
    if h.payload == 127 && |s| >= 8 {
      assert NumberAt(s, 0) + max <= Range(8);
      assert s[0..8] == s[..8];
    }
  }

  /** A peer that sends no such number makes nothing be read to a place outside the buffer. */
  lemma {:induction false} NoOverrun(client: bool, max: nat, room: nat, opcode: Opcode, data: seq<Byte>, input: seq<Byte>)
    requires 2 * max <= Range(4) && (|data| == 0 || |data| < max) && NoHugeNumber(max, input)
    ensures !Receive(client, max, room, opcode, data, input).ending.Overrun?
    decreases |input|
  {
    hide Range, HeadOf, ReadLength, ReadBody, NoHugeNumber, NewSize;
    if |input| >= 2 {
      var h := HeadOf(input[0], input[1]);
      var s := input[2..];
      NoHugeNumberAfter(max, input, 2);
      if h.opcode == PING {
        if room >= 2 {
          NoOverrun(client, max, room - 2, opcode, data, s);
        }
      } else if !IsData(h.opcode) {
        NoOverrun(client, max, room, opcode, data, s);
      } else if (client || h.mask) && ReadLength(h, s).Got? {
        LengthIsNotHuge(max, h, s);
        var length := ReadLength(h, s);
        var t := s[length.used..];
        SumIsExact(max, |data|, length.value);
        var body := ReadBody(h, length.value, t);
        if |data| + length.value < max && body.Got? && !h.fin {
          NoHugeNumberAfter(max, s, length.used);
          NoHugeNumberAfter(max, t, body.used);
          NoOverrun(client, max, room, FirstOpcode(opcode, h.opcode), data + body.value, t[body.used..]);
        }
      }
    }
  }

  lemma SumIsExact(max: nat, have: nat, length: nat)
    requires 2 * max <= Range(4) && (have == 0 || have < max) && length + max <= Range(8) && length < Range(8)
    ensures NewSize(have, length) == have + length && StaysInside(have, length)
  {
    RangesGrow();
    StaysInsideExact(have, length);
  }

  /** Ten bytes of a message, and then a frame that says it has 2^64 - 5: the sum is 5, and the frame is read to
      a place behind the buffer. */
  lemma WrappedLengthOverruns(data: seq<Byte>, x: Byte, max: nat, room: nat)
    requires |data| == 10 < max <= Range(4)
    ensures var first := Frame(false, TEXT_FRAME, data, None);
            var second := [0x82, 0x7F, 0xFF, 0xFF, 0xFF, 0xFF, 0xFF, 0xFF, 0xFF, 0xFB, x];
            Receive(true, max, room, 0, [], first + second) == Outcome(Overrun, [], 0)
  {
    hide Frame, Receive, Range;
    var second: seq<Byte> := [0x82, 0x7F, 0xFF, 0xFF, 0xFF, 0xFF, 0xFF, 0xFF, 0xFF, 0xFB, x];
    RangesGrow();
    FrameBack(true, max, room, 0, [], false, Fragment(0, TEXT_FRAME, data, None), second);
    assert [] + data == data;
    HugeFrameBegins(data, x, max);
    OverrunExact(true, max, room, TEXT_FRAME, data, second);
  }

  lemma HugeFrameBegins(data: seq<Byte>, x: Byte, max: nat)
    requires |data| == 10 < max <= Range(4)
    ensures var frame := [0x82, 0x7F, 0xFF, 0xFF, 0xFF, 0xFF, 0xFF, 0xFF, 0xFF, 0xFB, x];
            BeginsFrame(true, max, data, frame) && ReadLength(HeadOf(0x82, 0x7F), frame[2..]) == Got(Range(8) - 5, 8)
  {
    hide Range, NewSize, FixedValue;
    RangesGrow();
    var s: seq<Byte> := [0xFF, 0xFF, 0xFF, 0xFF, 0xFF, 0xFF, 0xFF, 0xFB, x];
    var length: seq<Byte> := [0xFF, 0xFF, 0xFF, 0xFF, 0xFF, 0xFF, 0xFF, 0xFB];
    assert s[..8] == length;
    HugeLength(length);
    SumWraps(10, 5);
    assert [0x82, 0x7F, 0xFF, 0xFF, 0xFF, 0xFF, 0xFF, 0xFF, 0xFF, 0xFB, x][2..] == s;
  }

  lemma HugeLength(s: seq<Byte>)
    requires s == [0xFF, 0xFF, 0xFF, 0xFF, 0xFF, 0xFF, 0xFF, 0xFB]
    ensures FixedValue(false, s) == Range(8) - 5
  {
    var ones := s[..7];
    ReversedSnoc(ones, 0xFB);
    OnesReversed(ones);
    AllOnes(Reversed(ones));
    assert s == ones + [0xFB] && Reversed(s)[1..] == Reversed(ones);
  }

  lemma {:induction false} OnesReversed(s: seq<Byte>)
    requires forall i :: 0 <= i < |s| ==> s[i] == 0xFF
    ensures forall i :: 0 <= i < |s| ==> Reversed(s)[i] == 0xFF
    decreases |s|
  {
    if |s| > 0 {
      OnesReversed(s[1..]);
    }
  }

  lemma {:induction false} AllOnes(s: seq<Byte>)
    requires forall i :: 0 <= i < |s| ==> s[i] == 0xFF
    ensures LittleValue(s) == Range(|s|) - 1
    decreases |s|
  {
    if |s| > 0 {
      AllOnes(s[1..]);
    }
  }

  lemma SumWraps(have: nat, short: nat)
    requires short <= have < Range(8) && short > 0
    ensures NewSize(have, Range(8) - short) == have - short
  {
    assert (have + (Range(8) - short) - Range(8)) % Range(8) == have - short;
  }

  // ---------------------------------------------------------------- what was sent is received

  /** A fragment of a message, and how many pings go before it. */
  datatype Fragment = Fragment(pings: nat, opcode: Opcode, data: seq<Byte>, key: Option<Key>)

  predicate Sendable(f: Fragment, client: bool) {
    IsData(f.opcode) && 0 < |f.data| && (client || f.key.Some?)
  }

  function Pings(n: nat): seq<Byte> {
    if n == 0 then [] else Control(PING) + Pings(n - 1)
  }

  /** The fragments, the last one marked as final. */
  function SendAll(fs: seq<Fragment>): seq<Byte>
    decreases |fs|
  {
    if |fs| == 0 then []
    else Pings(fs[0].pings) + (Frame(|fs| == 1, fs[0].opcode, fs[0].data, fs[0].key) + SendAll(fs[1..]))
  }

  function Payload(fs: seq<Fragment>): seq<Byte>
    decreases |fs|
  {
    if |fs| == 0 then [] else fs[0].data + Payload(fs[1..])
  }

  function OpcodeOf(opcode: Opcode, fs: seq<Fragment>): Opcode
    decreases |fs|
  {
    if |fs| == 0 then opcode else OpcodeOf(FirstOpcode(opcode, fs[0].opcode), fs[1..])
  }

  function PingCount(fs: seq<Fragment>): nat
    decreases |fs|
  {
    if |fs| == 0 then 0 else fs[0].pings + PingCount(fs[1..])
  }

  lemma LengthBack(h: Head, size: nat, rest: seq<Byte>)
    requires size < Range(8) && h.payload == PayloadCode(size)
    ensures ReadLength(h, LengthBytes(size) + rest) == Got(size, |LengthBytes(size)|)
  {
    assert Range(2) == 65536;
    if size >= 65536 {
      FixedBack(false, 8, size, rest);
    } else if size >= 126 {
      FixedBack(false, 2, size, rest);
    }
  }

  lemma BodyBack(h: Head, data: seq<Byte>, key: Option<Key>, rest: seq<Byte>)
    requires h.mask == key.Some? && |data| > 0
    ensures var body := if key.Some? then key.value + Masked(data, key.value) else data;
            ReadBody(h, |data|, body + rest) == Got(data, |body|)
  {
    if key.Some? {
      var s := key.value + Masked(data, key.value) + rest;
      assert s[..4] == key.value && s[4..4 + |data|] == Masked(data, key.value);
      MaskedTwice(data, key.value);
    } else {
      assert (data + rest)[0..|data|] == data;
    }
  }

  lemma ReceiveOne(client: bool, max: nat, room: nat, opcode: Opcode, data: seq<Byte>, input: seq<Byte>, h: Head,
      body: seq<Byte>, rest: seq<Byte>)
    requires |input| >= 2 && HeadOf(input[0], input[1]) == h && IsData(h.opcode) && (client || h.mask)
    requires var length := ReadLength(h, input[2..]);
             && length.Got? && |data| + length.value < max <= Range(8)
             && var t := input[2..][length.used..];
                var d := ReadBody(h, length.value, t);
                d.Got? && d.value == body && t[d.used..] == rest
    ensures var op := FirstOpcode(opcode, h.opcode);
            Receive(client, max, room, opcode, data, input) ==
            if h.fin then Outcome(Received(Message(op, data + body)), rest, 0) else Receive(client, max, room, op, data + body, rest)
  {
    SmallSum(|data|, ReadLength(h, input[2..]).value, max);
    hide Range, NewSize, StaysInside, ReadLength, ReadBody, HeadOf, FirstOpcode;
  }

  lemma SmallSum(have: nat, length: nat, max: nat)
    requires have + length < max <= Range(8)
    ensures NewSize(have, length) == have + length && StaysInside(have, length)
  {}

  lemma Assoc(a: seq<Byte>, b: seq<Byte>, c: seq<Byte>, d: seq<Byte>)
    ensures a + (b + c) + d == a + (b + (c + d))
  {}

  lemma Front(a: seq<Byte>, b: seq<Byte>)
    ensures (a + b)[|a|..] == b
  {}

  /** One data frame is read back, whatever follows it. */
  lemma FrameBack(client: bool, max: nat, room: nat, opcode: Opcode, data: seq<Byte>, fin: bool, f: Fragment, rest: seq<Byte>)
    requires Sendable(f, client) && |data| + |f.data| < max <= Range(4)
    ensures var op := FirstOpcode(opcode, f.opcode);
            Receive(client, max, room, opcode, data, Frame(fin, f.opcode, f.data, f.key) + rest) ==
            if fin then Outcome(Received(Message(op, data + f.data)), rest, 0)
            else Receive(client, max, room, op, data + f.data, rest)
  {
    hide Range, Masked, LengthBytes, ReadLength, ReadBody, HeadBytes, HeadOf, Receive, FirstOpcode;
    var h := Head(fin, f.opcode, f.key.Some?, PayloadCode(|f.data|));
    var body := if f.key.Some? then f.key.value + Masked(f.data, f.key.value) else f.data;
    var head, length := HeadBytes(h), LengthBytes(|f.data|);
    var input := head + (length + (body + rest));
    Assoc(head, length, body, rest);
    assert Frame(fin, f.opcode, f.data, f.key) + rest == input;
    hide Frame;
    HeadRoundTrip(h);
    Front(head, length + (body + rest));
    RangesGrow();
    LengthBack(h, |f.data|, body + rest);
    Front(length, body + rest);
    BodyBack(h, f.data, f.key, rest);
    Front(body, rest);
    ReceiveOne(client, max, room, opcode, data, input, h, f.data, rest);
  }

  lemma ReceivePing(client: bool, max: nat, room: nat, opcode: Opcode, data: seq<Byte>, rest: seq<Byte>)
    ensures var r := Receive(client, max, room, opcode, data, rest);
            Receive(client, max, room + 2, opcode, data, Control(PING) + rest) == r.(pongs := r.pongs + 1)
  {
    var head := Control(PING);
    HeadRoundTrip(Head(true, PING, false, 0));
    hide HeadBytes, HeadOf;
    Front(head, rest);
  }

  lemma {:induction false} PingsBack(client: bool, max: nat, room: nat, opcode: Opcode, data: seq<Byte>, n: nat, rest: seq<Byte>)
    ensures var r := Receive(client, max, room, opcode, data, rest);
            Receive(client, max, room + 2 * n, opcode, data, Pings(n) + rest) == r.(pongs := r.pongs + n)
    decreases n
  {
    hide Receive, Control;
    if n == 0 {
      assert Pings(n) + rest == rest;
    } else {
      PingsBack(client, max, room, opcode, data, n - 1, rest);
      assert Pings(n) + rest == Control(PING) + (Pings(n - 1) + rest);
      ReceivePing(client, max, room + 2 * (n - 1), opcode, data, Pings(n - 1) + rest);
    }
  }

  lemma SendAllIs(fs: seq<Fragment>, rest: seq<Byte>)
    requires |fs| > 0
    ensures SendAll(fs) + rest ==
            Pings(fs[0].pings) + (Frame(|fs| == 1, fs[0].opcode, fs[0].data, fs[0].key) + (SendAll(fs[1..]) + rest))
  {}

  /** Non-empty fragments whose total is below the maximum, masked if the receiver requires it, with any
      number of pings between them, are received as one message if there is room for the pongs: the first
      opcode, the payloads one after the other, and a pong for each ping. */
  lemma {:induction false} ReceiveSent(client: bool, max: nat, room: nat, opcode: Opcode, data: seq<Byte>,
      fs: seq<Fragment>, rest: seq<Byte>)
    requires |fs| > 0 && (forall i :: 0 <= i < |fs| ==> Sendable(fs[i], client)) && |data| + |Payload(fs)| < max <= Range(4)
    ensures Receive(client, max, room + 2 * PingCount(fs), opcode, data, SendAll(fs) + rest) ==
            Outcome(Received(Message(OpcodeOf(opcode, fs), data + Payload(fs))), rest, PingCount(fs))
    decreases |fs|
  {
    hide Receive, Range, Frame, Pings, FirstOpcode;
    var f, fin := fs[0], |fs| == 1;
    assert Sendable(f, client);
    hide Sendable;
    SendAllIs(fs, rest);
    var more := SendAll(fs[1..]) + rest;
    var later := room + 2 * PingCount(fs[1..]);
    PingsBack(client, max, later, opcode, data, f.pings, Frame(fin, f.opcode, f.data, f.key) + more);
    FrameBack(client, max, later, opcode, data, fin, f, more);
    if fin {
      LastFragment(fs, rest);
    } else {
      hide SendAll;
      assert data + f.data + Payload(fs[1..]) == data + Payload(fs);
      ReceiveSent(client, max, room, FirstOpcode(opcode, f.opcode), data + f.data, fs[1..], rest);
    }
  }

  lemma LastFragment(fs: seq<Fragment>, rest: seq<Byte>)
    requires |fs| == 1
    ensures SendAll(fs[1..]) + rest == rest && Payload(fs) == fs[0].data && PingCount(fs) == fs[0].pings
    ensures forall op :: OpcodeOf(op, fs) == FirstOpcode(op, fs[0].opcode)
  {}
}
