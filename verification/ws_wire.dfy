/** WebSocket frames byte by byte (section 5.2 of RFC 6455), and what the receiver makes of the next one. */
module WsWire {
  import opened ByteBlocks
  import opened ByteCodec
  import opened ByteWire
  import opened WsFrames
  import opened Wrappers

  // ---------------------------------------------------------------- masking

  /** Bit `k` of a number. */
  function Bit(k: nat, n: nat): nat {
    if k == 0 then n % 2 else Bit(k - 1, n / 2)
  }

  lemma {:induction false} XorBitsBit(n: nat, a: nat, b: nat, k: nat)
    requires k < n
    ensures Bit(k, XorBits(n, a, b)) == if Bit(k, a) == Bit(k, b) then 0 else 1
    decreases n
  {
    if k > 0 {
      XorBitsBit(n - 1, a / 2, b / 2, k - 1);
      assert XorBits(n, a, b) / 2 == XorBits(n - 1, a / 2, b / 2);
    }
  }

  /** A bit of a masked byte is set exactly if the bits of the byte and of the byte of the key at its index modulo
      four differ. */
  lemma MaskedBit(data: seq<Byte>, key: Key, i: nat, k: nat)
    requires i < |data| && k < 8
    ensures Bit(k, Masked(data, key)[i]) == 1 <==> Bit(k, data[i]) != Bit(k, key[i % 4])
  {
    assert Pow2(8) == 256;
    XorBitsBit(8, data[i], key[i % 4], k);
    BitIsBit(k, data[i]);
    BitIsBit(k, key[i % 4]);
  }

  lemma {:induction false} BitIsBit(k: nat, n: nat)
    ensures Bit(k, n) < 2
    decreases k
  {
    if k > 0 {
      BitIsBit(k - 1, n / 2);
    }
  }

  // ---------------------------------------------------------------- a frame

  /** The bytes of a frame: final bit and opcode; mask bit and length, or 126 and two bytes of length, or 127 and eight,
      the most significant first; the key if there is one; the payload, masked if there is. */
  lemma FrameBytes(fin: bool, opcode: Opcode, data: seq<Byte>, key: Option<Key>)
    requires |data| < 0x1_0000_0000_0000_0000
    ensures var s := Frame(fin, opcode, data, key);
            var n := |data|;
            var l := if n <= 125 then 0 else if n <= 0xFFFF then 2 else 8;
            && |s| == 2 + l + (if key.Some? then 4 else 0) + n
            && s[0] == (if fin then 0x80 else 0) + opcode
            && s[1] == (if key.Some? then 0x80 else 0) + (if l == 0 then n else if l == 2 then 126 else 127)
            && (l > 0 ==> BigEndian(s[2..2 + l]) == n)
            && s[2 + l..] == if key.Some? then key.value + Masked(data, key.value) else data
  {
    WordRanges();
    var n := |data|;
    hide Range, Fixed, Masked;
    if 126 <= n {
      var w := if n < 65536 then 2 else 8;
      FixedExactly(false, w, n, Fixed(false, w, n));
    }
    var head, length := HeadBytes(Head(fin, opcode, key.Some?, PayloadCode(n))), LengthBytes(n);
    var body := if key.Some? then key.value + Masked(data, key.value) else data;
    assert Frame(fin, opcode, data, key) == head + (length + body);
    hide Frame;
    Pieces(head, length, body);
  }

  lemma Pieces(head: seq<Byte>, length: seq<Byte>, body: seq<Byte>)
    ensures var s := head + (length + body);
            s[|head|..|head| + |length|] == length && s[|head| + |length|..] == body && forall i :: 0 <= i < |head| ==> s[i] == head[i]
  {}

  /** The pings and pongs that are sent. */
  lemma ControlBytes()
    ensures Control(PING) == [0x89, 0x00] && Control(PONG) == [0x8A, 0x00]
  {}

  // ---------------------------------------------------------------- the next frame

  lemma NothingToRead(client: bool, max: nat, room: nat, opcode: Opcode, data: seq<Byte>, input: seq<Byte>)
    requires |input| < 2
    ensures Receive(client, max, room, opcode, data, input) == Outcome(Refused, [], 0)
  {}

  /** A ping is answered if there is room for a pong. */
  lemma PingIsAnswered(client: bool, max: nat, room: nat, opcode: Opcode, data: seq<Byte>, input: seq<Byte>)
    requires |input| >= 2 && input[0] % 16 == 9
    ensures var r := Receive(client, max, room, opcode, data, input);
            if room < 2 then r == Outcome(Refused, input[2..], 0)
            else var later := Receive(client, max, room - 2, opcode, data, input[2..]);
                 r == Outcome(later.ending, later.rest, later.pongs + 1)
  {}

  /** Of a pong, or of a frame of an unknown kind, the first two bytes are skipped. */
  lemma OthersAreSkipped(client: bool, max: nat, room: nat, opcode: Opcode, data: seq<Byte>, input: seq<Byte>)
    requires |input| >= 2 && input[0] % 16 != 9 && input[0] % 16 > 2
    ensures Receive(client, max, room, opcode, data, input) == Receive(client, max, room, opcode, data, input[2..])
  {}

  predicate IsDataFrame(input: seq<Byte>) {
    |input| >= 2 && input[0] % 16 <= 2
  }

  /** The bytes of its length after the first two. */
  function LengthWidth(input: seq<Byte>): nat
    requires |input| >= 2
  {
    if input[1] % 128 == 126 then 2 else if input[1] % 128 == 127 then 8 else 0
  }

  function LengthSaid(input: seq<Byte>): nat
    requires |input| >= 2 && |input| >= 2 + LengthWidth(input)
  {
    if LengthWidth(input) == 0 then input[1] % 128 else BigEndian(input[2..2 + LengthWidth(input)])
  }

  function KeyWidth(input: seq<Byte>): nat
    requires |input| >= 2
  {
    if input[1] >= 0x80 then 4 else 0
  }

  /** Which data frames are refused: one that is not masked, of a client; one whose length does not come; one that makes
      the message as long as the maximum or longer; an empty one; and one that does not come whole. */
  predicate IsRefused(client: bool, max: nat, have: nat, input: seq<Byte>)
    requires IsDataFrame(input)
  {
    || (!client && input[1] < 0x80)
    || |input| < 2 + LengthWidth(input)
    || have + LengthSaid(input) >= max
    || LengthSaid(input) == 0
    || |input| < 2 + LengthWidth(input) + KeyWidth(input) + LengthSaid(input)
  }

  /** As long as the sum of the lengths is below 2^64: a data frame that is not refused has its payload put behind the
      data so far, unmasked if it is masked. The message is complete if the first bit of the frame is set, and has the
      first opcode that was not 0. */
  lemma NextFrame(client: bool, max: nat, room: nat, opcode: Opcode, data: seq<Byte>, input: seq<Byte>)
    requires IsDataFrame(input)
    requires |input| >= 2 + LengthWidth(input) ==> |data| + LengthSaid(input) < 0x1_0000_0000_0000_0000
    ensures var r := Receive(client, max, room, opcode, data, input);
            if IsRefused(client, max, |data|, input) then r.ending.Refused? && r.pongs == 0
            else
              var at := 2 + LengthWidth(input) + KeyWidth(input);
              var end := at + LengthSaid(input);
              var raw := input[at..end];
              var payload := if input[1] >= 0x80 then Masked(raw, input[at - 4..at]) else raw;
              var op := if opcode == 0 then input[0] % 16 else opcode;
              r == if input[0] >= 0x80 then Outcome(Received(Message(op, data + payload)), input[end..], 0)
                   else Receive(client, max, room, op, data + payload, input[end..])
  {
    LengthIs(input);
    var w := LengthWidth(input);
    hide Range, Masked, BigEndian, FixedValue, ReadLength, LengthSaid, LengthWidth, NewSize, StaysInside;
    if |input| >= 2 + w {
      NoWrap(|data|, LengthSaid(input));
      assert input[2..][w..] == input[2 + w..];
      BodyIs(input, 2 + w, LengthSaid(input));
      hide ReadBody;
    }
  }

  lemma BodyIs(input: seq<Byte>, from: nat, n: nat)
    requires 2 <= from <= |input|
    ensures var h := HeadOf(input[0], input[1]); var at := from + KeyWidth(input); var d := ReadBody(h, n, input[from..]);
            if n == 0 || |input| < at + n then d.Short?
            else
              var raw := input[at..at + n];
              && d == Got(if input[1] >= 0x80 then Masked(raw, input[at - 4..at]) else raw, KeyWidth(input) + n)
              && input[from..][d.used..] == input[at + n..]
  {
    hide Masked;
    Slices(input, from, KeyWidth(input), n);
  }

  lemma Slices(input: seq<Byte>, from: nat, k: nat, n: nat)
    requires |input| >= from && (k == 0 || k == 4)
    ensures var t := input[from..];
            |input| >= from + k + n ==> t[k..k + n] == input[from + k..from + k + n] && t[k + n..] == input[from + k + n..] &&
                                        (k == 4 ==> t[..4] == input[from + k - 4..from + k])
  {}

  lemma NoWrap(have: nat, length: nat)
    requires have + length < 0x1_0000_0000_0000_0000
    ensures NewSize(have, length) == have + length && StaysInside(have, length)
  {
    WordRanges();
  }

  lemma LengthIs(input: seq<Byte>)
    requires |input| >= 2
    ensures var h, w := HeadOf(input[0], input[1]), LengthWidth(input);
            ReadLength(h, input[2..]) == if |input| < 2 + w then Short else Got(LengthSaid(input), w)
  {
    var s, w := input[2..], LengthWidth(input);
    if w > 0 && |input| >= 2 + w {
      assert s[..w] == input[2..2 + w];
      FixedValueIs(false, s[..w]);
    }
  }

  // ---------------------------------------------------------------- the opcode of a message

  /** Fragment `i` is the first one that has an opcode. */
  predicate IsFirstWithOpcode(fs: seq<Fragment>, i: nat) {
    i < |fs| && fs[i].opcode != 0 && forall j :: 0 <= j < i ==> fs[j].opcode == 0
  }

  lemma FirstOfRest(fs: seq<Fragment>, i: nat)
    requires IsFirstWithOpcode(fs, i) && i > 0
    ensures fs[0].opcode == 0 && IsFirstWithOpcode(fs[1..], i - 1)
  {}

  lemma {:induction false} OpcodeStays(opcode: Opcode, fs: seq<Fragment>)
    requires opcode != 0
    ensures OpcodeOf(opcode, fs) == opcode
    decreases |fs|
  {
    if |fs| > 0 {
      OpcodeStays(opcode, fs[1..]);
    }
  }

  /** The opcode of a message is that of the first fragment that has one. */
  lemma {:induction false} OpcodeIsFirst(fs: seq<Fragment>, i: nat)
    requires IsFirstWithOpcode(fs, i)
    ensures OpcodeOf(0, fs) == fs[i].opcode
    decreases i
  {
    if i == 0 {
      OpcodeStays(fs[0].opcode, fs[1..]);
    } else {
      FirstOfRest(fs, i);
      OpcodeIsFirst(fs[1..], i - 1);
    }
  }
}
