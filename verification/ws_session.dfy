/** Sending and receiving WebSocket messages over a stream. */
module WsSession {
  import opened ByteBlocks
  import opened ByteCodec
  import opened ByteWire
  import opened Streams
  import opened WsFrames
  import opened WsWire
  import opened Wrappers

  class WSFrameMessage {
    var opcode: Opcode
    var data: seq<Byte>

    constructor (opcode: Opcode, data: seq<Byte>)
      ensures this.opcode == opcode && this.data == data
    {
      this.opcode, this.data := opcode, data;
    }
  }

  /** A word on the host, in network order on the wire. */
  method WriteWord(stream: Stream, hostLittle: bool, w: nat, v: nat) returns (r: nat)
    requires v < Range(w)
    modifies stream`output, stream`room
    ensures if w <= old(stream.room) then r == w && stream.output == old(stream.output) + Fixed(false, w, v) &&
        stream.room == old(stream.room) - w
            else r == 0 && old(stream.output) <= stream.output && stream.room == 0
  {
    var word := if hostLittle then ByteSwap(w, v) else v;
    SwapMeetsOrder(hostLittle, false, w, v);
    r := stream.WriteFixSize(InMemory(hostLittle, w, word));
  }

  /** Combines `data[from + i]` with the key, in place. */
  method ApplyMask(data: seq<Byte>, from: nat, key: Key) returns (out: seq<Byte>)
    requires from <= |data|
    ensures out == data[..from] + Masked(data[from..], key)
  {
    out := data;
    for i := 0 to |data| - from
      invariant |out| == |data| && out[..from] == data[..from]
      invariant forall j :: 0 <= j < i ==> out[from + j] == Xor(data[from + j], key[j % 4])
      invariant out[from + i..] == data[from + i..]
    {
      out := out[from + i := Xor(out[from + i], key[i % 4])];
    }
    MaskedIs(data, from, key, out);
  }

  lemma MaskedIs(data: seq<Byte>, from: nat, key: Key, out: seq<Byte>)
    requires from <= |data| == |out| && out[..from] == data[..from]
    requires forall j :: 0 <= j < |data| - from ==> out[from + j] == Xor(data[from + j], key[j % 4])
    ensures out == data[..from] + Masked(data[from..], key)
  {}

  /** What the caller gets: the sizes as a 32-bit word. */
  function Int32(n: nat): int {
    ToSigned(4, n % Range(4))
  }

  lemma SmallInt32(n: nat)
    requires n < 0x8000_0000
    ensures Int32(n) == n
  {
    WordRanges();
  }

  /** Sends one frame. A message without payload cannot be sent: its head goes out, then the send fails. */
  method WSSendMessage(stream: Stream, msg: WSFrameMessage, client: bool, fin: bool, key: Key, hostLittle: bool) returns (r: int)
    requires |msg.data| < Range(8)
    modifies stream`output, stream`room, stream`closed, msg`data
    ensures var frame := Frame(fin, msg.opcode, old(msg.data), if client then Some(key) else None);
            if |old(msg.data)| > 0 && |frame| <= old(stream.room) then
              && r == Int32(|old(msg.data)| + 2) && stream.closed == old(stream.closed)
              && stream.output == old(stream.output) + frame && stream.room == old(stream.room) - |frame|
              && msg.data == if client then Masked(old(msg.data), key) else old(msg.data)
            else
              r == -1 && stream.closed && old(stream.output) <= stream.output
    ensures r != -1 && |old(msg.data)| + 2 < 0x8000_0000 ==> r == |old(msg.data)| + 2
  {
    hide Range, Masked, LengthBytes, HeadBytes, Int32, PayloadCode, Frame;
    ghost var out := stream.output;
    var size := |msg.data|;
    FrameIs(out, fin, msg.opcode, msg.data, if client then Some(key) else None);
    var head := Head(fin, msg.opcode, client, PayloadCode(size));
    var n := stream.WriteFixSize(HeadBytes(head));
    if n == 0 {
      stream.Close();
      return -1;
    }
    var ok := WriteLength(stream, hostLittle, size);
    if !ok {
      stream.Close();
      return -1;
    }
    if client {
      var masked := ApplyMask(msg.data, 0, key);
      assert msg.data[0..] == msg.data && msg.data[..0] == [];
      msg.data := masked;
      n := stream.WriteFixSize(key);
      if n == 0 {
        stream.Close();
        return -1;
      }
    }
    n := stream.WriteFixSize(msg.data);
    if n == 0 {
      stream.Close();
      return -1;
    }
    if size + 2 < 0x8000_0000 {
      SmallInt32(size + 2);
    }
    return Int32(size + 2);
  }

  lemma FrameIs(out: seq<Byte>, fin: bool, opcode: Opcode, data: seq<Byte>, key: Option<Key>)
    ensures var front := out + HeadBytes(Head(fin, opcode, key.Some?, PayloadCode(|data|))) + LengthBytes(|data|);
            out + Frame(fin, opcode, data, key) == if key.Some? then front + key.value + Masked(data, key.value) else front + data
  {}

  /** The 2 or 8 bytes of a length that the head cannot hold. */
  method WriteLength(stream: Stream, hostLittle: bool, size: nat) returns (ok: bool)
    requires size < Range(8)
    modifies stream`output, stream`room
    ensures ok <==> |LengthBytes(size)| <= old(stream.room)
    ensures ok ==> stream.output == old(stream.output) + LengthBytes(size) && stream.room == old(stream.room) - |LengthBytes(size)|
    ensures !ok ==> old(stream.output) <= stream.output
  {
    hide Range, Fixed;
    RangeOfLength(size);
    var n := 1;
    if PayloadCode(size) == 126 {
      n := WriteWord(stream, hostLittle, 2, size);
    } else if PayloadCode(size) == 127 {
      n := WriteWord(stream, hostLittle, 8, size);
    } else {
      assert stream.output == stream.output + LengthBytes(size);
    }
    ok := n != 0;
  }

  lemma RangeOfLength(size: nat)
    requires size < Range(8)
    ensures PayloadCode(size) == 126 ==> size < Range(2)
    ensures PayloadCode(size) == 127 ==> size < Range(8)
  {}

  method WSControl(stream: Stream, opcode: Opcode) returns (v: nat)
    modifies stream`output, stream`room, stream`closed
    ensures if 2 <= old(stream.room) then
              v == 2 && stream.output == old(stream.output) + Control(opcode) && stream.room == old(stream.room) - 2 &&
                  stream.closed == old(stream.closed)
            else v == 0 && old(stream.output) <= stream.output && stream.closed
  {
    v := stream.WriteFixSize(HeadBytes(Head(true, opcode, false, 0)));
    if v == 0 {
      stream.Close();
    }
  }

  method WSPing(stream: Stream) returns (v: nat)
    modifies stream`output, stream`room, stream`closed
    ensures if 2 <= old(stream.room) then
              v == 2 && stream.output == old(stream.output) + Control(PING) && stream.room == old(stream.room) - 2 &&
                  stream.closed == old(stream.closed)
            else v == 0 && old(stream.output) <= stream.output && stream.closed
  {
    v := WSControl(stream, PING);
  }

  method WSPong(stream: Stream) returns (v: nat)
    modifies stream`output, stream`room, stream`closed
    ensures if 2 <= old(stream.room) then
              v == 2 && stream.output == old(stream.output) + Control(PONG) && stream.room == old(stream.room) - 2 &&
                  stream.closed == old(stream.closed)
            else v == 0 && old(stream.output) <= stream.output && stream.closed
  {
    v := WSControl(stream, PONG);
  }

  function Pongs(n: nat): seq<Byte> {
    if n == 0 then [] else Pongs(n - 1) + Control(PONG)
  }

  lemma NoPongs(out: seq<Byte>)
    ensures out == out + Pongs(0)
  {}

  lemma OneMorePong(out: seq<Byte>, n: nat)
    ensures out + Pongs(n) + Control(PONG) == out + Pongs(n + 1)
  {}

  /** What a receiver that has sent `n` pongs will end with. */
  function After(n: nat, o: Outcome): Outcome {
    o.(pongs := n + o.pongs)
  }

  /** Receives a message, answering pings, or fails and closes the stream. It stops when a byte is about to be
      put outside the buffer, for then nothing can be said of what follows. */
  method WSRecvMessage(stream: Stream, client: bool, max: nat, hostLittle: bool) returns (ending: Ending)
    requires 2 * max <= Range(4)
    modifies stream
    ensures var o := Receive(client, max, old(stream.room), 0, [], old(stream.input));
            && ending == o.ending && (!ending.Overrun? ==> stream.input == o.rest)
            && (if ending.Received? then stream.output == old(stream.output) + Pongs(o.pongs) && stream.closed == old(stream.closed)
                else old(stream.output) + Pongs(o.pongs) <= stream.output && stream.closed == (ending.Refused? || old(stream.closed)))
  {
    hide Range, Receive, HeadOf, Control, ReadLength, ReadBody, Masked, NewSize, StaysInside, AfterBadBody, Pongs;
    NoPongs(stream.output);
    ghost var whole := Receive(client, max, stream.room, 0, [], stream.input);
    ghost var pongs: nat := 0;
    var opcode: Opcode, data: seq<Byte> := 0, [];
    while true
      invariant stream.output == old(stream.output) + Pongs(pongs) && stream.closed == old(stream.closed)
      invariant |data| == 0 || |data| < max
      invariant whole == After(pongs, Receive(client, max, stream.room, opcode, data, stream.input))
      decreases |stream.input|
    {
      ghost var input := stream.input;
      ReceiveUnfolds(client, max, stream.room, opcode, data, input);
      var head, n := stream.ReadFixSize(2);
      if n == 0 {
        break;
      }
      var h := HeadOf(head[0], head[1]);
      if h.opcode == PING {
        var v := WSPong(stream);
        if v == 0 {
          break;
        }
        OneMorePong(old(stream.output), pongs);
        pongs := pongs + 1;
      } else if h.opcode == PONG {
      } else if h.opcode == CONTINUE || h.opcode == TEXT_FRAME || h.opcode == BIN_FRAME {
        if !client && !h.mask {
          break;
        }
        var got, length := ReceiveLength(stream, h, hostLittle);
        if !got {
          break;
        }
        if NewSize(|data|, length) >= max {
          break;
        }
        BelowRange(|data|, length, max);
        var body, overrun;
        got, body, overrun := ReceiveBody(stream, h, data, length);
        if overrun {
          return Overrun;
        }
        if !got {
          break;
        }
        data := body;
        if opcode == 0 && h.opcode != CONTINUE {
          opcode := h.opcode;
        }
        if h.fin {
          return Received(Message(opcode, data));
        }
      }
    }
    stream.Close();
    return Refused;
  }

  /** One turn of the receive loop. */
  lemma ReceiveUnfolds(client: bool, max: nat, room: nat, opcode: Opcode, data: seq<Byte>, input: seq<Byte>)
    ensures Receive(client, max, room, opcode, data, input) ==
      if |input| < 2 then Failed([]) else
        var h := HeadOf(input[0], input[1]);
        var s := input[2..];
        if h.opcode == PING then
          if room < 2 then Failed(s) else After(1, Receive(client, max, room - 2, opcode, data, s))
        else if !IsData(h.opcode) then Receive(client, max, room, opcode, data, s)
        else if !client && !h.mask then Failed(s)
        else
          var length := ReadLength(h, s);
          if length.Short? then Failed([]) else
            var t := s[length.used..];
            if NewSize(|data|, length.value) >= max then Failed(t)
            else if !StaysInside(|data|, length.value) then Outside(h, t) else
              var body := ReadBody(h, length.value, t);
              if body.Short? then Failed(AfterBadBody(h, length.value, t)) else
                var op := FirstOpcode(opcode, h.opcode);
                if h.fin then Outcome(Received(Message(op, data + body.value)), t[body.used..], 0)
                else Receive(client, max, room, op, data + body.value, t[body.used..])
  {}

  method ReceiveLength(stream: Stream, h: Head, hostLittle: bool) returns (got: bool, length: nat)
    modifies stream`input
    ensures match ReadLength(h, old(stream.input))
            case Short => !got && stream.input == []
            case Got(v, n) => got && length == v && stream.input == old(stream.input)[n..]
  {
    if h.payload == 126 {
      got, length := ReadWord(stream, hostLittle, 2);
    } else if h.payload == 127 {
      got, length := ReadWord(stream, hostLittle, 8);
    } else {
      got, length := true, h.payload;
    }
  }

  method ReadWord(stream: Stream, hostLittle: bool, w: nat) returns (got: bool, v: nat)
    requires w > 0
    modifies stream`input
    ensures match ReadFixed(false, w, old(stream.input))
            case Short => !got && stream.input == []
            case Got(u, n) => got && v == u && stream.input == old(stream.input)[n..]
  {
    hide FromMemory, ByteSwap;
    var s, n := stream.ReadFixSize(w);
    if n == 0 {
      return false, 0;
    }
    v := FromMemory(hostLittle, s);
    SwapMeetsOrderBack(hostLittle, false, s);
    if hostLittle {
      v := ByteSwap(w, v);
    }
    got := true;
  }

  /** The key if there is one, and the payload, unmasked in place behind the data that is already there. */
  method ReceiveBody(stream: Stream, h: Head, data: seq<Byte>, length: nat) returns (got: bool, out: seq<Byte>, overrun: bool)
    requires length < Range(8) && |data| < Range(8)
    modifies stream`input
    ensures overrun <==> !StaysInside(|data|, length) && Outside(h, old(stream.input)).ending.Overrun?
    ensures if StaysInside(|data|, length) then
              match ReadBody(h, length, old(stream.input))
              case Short => !got && stream.input == AfterBadBody(h, length, old(stream.input))
              case Got(v, n) => got && out == data + v && stream.input == old(stream.input)[n..]
            else
              !got && (!overrun ==> stream.input == Outside(h, old(stream.input)).rest)
  {
    hide Masked, Range, NewSize;
    ghost var input := stream.input;
    overrun := false;
    out := data;
    var key: Key := [0, 0, 0, 0];
    if h.mask {
      var k, n := stream.ReadFixSize(4);
      if n == 0 {
        return false, out, false;
      }
      key := k;
    }
    if !StaysInside(|data|, length) {
      NothingStaysInside(|data|);
      var part := stream.Read(length);
      return false, out, |part| > 0;
    }
    var raw, n := stream.ReadFixSize(length);
    if n == 0 {
      return false, out, false;
    }
    out := data + raw;
    if h.mask {
      assert out[..|data|] == data && out[|data|..] == raw;
      out := ApplyMask(out, |data|, key);
      assert input[4..][..length] == input[4..4 + length] && input[4..][length..] == input[4 + length..];
    }
    got := true;
  }

  lemma NothingStaysInside(have: nat)
    requires have < Range(8)
    ensures StaysInside(have, 0)
  {}

  lemma BelowRange(have: nat, length: nat, max: nat)
    requires 2 * max <= Range(4) && (have == 0 || have < max)
    ensures have < Range(8)
    ensures StaysInside(have, length) && NewSize(have, length) < max ==> have + length < max
  {
    RangesGrow();
  }

  // ---------------------------------------------------------------- both ends

  /** Sends the fragments, each after its pings, the last one as final. */
  method SendFragments(stream: Stream, fs: seq<Fragment>, client: bool, hostLittle: bool)
    requires forall i :: 0 <= i < |fs| ==> 0 < |fs[i].data| < Range(8) && fs[i].key.Some? == client
    requires |SendAll(fs)| <= stream.room
    modifies stream`output, stream`room, stream`closed
    ensures stream.output == old(stream.output) + SendAll(fs) && stream.closed == old(stream.closed)
  {
    hide Range, Frame, Pings, Control;
    ghost var out, room := stream.output, stream.room;
    assert fs[0..] == fs;
    assert out + SendAll(fs) == stream.output + SendAll(fs);
    for i := 0 to |fs|
      invariant stream.closed == old(stream.closed) && |SendAll(fs[i..])| <= stream.room
      invariant stream.output + SendAll(fs[i..]) == out + SendAll(fs)
    {
      var f := fs[i];
      ghost var rest := SendAll(fs[i + 1..]);
      ghost var frame := Frame(i == |fs| - 1, f.opcode, f.data, f.key);
      assert fs[i..][0] == f && fs[i..][1..] == fs[i + 1..];
      assert SendAll(fs[i..]) == Pings(f.pings) + (frame + rest);
      ghost var before := stream.output;
      SendPings(stream, f.pings, |frame| + |rest|);
      var msg := new WSFrameMessage(f.opcode, f.data);
      var r := WSSendMessage(stream, msg, client, i == |fs| - 1, if f.key.Some? then f.key.value else [0, 0, 0, 0], hostLittle);
      Assoc3(before, Pings(f.pings), frame, rest);
    }
    assert fs[|fs|..] == [];
  }

  lemma Assoc3(a: seq<Byte>, b: seq<Byte>, c: seq<Byte>, d: seq<Byte>)
    ensures a + b + c + d == a + (b + (c + d))
  {}

  method SendPings(stream: Stream, n: nat, ghost more: nat)
    requires |Pings(n)| + more <= stream.room
    modifies stream`output, stream`room, stream`closed
    ensures stream.output == old(stream.output) + Pings(n) && stream.closed == old(stream.closed)
    ensures stream.room == old(stream.room) - |Pings(n)|
  {
    hide Control;
    var left := n;
    while left > 0
      invariant 0 <= left && stream.closed == old(stream.closed)
      invariant stream.output + Pings(left) == old(stream.output) + Pings(n)
      invariant stream.room == old(stream.room) - |Pings(n)| + |Pings(left)|
    {
      ghost var before := stream.output;
      var v := WSPing(stream);
      assert before + Pings(left) == before + Control(PING) + Pings(left - 1);
      left := left - 1;
    }
  }

  /** A message sent in fragments by one end and received by the other, over streams with any pattern of short
      reads and writes: a client masks and a server requires it. */
  method Exchange(fs: seq<Fragment>, senderIsClient: bool, max: nat, room: nat, senderLittle: bool, receiverLittle: bool)
      returns (ending: Ending, answer: Stream)
    requires |fs| > 0 && 2 * max <= Range(4) && |Payload(fs)| < max
    requires forall i :: 0 <= i < |fs| ==> IsData(fs[i].opcode) && 0 < |fs[i].data| && fs[i].key.Some? == senderIsClient
    requires 2 * PingCount(fs) <= room
    ensures ending == Received(Message(OpcodeOf(0, fs), Payload(fs)))
    ensures forall i :: 0 <= i < |fs| && fs[i].opcode != 0 && (forall j :: 0 <= j < i ==> fs[j].opcode == 0) ==>
              ending == Received(Message(fs[i].opcode, Payload(fs)))
    ensures answer.output == Pongs(PingCount(fs)) && !answer.closed
  {
    hide Range, Receive, Pings, Frame, Control;
    ShortData(fs, max);
    var sender := new Stream([], |SendAll(fs)|);
    SendFragments(sender, fs, senderIsClient, senderLittle);
    answer := new Stream(sender.output, room);
    assert sender.output == SendAll(fs) + [] && [] + Payload(fs) == Payload(fs);
    ReceiveSent(!senderIsClient, max, room - 2 * PingCount(fs), 0, [], fs, []);
    ending := WSRecvMessage(answer, !senderIsClient, max, receiverLittle);
    forall i | 0 <= i < |fs| && fs[i].opcode != 0 && (forall j :: 0 <= j < i ==> fs[j].opcode == 0)
      ensures OpcodeOf(0, fs) == fs[i].opcode
    {
      OpcodeIsFirst(fs, i);
    }
  }

  lemma {:induction false} ShortData(fs: seq<Fragment>, max: nat)
    requires |Payload(fs)| < max && 2 * max <= Range(4)
    ensures forall i :: 0 <= i < |fs| ==> |fs[i].data| < Range(8)
    decreases |fs|
  {
    RangesGrow();
    if |fs| > 0 {
      ShortData(fs[1..], max);
      assert forall i :: 1 <= i < |fs| ==> fs[i] == fs[1..][i - 1];
    }
  }
}
