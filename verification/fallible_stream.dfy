/** The loops that complete short reads and writes, when these may also fail: the error is a number below zero, and the
    loops keep it in an unsigned word. */
module FallibleStreams {
  import opened ByteBlocks

  const SIZE_RANGE: nat := 0x1_0000_0000_0000_0000

  /** What one read gives: bytes, no bytes when the other end has closed, or the error -1. */
  datatype Reading = Arrived(bytes: seq<Byte>) | Failed

  /** How the loop ends: with all the bytes, without them, or with a read that is to go before the buffer. The
      readings are those that are left. */
  datatype Fixed = Whole(buf: seq<Byte>, rest: seq<Reading>) | Ended(rest: seq<Reading>) | Outside(rest: seq<Reading>)

  /** The loop when `buf` is in place. The error is kept in an unsigned word, so the test for it fails, and adding
      it steps back by one byte. */
  function ReadOn(rs: seq<Reading>, length: nat, buf: seq<Byte>): Fixed
    requires |buf| <= length
    decreases |rs|
  {
    var left := length - |buf|;
    if left == 0 then Whole(buf, rs)
    else if |rs| == 0 then Ended(rs)
    else match rs[0]
      case Failed => if |buf| == 0 then Outside(rs[1..]) else ReadOn(rs[1..], length, buf[..|buf| - 1])
      case Arrived(bs) =>
        if |bs| == 0 then Ended(rs[1..])
        else if |bs| > left then Whole(buf + bs[..left], [Arrived(bs[left..])] + rs[1..])
        else ReadOn(rs[1..], length, buf + bs)
  }

  function Came(rs: seq<Reading>): seq<Byte> {
    if |rs| == 0 then [] else (if rs[0].Failed? then [] else rs[0].bytes) + Came(rs[1..])
  }

  function Failures(rs: seq<Reading>): nat {
    if |rs| == 0 then 0 else (if rs[0].Failed? then 1 else 0) + Failures(rs[1..])
  }

  lemma {:induction false} BytesAreCounted(rs: seq<Reading>, length: nat, buf: seq<Byte>)
    requires |buf| <= length && ReadOn(rs, length, buf).Whole?
    ensures var o := ReadOn(rs, length, buf);
            |o.buf| == length && Failures(o.rest) <= Failures(rs) &&
                |buf| + |Came(rs)| == length + |Came(o.rest)| + (Failures(rs) - Failures(o.rest))
    decreases |rs|
  {
    var left := length - |buf|;
    if left > 0 {
      if rs[0].Failed? {
        BytesAreCounted(rs[1..], length, buf[..|buf| - 1]);
      } else if |rs[0].bytes| > left {
        CutReading(rs, left);
      } else {
        BytesAreCounted(rs[1..], length, buf + rs[0].bytes);
      }
    }
  }

  /** A reading of which a part is left. */
  lemma CutReading(rs: seq<Reading>, n: nat)
    requires |rs| > 0 && rs[0].Arrived? && n <= |rs[0].bytes|
    ensures var cut := [Arrived(rs[0].bytes[n..])] + rs[1..];
            Came(rs) == rs[0].bytes[..n] + Came(cut) && Failures(cut) == Failures(rs)
  {
    var cut := [Arrived(rs[0].bytes[n..])] + rs[1..];
    assert cut[1..] == rs[1..];
    assert rs[0].bytes == rs[0].bytes[..n] + rs[0].bytes[n..];
  }

  lemma {:induction false} NothingIsLost(rs: seq<Reading>, length: nat, buf: seq<Byte>)
    requires |buf| <= length && ReadOn(rs, length, buf).Whole? && Failures(ReadOn(rs, length, buf).rest) == Failures(rs)
    ensures var o := ReadOn(rs, length, buf); o.buf + Came(o.rest) == buf + Came(rs)
    decreases |rs|
  {
    var left := length - |buf|;
    if left > 0 {
      if rs[0].Failed? {
        BytesAreCounted(rs[1..], length, buf[..|buf| - 1]);
      } else if |rs[0].bytes| > left {
        CutReading(rs, left);
      } else {
        NothingIsLost(rs[1..], length, buf + rs[0].bytes);
        assert (buf + rs[0].bytes) + Came(rs[1..]) == buf + (rs[0].bytes + Came(rs[1..]));
      }
    }
  }

  /** Each failed read costs one byte that had come, and the caller is not told: all the bytes asked for are the
      bytes that came exactly when no read failed. */
  lemma FailuresLoseBytes(rs: seq<Reading>, length: nat)
    requires ReadOn(rs, length, []).Whole?
    ensures var o := ReadOn(rs, length, []); var failed := Failures(rs) - Failures(o.rest);
            && failed >= 0 && |Came(rs)| == |o.buf| + |Came(o.rest)| + failed
            && (o.buf + Came(o.rest) == Came(rs) <==> failed == 0)
  {
    hide ReadOn, Came, Failures;
    BytesAreCounted(rs, length, []);
    if Failures(ReadOn(rs, length, []).rest) == Failures(rs) {
      NothingIsLost(rs, length, []);
      assert [] + Came(rs) == Came(rs);
    }
  }

  /** Reads none of which fails or is empty give all the bytes exactly when so many come, and then the first ones. */
  lemma {:induction false} GivesTheFirst(rs: seq<Reading>, length: nat, buf: seq<Byte>)
    requires |buf| <= length && Failures(rs) == 0 && forall i :: 0 <= i < |rs| ==> rs[i].Failed? || rs[i].bytes != []
    ensures var o := ReadOn(rs, length, buf);
            && (o.Whole? <==> |buf| + |Came(rs)| >= length) && (!o.Whole? ==> o == Ended([]))
            && (o.Whole? ==> o.buf == (buf + Came(rs))[..length])
    decreases |rs|
  {
    var left := length - |buf|;
    if left > 0 && |rs| > 0 {
      var bs := rs[0].bytes;
      assert buf + (bs + Came(rs[1..])) == buf + bs + Came(rs[1..]);
      if |bs| <= left {
        GivesTheFirst(rs[1..], length, buf + bs);
      }
    }
  }

  /** A failed read steps back over the last byte, and goes before the buffer when there is none. */
  lemma FailedReadStepsBack(rs: seq<Reading>, length: nat, buf: seq<Byte>)
    requires |buf| < length
    ensures ReadOn([Failed] + rs, length, buf) == if buf == [] then Outside(rs) else ReadOn(rs, length, buf[..|buf| - 1])
  {
    assert ([Failed] + rs)[1..] == rs;
  }

  lemma FailedWriteStepsBack(ws: seq<Writing>, buf: seq<Byte>, offset: nat, sent: seq<Byte>)
    requires offset < |buf|
    ensures WriteOn([WriteFailed] + ws, buf, offset, sent) == if offset == 0 then Before(sent, ws) else WriteOn(ws, buf, offset - 1, sent)
  {
    assert ([WriteFailed] + ws)[1..] == ws;
  }

  lemma WordsStep(offset: nat, left: nat, rt: nat)
    requires offset + left < SIZE_RANGE - 1
    ensures rt <= left ==> (offset + rt) % SIZE_RANGE == offset + rt && (left - rt) % SIZE_RANGE == left - rt
    ensures rt == SIZE_RANGE - 1 && offset > 0 ==> (offset + rt) % SIZE_RANGE == offset - 1 && (left - rt) % SIZE_RANGE == left + 1
  {}

  // ---------------------------------------------------------------- writes

  /** What one write does: it takes some bytes, none when nothing more can be sent, or fails. */
  datatype Writing = Took(n: nat) | WriteFailed

  datatype Sending = Sent(bytes: seq<Byte>, rest: seq<Writing>) | Stopped(bytes: seq<Byte>, rest: seq<Writing>)
    | Before(bytes: seq<Byte>, rest: seq<Writing>)

  /** The loop when it is at `offset` and `sent` has gone out. It ends with everything written, as it takes it, or
      without, or about to write from a place before the buffer. */
  function WriteOn(ws: seq<Writing>, buf: seq<Byte>, offset: nat, sent: seq<Byte>): Sending
    requires offset <= |buf|
    decreases |ws|
  {
    var left := |buf| - offset;
    if left == 0 then Sent(sent, ws)
    else if |ws| == 0 then Stopped(sent, ws)
    else match ws[0]
      case WriteFailed => if offset == 0 then Before(sent, ws[1..]) else WriteOn(ws[1..], buf, offset - 1, sent)
      case Took(n) =>
        var m := if n > left then left else n;
        if m == 0 then Stopped(sent, ws[1..]) else WriteOn(ws[1..], buf, offset + m, sent + buf[offset..offset + m])
  }

  function WriteFailures(ws: seq<Writing>): nat {
    if |ws| == 0 then 0 else (if ws[0].WriteFailed? then 1 else 0) + WriteFailures(ws[1..])
  }

  lemma {:induction false} SentAreCounted(ws: seq<Writing>, buf: seq<Byte>, offset: nat, sent: seq<Byte>)
    requires offset <= |buf| && WriteOn(ws, buf, offset, sent).Sent?
    ensures var o := WriteOn(ws, buf, offset, sent); var failed := WriteFailures(ws) - WriteFailures(o.rest);
            failed >= 0 && |o.bytes| == |sent| + (|buf| - offset) + failed && (failed == 0 ==> o.bytes == sent + buf[offset..])
    decreases |ws|
  {
    var left := |buf| - offset;
    if left > 0 {
      if ws[0].WriteFailed? {
        SentAreCounted(ws[1..], buf, offset - 1, sent);
      } else {
        var m := if ws[0].n > left then left else ws[0].n;
        SentAreCounted(ws[1..], buf, offset + m, sent + buf[offset..offset + m]);
        assert buf[offset..] == buf[offset..offset + m] + buf[offset + m..];
        assert sent + buf[offset..offset + m] + buf[offset + m..] == sent + (buf[offset..offset + m] + buf[offset + m..]);
      }
    }
  }

  /** Each failed write sends one byte again, and the caller is not told: what has gone out is the buffer exactly when
      no write failed. */
  lemma FailuresRepeatBytes(ws: seq<Writing>, buf: seq<Byte>)
    requires WriteOn(ws, buf, 0, []).Sent?
    ensures var o := WriteOn(ws, buf, 0, []); var failed := WriteFailures(ws) - WriteFailures(o.rest);
            failed >= 0 && |o.bytes| == |buf| + failed && (o.bytes == buf <==> failed == 0)
  {
    SentAreCounted(ws, buf, 0, []);
    assert [] + buf[0..] == buf;
  }

  class FallibleStream {
    var readings: seq<Reading>
    var writings: seq<Writing>
    var output: seq<Byte>

    /** One read of at most `length` bytes, with its result as an unsigned word. */
    method Read(length: nat) returns (rt: nat, part: seq<Byte>)
      requires 0 < length < SIZE_RANGE
      modifies this`readings
      ensures if |old(readings)| == 0 then rt == 0 && readings == [] else
                match old(readings)[0]
                case Failed => rt == SIZE_RANGE - 1 && part == [] && readings == old(readings)[1..]
                case Arrived(bs) =>
                  && rt == |part| && part == (if |bs| > length then bs[..length] else bs)
                  && readings == (if |bs| > length then [Arrived(bs[length..])] + old(readings)[1..] else old(readings)[1..])
    {
      if |readings| == 0 {
        return 0, [];
      }
      match readings[0] {
        case Failed =>
          rt, part, readings := SIZE_RANGE - 1, [], readings[1..];
        case Arrived(bs) =>
          if |bs| > length {
            rt, part, readings := length, bs[..length], [Arrived(bs[length..])] + readings[1..];
          } else {
            rt, part, readings := |bs|, bs, readings[1..];
          }
      }
    }

    /** The same loop over reads that may fail. It stops here when a byte is about to be put before the buffer. */
    method ReadFixSize(length: nat) returns (r: nat, buf: seq<Byte>, outside: bool)
      requires length < SIZE_RANGE - 1
      modifies this`readings
      ensures match ReadOn(old(readings), length, [])
              case Whole(b, rest) => !outside && r == length && buf == b && readings == rest
              case Ended(rest) => !outside && r == 0 && readings == rest
              case Outside(rest) => outside && readings == rest
    {
      ghost var whole := ReadOn(readings, length, []);
      var offset, left := 0, length;
      buf, outside := [], false;
      while left > 0
        invariant 0 <= left && left + |buf| == length && offset == |buf| && whole == ReadOn(readings, length, buf)
        decreases |readings|, left
      {
        var rt, part := Read(left);
        if rt <= 0 {
          return 0, buf, false;
        }
        if offset == 0 && rt > left {
          return 0, buf, true;
        }
        WordsStep(offset, left, rt);
        offset := (offset + rt) % SIZE_RANGE;
        left := (left - rt) % SIZE_RANGE;
        buf := if |part| == 0 then buf[..offset] else buf + part;
      }
      r := length;
    }

    /** One write of `part`, with its result as an unsigned word. */
    method Write(part: seq<Byte>) returns (rt: nat)
      requires 0 < |part| < SIZE_RANGE
      modifies this`writings, this`output
      ensures if |old(writings)| == 0 then rt == 0 && writings == [] && output == old(output) else
                writings == old(writings)[1..] &&
                match old(writings)[0]
                case WriteFailed => rt == SIZE_RANGE - 1 && output == old(output)
                case Took(n) => rt == (if n > |part| then |part| else n) && output == old(output) + part[..rt]
    {
      if |writings| == 0 {
        return 0;
      }
      match writings[0] {
        case WriteFailed =>
          rt, writings := SIZE_RANGE - 1, writings[1..];
        case Took(n) =>
          rt := if n > |part| then |part| else n;
          output, writings := output + part[..rt], writings[1..];
      }
    }

    /** The loop over writes that may fail. It stops here when it is about to write from a place before the buffer. */
    method WriteFixSize(buf: seq<Byte>) returns (r: nat, outside: bool)
      requires |buf| < SIZE_RANGE - 1
      modifies this`writings, this`output
      ensures match WriteOn(old(writings), buf, 0, [])
              case Sent(bytes, rest) => !outside && r == |buf| && output == old(output) + bytes && writings == rest
              case Stopped(bytes, rest) => !outside && r == 0 && output == old(output) + bytes && writings == rest
              case Before(bytes, rest) => outside && output == old(output) + bytes && writings == rest
    {
      ghost var whole, sent := WriteOn(writings, buf, 0, []), [];
      var offset, left := 0, |buf|;
      outside := false;
      while left > 0
        invariant 0 <= offset && 0 <= left && offset + left == |buf|
        invariant whole == WriteOn(writings, buf, offset, sent) && output == old(output) + sent
        decreases |writings|, left
      {
        var rt := Write(buf[offset..]);
        if rt <= 0 {
          return 0, false;
        }
        if offset == 0 && rt > left {
          return 0, true;
        }
        WordsStep(offset, left, rt);
        if rt <= left {
          assert buf[offset..][..rt] == buf[offset..offset + rt];
          sent := sent + buf[offset..offset + rt];
        }
        offset := (offset + rt) % SIZE_RANGE;
        left := (left - rt) % SIZE_RANGE;
      }
      r := |buf|;
    }
  }
}
