/** A byte stream whose reads and writes may be short, and the loops that complete them. */
module Streams {
  import opened ByteBlocks

  class Stream {
    var input: seq<Byte>      // what will arrive
    var output: seq<Byte>     // what was sent
    var closed: bool
    var room: nat             // how much can still be sent

    constructor (input: seq<Byte>, room: nat)
      ensures this.input == input && output == [] && !closed && this.room == room
    {
      this.input, output, closed, this.room := input, [], false, room;
    }

    /** Gives some of what arrives, at least one byte unless none was asked for or none will come. */
    method Read(length: nat) returns (buf: seq<Byte>)
      modifies this`input
      ensures old(input) == buf + input && |buf| <= length
      ensures |buf| == 0 <==> length == 0 || old(input) == []
    {
      if length == 0 || input == [] {
        return [];
      }
      assert 1 <= length && 1 <= |input|;
      var n :| 0 < n <= length && n <= |input|;
      buf := input[..n];
      input := input[n..];
    }

    /** Takes some of `buf`, at least one byte unless nothing more can be sent. */
    method Write(buf: seq<Byte>) returns (n: nat)
      modifies this`output, this`room
      ensures n <= |buf| && output == old(output) + buf[..n] && room == old(room) - n
      ensures n == 0 <==> |buf| == 0 || old(room) == 0
    {
      if |buf| == 0 || room == 0 {
        return 0;
      }
      assert 1 <= |buf| && 1 <= room;
      n :| 0 < n <= |buf| && n <= room;
      output := output + buf[..n];
      room := room - n;
    }

    method Close()
      modifies this`closed
      ensures closed
    {
      closed := true;
    }

    /** Reads exactly `length` bytes, whatever the single reads give; 0 when they do not come, and then all that
        came is gone. Reading no bytes also gives 0. */
    method ReadFixSize(length: nat) returns (buf: seq<Byte>, r: nat)
      modifies this`input
      ensures if length <= |old(input)| then r == length && buf == old(input)[..length] && input == old(input)[length..]
              else r == 0 && input == []
    {
      ghost var all := input;
      buf := [];
      var left := length;
      while left > 0
        invariant left + |buf| == length && left >= 0 && all == buf + input
      {
        var part := Read(left);
        if |part| == 0 {
          return buf, 0;
        }
        buf := buf + part;
        left := left - |part|;
      }
      return buf, length;
    }

    /** Writes all of `buf`, whatever the single writes take; 0 when it does not fit, and then what fits is
        sent. Writing no bytes also gives 0. */
    method WriteFixSize(buf: seq<Byte>) returns (r: nat)
      modifies this`output, this`room
      ensures if |buf| <= old(room) then r == |buf| && output == old(output) + buf && room == old(room) - |buf|
              else r == 0 && output == old(output) + buf[..old(room)] && room == 0
    {
      var offset, left := 0, |buf|;
      while left > 0
        invariant 0 <= offset && left == |buf| - offset && 0 <= left
        invariant output == old(output) + buf[..offset] && room == old(room) - offset
      {
        var n := Write(buf[offset..]);
        if n == 0 {
          return 0;
        }
        assert buf[..offset] + buf[offset..][..n] == buf[..offset + n];
        offset := offset + n;
        left := left - n;
      }
      return |buf|;
    }
  }
}
