/** Base64 and hexadecimal (sections 4 and 8 of RFC 4648). A failed decoding is the empty string for base64
    and an exception for hexadecimal. */
module BaseEncodings {
  import opened HttpSyntax
  import opened Numerals
  import opened ByteBlocks
  import opened Wrappers

  // ---------------------------------------------------------------- base64

  function Digit64(v: nat): (c: char)
    requires v < 64
    ensures c != '=' && Value64(c) == Some(v)
  {
    if v < 26 then ('A' as int + v) as char
    else if v < 52 then ('a' as int + v - 26) as char
    else if v < 62 then ('0' as int + v - 52) as char
    else if v == 62 then '+'
    else '/'
  }

  function Value64(c: char): (v: Option<nat>)
    ensures v.Some? ==> v.value < 64
  {
    if 'A' <= c <= 'Z' then Some(c as int - 'A' as int)
    else if 'a' <= c <= 'z' then Some(c as int - 'a' as int + 26)
    else if '0' <= c <= '9' then Some(c as int - '0' as int + 52)
    else if c == '+' then Some(62)
    else if c == '/' then Some(63)
    else None
  }

  function Number(a: nat, b: nat, c: nat): nat {
    a * 0x1_0000 + b * 0x100 + c
  }

  /** One to three bytes as a number of 24 bits, zeros at the end. */
  function Packed(data: seq<Byte>): (p: nat)
    requires 1 <= |data|
    ensures p < 0x100_0000
  {
    Number(data[0], if |data| > 1 then data[1] else 0, if |data| > 2 then data[2] else 0)
  }

  function Group(data: seq<Byte>): (s: string)
    requires 1 <= |data|
    ensures |s| == 4
  {
    var p := Packed(data);
    [Digit64(p / 0x4_0000), Digit64(p / 0x1000 % 64),
     if |data| > 1 then Digit64(p / 64 % 64) else '=', if |data| > 2 then Digit64(p % 64) else '=']
  }

  /** The text, four characters for each three bytes. */
  function Encode64(data: seq<Byte>): string
    decreases |data|
  {
    if |data| == 0 then ""
    else if |data| < 3 then Group(data)
    else Group(data[..3]) + Encode64(data[3..])
  }

  /** The bits and the padding of four characters, taken one by one. */
  datatype Bits = Bits(packed: nat, padding: nat)

  function NextBits(b: Option<Bits>, c: char): Option<Bits> {
    if b.None? then None
    else if c == '=' then Some(Bits(b.value.packed * 64, b.value.padding + 1))
    else if b.value.padding > 0 || Value64(c).None? then None
    else Some(Bits(b.value.packed * 64 + Value64(c).value, 0))
  }

  function ReadBits(s: string): Option<Bits>
    decreases |s|
  {
    if |s| == 0 then Some(Bits(0, 0)) else NextBits(ReadBits(s[..|s| - 1]), s[|s| - 1])
  }

  function ByteAt(packed: nat, shift: nat): Byte
    requires shift > 0
  {
    packed / shift % 256
  }

  function Unpacked(b: Bits): (data: seq<Byte>)
    ensures |data| <= 3
  {
    [ByteAt(b.packed, 0x1_0000)] + (if b.padding != 2 then [ByteAt(b.packed, 0x100)] else []) +
    (if b.padding == 0 then [ByteAt(b.packed, 1)] else [])
  }

  /** The bytes, or none for a text that is not an encoding. Padding is for the last group only. */
  function Decode64(s: string): (d: Option<seq<Byte>>)
    ensures d.Some? ==> |d.value| <= |s| * 3 / 4
    decreases |s|
  {
    if |s| == 0 then Some([])
    else if |s| < 4 then None
    else
      var b := ReadBits(s[..4]);
      if b.None? || (b.value.padding > 0 && |s| > 4) || b.value.padding > 2 then None
      else
        var rest := Decode64(s[4..]);
        if rest.None? then None else Some(Unpacked(b.value) + rest.value)
  }

  lemma FourBits(a: char, b: char, c: char, d: char)
    ensures ReadBits([a, b, c, d]) == NextBits(NextBits(NextBits(NextBits(Some(Bits(0, 0)), a), b), c), d)
  {
    assert [a, b, c, d][..3] == [a, b, c] && [a, b, c][..2] == [a, b] && [a, b][..1] == [a] && [a][..0] == [];
    hide NextBits;
    assert ReadBits([]) == Some(Bits(0, 0));
    assert ReadBits([a]) == NextBits(ReadBits([]), a);
    assert ReadBits([a, b]) == NextBits(ReadBits([a]), b);
    assert ReadBits([a, b, c]) == NextBits(ReadBits([a, b]), c);
  }

  lemma Digits24(p: nat)
    ensures p == ((p / 0x4_0000 * 64 + p / 0x1000 % 64) * 64 + p / 64 % 64) * 64 + p % 64
  {
    var q, r := p / 64, p / 64 / 64;
    assert p / 0x1000 == r && p / 0x4_0000 == r / 64;
    assert p == q * 64 + p % 64 && q == r * 64 + q % 64 && r == r / 64 * 64 + r % 64;
  }

  lemma TrailingZeros(a: nat, b: nat)
    ensures Number(a, 0, 0) / 64 % 64 == 0 && Number(a, 0, 0) % 64 == 0 && Number(a, b, 0) % 64 == 0
  {
    var p, q, r := a * 1024, a * 16, a * 1024 + b * 4;
    assert Number(a, 0, 0) == p * 64 && p == q * 64 && Number(a, b, 0) == r * 64;
    hide Number;
    TimesSixtyFour(p);
    TimesSixtyFour(q);
    TimesSixtyFour(r);
  }

  lemma TimesSixtyFour(n: int)
    ensures n * 64 % 64 == 0 && n * 64 / 64 == n
  {}

  lemma Bytes24(a: Byte, b: Byte, c: Byte)
    ensures var p := Number(a, b, c);
            ByteAt(p, 0x1_0000) == a && ByteAt(p, 0x100) == b && ByteAt(p, 1) == c
  {}

  /** Four characters, the last `padding` of them "=", give their digits back. */
  lemma DigitsBits(d0: nat, d1: nat, d2: nat, d3: nat, padding: nat)
    requires d0 < 64 && d1 < 64 && d2 < 64 && d3 < 64 && padding <= 2 && (padding > 0 ==> d3 == 0) && (padding > 1 ==> d2 == 0)
    ensures ReadBits([Digit64(d0), Digit64(d1), if padding > 1 then '=' else Digit64(d2), if padding > 0 then '=' else Digit64(d3)]) ==
            Some(Bits(((d0 * 64 + d1) * 64 + d2) * 64 + d3, padding))
  {
    hide ReadBits, Digit64, Value64;
    FourBits(Digit64(d0), Digit64(d1), if padding > 1 then '=' else Digit64(d2), if padding > 0 then '=' else Digit64(d3));
  }

  lemma GroupBits(data: seq<Byte>)
    requires 1 <= |data| <= 3
    ensures ReadBits(Group(data)) == Some(Bits(Packed(data), 3 - |data|))
  {
    var p := Packed(data);
    Digits24(p);
    TrailingZeros(data[0], if |data| > 1 then data[1] else 0);
    hide ReadBits, Digit64, Value64, Number;
    DigitsBits(p / 0x4_0000, p / 0x1000 % 64, p / 64 % 64, p % 64, 3 - |data|);
  }

  lemma UnpackedGroup(data: seq<Byte>)
    requires 1 <= |data| <= 3
    ensures Unpacked(Bits(Packed(data), 3 - |data|)) == data
  {
    hide Number, ByteAt;
    Bytes24(data[0], if |data| > 1 then data[1] else 0, if |data| > 2 then data[2] else 0);
  }

  lemma {:induction false} Base64RoundTrip(data: seq<Byte>)
    ensures Decode64(Encode64(data)) == Some(data)
    decreases |data|
  {
    hide Group, ReadBits, Unpacked, Packed;
    if |data| == 0 {
    } else if |data| < 3 {
      GroupBits(data);
      UnpackedGroup(data);
      var s := Group(data);
      assert s[..4] == s && s[4..] == "";
      assert Decode64(s[4..]) == Some([]) && data + [] == data;
    } else {
      var first, rest := data[..3], data[3..];
      GroupBits(first);
      UnpackedGroup(first);
      Base64RoundTrip(rest);
      var s := Encode64(data);
      assert s[..4] == Group(first) && s[4..] == Encode64(rest);
      assert first + rest == data;
    }
  }

  lemma {:induction false} Encode64Length(data: seq<Byte>)
    ensures |Encode64(data)| == 4 * ((|data| + 2) / 3)
    decreases |data|
  {
    hide Group;
    if |data| >= 3 {
      Encode64Length(data[3..]);
      assert (|data| + 2) / 3 == 1 + (|data| - 3 + 2) / 3;
    }
  }

  /** The loops of the encoder: three bytes, or what is left of them, at a time. */
  method Base64Encode(data: seq<Byte>) returns (ret: string)
    ensures ret == Encode64(data) && |ret| == 4 * ((|data| + 2) / 3)
  {
    hide Digit64;
    ret := "";
    var ptr := 0;
    assert data[0..] == data;
    while ptr < |data|
      invariant 0 <= ptr <= |data| && ret + Encode64(data[ptr..]) == Encode64(data)
    {
      ghost var rest := data[ptr..];
      ghost var group := if |rest| < 3 then rest else rest[..3];
      ghost var start := ptr;
      var packed: nat, i := 0, 0;
      while i < 3 && ptr < |data|
        invariant 0 <= i <= |group| && ptr == start + i && packed == Shifted(group, i)
        decreases 3 - i
      {
        packed := packed * 0x100 + data[ptr];
        i := i + 1;
        ptr := ptr + 1;
      }
      var padding := if i == 2 then 1 else if i == 1 then 2 else 0;
      while i < 3
        invariant |group| <= i <= 3 && packed == Filled(group, i)
      {
        packed := packed * 0x100;
        i := i + 1;
      }
      ShiftedIsPacked(group);
      var four := [Digit64(packed / 0x4_0000), Digit64(packed / 0x1000 % 64)];
      if padding != 2 {
        four := four + [Digit64(packed / 64 % 64)];
      }
      if padding == 0 {
        four := four + [Digit64(packed % 64)];
      }
      four := four + (if padding == 2 then "==" else if padding == 1 then "=" else "");
      assert four == Group(group);
      EncodeNext(rest, ret);
      assert data[ptr..] == rest[|group|..];
      ret := ret + four;
    }
    assert data[|data|..] == [];
    Encode64Length(data);
  }

  function Shifted(g: seq<Byte>, i: nat): nat
    requires i <= |g| <= 3
  {
    if i == 0 then 0 else if i == 1 then g[0] as nat else if i == 2 then g[0] as nat * 0x100 + g[1]
    else (g[0] as nat * 0x100 + g[1]) * 0x100 + g[2]
  }

  function Filled(g: seq<Byte>, i: nat): nat
    requires |g| <= i <= 3
  {
    if i == |g| then Shifted(g, i)
    else if i == |g| + 1 then Shifted(g, |g|) * 0x100
    else if i == |g| + 2 then Shifted(g, |g|) * 0x1_0000
    else Shifted(g, |g|) * 0x100_0000
  }

  lemma ShiftedIsPacked(g: seq<Byte>)
    requires 1 <= |g| <= 3
    ensures Filled(g, 3) == Packed(g)
  {}

  lemma EncodeNext(rest: seq<Byte>, ret: string)
    requires |rest| > 0
    ensures var group := if |rest| < 3 then rest else rest[..3];
            ret + Encode64(rest) == ret + Group(group) + Encode64(rest[|group|..])
  {}

  function Prepend(out: seq<Byte>, d: Option<seq<Byte>>): Option<seq<Byte>> {
    if d.None? then None else Some(out + d.value)
  }

  /** The inner loop of the decoder: the next four characters, if there are so many. */
  method ReadFour(src: string, from: nat) returns (ok: bool, i: nat, packed: nat, padding: nat)
    requires from < |src|
    ensures !ok ==> Decode64(src[from..]).None?
    ensures ok ==> i <= 4 && i <= |src| - from && (i < 4 ==> i == |src| - from)
    ensures ok ==> ReadBits(src[from..][..i]) == Some(Bits(packed, padding))
  {
    hide Value64, Unpacked;
    ghost var rest := src[from..];
    i, packed, padding := 0, 0, 0;
    var ptr := from;
    while i < 4 && ptr < |src|
      invariant i <= 4 && i <= |rest| && ptr == from + i && ReadBits(rest[..i]) == Some(Bits(packed, padding))
      decreases 4 - i
    {
      assert rest[..i + 1][..i] == rest[..i] && rest[i] == src[ptr];
      if src[ptr] == '=' {
        padding := padding + 1;
        packed := packed * 64;
        i := i + 1;
        ptr := ptr + 1;
        continue;
      }
      if padding > 0 || Value64(src[ptr]).None? {
        if |rest| >= 4 {
          BitsFail(rest, i + 1);
        }
        ok := false;
        return;
      }
      packed := packed * 64 + Value64(src[ptr]).value;
      i := i + 1;
      ptr := ptr + 1;
    }
    ok := true;
  }

  /** The bytes of a group, as many as are not padding. */
  method WriteBytes(result: array<Byte>, from: nat, packed: nat, padding: nat) returns (w: nat)
    requires from + 3 <= result.Length
    modifies result
    ensures w == from + |Unpacked(Bits(packed, padding))|
    ensures result[..w] == old(result[..from]) + Unpacked(Bits(packed, padding))
  {
    hide ByteAt;
    w := from;
    result[w] := ByteAt(packed, 0x1_0000);
    w := w + 1;
    if padding != 2 {
      result[w] := ByteAt(packed, 0x100);
      w := w + 1;
    }
    if padding == 0 {
      result[w] := ByteAt(packed, 1);
      w := w + 1;
    }
  }

  /** The outer loop of the decoder, which writes into a buffer of three quarters of the text. */
  method Base64Decode(src: string) returns (out: seq<Byte>)
    ensures out == if Decode64(src).Some? then Decode64(src).value else []
  {
    hide Unpacked, ReadBits;
    var result := new Byte[|src| * 3 / 4];
    var ptr, w := 0, 0;
    assert src[0..] == src && result[..0] == [];
    PrependNothing(Decode64(src));
    while ptr < |src|
      invariant 0 <= ptr <= |src| && 0 <= w && 4 * w <= 3 * ptr && ptr % 4 == 0
      invariant Decode64(src) == Prepend(result[..w], Decode64(src[ptr..]))
    {
      ghost var rest, before := src[ptr..], result[..w];
      var ok, i, packed, padding := ReadFour(src, ptr);
      if !ok {
        return [];
      }
      if i != 4 {
        return [];
      }
      ptr := ptr + i;
      if padding > 0 && ptr != |src| {
        return [];
      }
      if padding > 2 {
        return [];
      }
      DecodeNext(before, rest);
      assert rest[4..] == src[ptr..];
      w := WriteBytes(result, w, packed, padding);
    }
    assert src[|src|..] == "";
    out := result[..w];
  }

  lemma PrependNothing(d: Option<seq<Byte>>)
    ensures Prepend([], d) == d
  {
    if d.Some? {
      assert [] + d.value == d.value;
    }
  }

  lemma {:induction false} BitsFail(s: string, i: nat)
    requires 0 < i <= 4 <= |s| && ReadBits(s[..i]).None?
    ensures Decode64(s).None?
    decreases 4 - i
  {
    if i < 4 {
      assert s[..i + 1][..i] == s[..i];
      BitsFail(s, i + 1);
    }
  }

  lemma DecodeNext(out: seq<Byte>, s: string)
    requires |s| >= 4 && ReadBits(s[..4]).Some?
    requires var b := ReadBits(s[..4]).value; !(b.padding > 0 && |s| > 4) && b.padding <= 2
    ensures Prepend(out, Decode64(s)) == Prepend(out + Unpacked(ReadBits(s[..4]).value), Decode64(s[4..]))
  {
    hide ReadBits, Unpacked;
    var rest := Decode64(s[4..]);
    if rest.Some? {
      var u := Unpacked(ReadBits(s[..4]).value);
      assert out + (u + rest.value) == out + u + rest.value;
    }
  }

  // ---------------------------------------------------------------- hexadecimal

  predicate IsHexText(s: string) {
    |s| % 2 == 0 && forall i :: 0 <= i < |s| ==> IsHex(s[i])
  }

  /** Two lower-case digits a byte. */
  predicate IsHexOf(s: string, data: seq<Byte>) {
    |s| == 2 * |data| && forall i :: 0 <= i < |data| ==> s[2 * i] == DigitChar(data[i] / 16) && s[2 * i + 1] == DigitChar(data[i] % 16)
  }

  /** The bytes for which the pairs of digits, in either case, stand. */
  predicate IsDataOf(data: seq<Byte>, s: string)
    requires IsHexText(s)
  {
    |s| == 2 * |data| && forall i :: 0 <= i < |data| ==> data[i] == HexValue(s[2 * i]) * 16 + HexValue(s[2 * i + 1])
  }

  method HexFromData(data: seq<Byte>) returns (s: string)
    ensures IsHexOf(s, data)
  {
    hide DigitChar;
    if |data| == 0 {
      return "";
    }
    var output := new char[|data| * 2];
    var j := 0;
    for i := 0 to |data|
      invariant j == 2 * i
      invariant forall k :: 0 <= k < i ==> output[2 * k] == DigitChar(data[k] / 16) && output[2 * k + 1] == DigitChar(data[k] % 16)
    {
      output[j] := DigitChar(data[i] / 16);
      j := j + 1;
      output[j] := DigitChar(data[i] % 16);
      j := j + 1;
    }
    s := output[..];
  }

  /** Fails on an odd length and on a character that is not a digit. */
  method DataFromHex(s: string) returns (r: Option<seq<Byte>>)
    ensures r.Some? <==> IsHexText(s)
    ensures r.Some? ==> IsDataOf(r.value, s)
  {
    hide HexValue, IsHex;
    if |s| % 2 != 0 {
      return None;
    }
    var buf: seq<Byte> := [];
    var i := 0;
    while i < |s|
      invariant 0 <= i <= |s| && i == 2 * |buf| && forall k :: 0 <= k < i ==> IsHex(s[k])
      invariant forall k :: 0 <= k < |buf| ==> buf[k] == HexValue(s[2 * k]) * 16 + HexValue(s[2 * k + 1])
    {
      if !IsHex(s[i]) {
        return None;
      }
      var byte := HexValue(s[i]) * 16;
      i := i + 1;
      if !IsHex(s[i]) {
        return None;
      }
      byte := byte + HexValue(s[i]);
      buf := buf + [byte];
      i := i + 1;
    }
    return Some(buf);
  }

  /** Whatever the encoder writes for `data` decodes to `data` and to nothing else. */
  lemma HexRoundTrip(data: seq<Byte>, s: string, back: seq<Byte>)
    requires IsHexOf(s, data)
    ensures IsHexText(s) && (IsDataOf(back, s) <==> back == data)
  {
    forall i | 0 <= i < |s| ensures IsHex(s[i]) {
      var k := i / 2;
      assert s[2 * k] == DigitChar(data[k] / 16) && s[2 * k + 1] == DigitChar(data[k] % 16);
    }
    hide DigitChar, HexValue, IsHex;
    forall i | 0 <= i < |data| ensures HexValue(s[2 * i]) * 16 + HexValue(s[2 * i + 1]) == data[i] {}
  }
}
