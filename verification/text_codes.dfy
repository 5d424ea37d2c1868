/** What the text encodings write and accept, character by character. */
module TextCodes {
  import opened HttpSyntax
  import opened Numerals
  import opened ByteBlocks
  import opened BaseEncodings
  import opened PercentEncoding
  import opened Wrappers

  // ---------------------------------------------------------------- base64

  /** The 64 digits: "A" to "Z", "a" to "z", "0" to "9", "+" and "/", in this order. */
  lemma SixtyFourDigits(v: nat)
    requires v < 63
    ensures Digit64(0) == 'A' && Digit64(26) == 'a' && Digit64(52) == '0' && Digit64(62) == '+' && Digit64(63) == '/'
    ensures v != 25 && v != 51 && v < 61 ==> Digit64(v + 1) as int == Digit64(v) as int + 1
  {}

  /** The character codes that are digits. */
  lemma OnlyTheseAreDigits(c: char)
    ensures var n := c as int;
            Value64(c).Some? <==> 65 <= n <= 90 || 97 <= n <= 122 || 48 <= n <= 57 || n == 43 || n == 47
    ensures Value64(c).Some? ==> Digit64(Value64(c).value) == c
  {}

  /** The byte at `i`, or zero behind the end. */
  function Padded(data: seq<Byte>, i: nat): Byte {
    if i < |data| then data[i] else 0
  }

  /** The 24 bits of up to three bytes, six at a time, with "=" for those that stand for no byte. */
  function FourOf(data: seq<Byte>): string
    requires 1 <= |data| <= 3
  {
    var a, b, c := data[0], Padded(data, 1), Padded(data, 2);
    [Digit64(a / 4), Digit64(a % 4 * 16 + b / 16), if |data| > 1 then Digit64(b % 16 * 4 + c / 64) else '=',
     if |data| > 2 then Digit64(c % 64) else '=']
  }

  lemma GroupAt(data: seq<Byte>)
    requires 1 <= |data| <= 3
    ensures Group(data) == FourOf(data)
  {
    hide Digit64;
    SixBits(data[0], Padded(data, 1), Padded(data, 2));
  }

  lemma SixBits(a: Byte, b: Byte, c: Byte)
    ensures var p := BaseEncodings.Number(a, b, c);
            p / 0x4_0000 == a / 4 && p / 0x1000 % 64 == a % 4 * 16 + b / 16 && p / 64 % 64 == b % 16 * 4 + c / 64 && p % 64 == c % 64
  {
    var p := BaseEncodings.Number(a, b, c);
    assert p == (((a / 4) * 64 + (a % 4 * 16 + b / 16)) * 64 + (b % 16 * 4 + c / 64)) * 64 + c % 64;
    hide BaseEncodings.Number;
    FourDigits(a / 4, a % 4 * 16 + b / 16, b % 16 * 4 + c / 64, c % 64, p);
  }

  lemma FourDigits(x: nat, y: nat, z: nat, w: nat, p: nat)
    requires x < 64 && y < 64 && z < 64 && w < 64 && p == ((x * 64 + y) * 64 + z) * 64 + w
    ensures p / 0x4_0000 == x && p / 0x1000 % 64 == y && p / 64 % 64 == z && p % 64 == w
  {
    var q, r := (x * 64 + y) * 64 + z, x * 64 + y;
    assert p / 64 == q && q / 64 == r && r / 64 == x;
    assert p / 0x1000 == p / 64 / 64 && p / 0x4_0000 == p / 64 / 64 / 64;
  }

  /** Characters 4i to 4i+3 of an encoding are those of bytes 3i to 3i+2. */
  lemma {:induction false} Base64At(data: seq<Byte>, i: nat)
    requires 3 * i < |data|
    ensures var s := Encode64(data);
            4 * i + 4 <= |s| && s[4 * i..4 * i + 4] == FourOf(data[3 * i..if 3 * i + 3 <= |data| then 3 * i + 3 else |data|])
    decreases i
  {
    hide FourOf, Group;
    if |data| < 3 {
      GroupAt(data);
      assert data[0..|data|] == data && Group(data)[0..4] == Group(data);
    } else {
      GroupAt(data[..3]);
      var rest := data[3..];
      assert Encode64(data)[0..4] == Group(data[..3]) && data[0..3] == data[..3];
      if i > 0 {
        Base64At(rest, i - 1);
        LaterGroup(Group(data[..3]), Encode64(rest), 4 * (i - 1));
        var end := if 3 * i + 3 <= |data| then 3 * i + 3 else |data|;
        assert data[3 * i..end] == rest[3 * (i - 1)..end - 3];
      }
    }
  }

  lemma LaterGroup(a: string, b: string, k: nat)
    requires |a| == 4 && k + 4 <= |b|
    ensures (a + b)[k + 4..k + 8] == b[k..k + 4]
  {}

  // ---------------------------------------------------------------- what is decoded

  /** A group of four characters that stands for bytes: four digits, or three or two and then "=". */
  predicate IsGroup(s: string) {
    && |s| == 4 && Value64(s[0]).Some? && Value64(s[1]).Some?
    && (if s[2] == '=' then s[3] == '=' else Value64(s[2]).Some? && (s[3] == '=' || Value64(s[3]).Some?))
  }

  function DigitOr0(c: char): nat {
    if Value64(c).Some? then Value64(c).value else 0
  }

  /** The bytes of which a group has the bits. */
  function GroupBytes(s: string): seq<Byte>
    requires IsGroup(s)
  {
    var v0, v1, v2, v3 := DigitOr0(s[0]), DigitOr0(s[1]), DigitOr0(s[2]), DigitOr0(s[3]);
    [v0 * 4 + v1 / 16] + (if s[2] == '=' then [] else [v1 % 16 * 16 + v2 / 4]) + (if s[3] == '=' then [] else [v2 % 4 * 64 + v3])
  }

  lemma EqualsIsNoDigit()
    ensures Value64('=').None?
  {}

  lemma ReadGroup(s: string)
    requires |s| == 4
    ensures var b := ReadBits(s);
            && (b.Some? && b.value.padding <= 2 <==> IsGroup(s))
            && (IsGroup(s) ==>
                  b.value == Bits(((DigitOr0(s[0]) * 64 + DigitOr0(s[1])) * 64 + DigitOr0(s[2])) * 64 + DigitOr0(s[3]),
                                  if s[2] == '=' then 2 else if s[3] == '=' then 1 else 0))
  {
    assert s == [s[0], s[1], s[2], s[3]];
    FourBits(s[0], s[1], s[2], s[3]);
    EqualsIsNoDigit();
    hide ReadBits, Value64;
  }

  lemma EightBits(x: nat, y: nat, z: nat, w: nat)
    requires x < 64 && y < 64 && z < 64 && w < 64
    ensures var p := ((x * 64 + y) * 64 + z) * 64 + w;
            ByteAt(p, 0x1_0000) == x * 4 + y / 16 && ByteAt(p, 0x100) == y % 16 * 16 + z / 4 && ByteAt(p, 1) == z % 4 * 64 + w
  {
    var p := ((x * 64 + y) * 64 + z) * 64 + w;
    var a, b, c := x * 4 + y / 16, y % 16 * 16 + z / 4, z % 4 * 64 + w;
    assert p == BaseEncodings.Number(a, b, c);
    Bytes24(a, b, c);
  }

  lemma UnpackedIs(s: string)
    requires IsGroup(s)
    ensures ReadBits(s).Some? && Unpacked(ReadBits(s).value) == GroupBytes(s)
  {
    ReadGroup(s);
    hide ReadBits, Value64, ByteAt;
    EightBits(DigitOr0(s[0]), DigitOr0(s[1]), DigitOr0(s[2]), DigitOr0(s[3]));
  }

  /** The text is digits but for its last `k` characters, which are "=". */
  predicate PaddedBy(s: string, k: nat) {
    && k <= |s| && (forall i :: 0 <= i < |s| - k ==> Value64(s[i]).Some?)
    && (forall i :: |s| - k <= i < |s| ==> s[i] == '=')
  }

  /** Whole groups of digits, of which the last one may end in one or two "=". */
  predicate IsBase64(s: string) {
    |s| % 4 == 0 && (PaddedBy(s, 0) || PaddedBy(s, 1) || PaddedBy(s, 2))
  }

  lemma OneGroup(s: string)
    requires |s| == 4
    ensures IsBase64(s) <==> IsGroup(s)
  {
    EqualsIsNoDigit();
    hide Value64;
  }

  lemma GroupAndMore(s: string)
    requires |s| > 4
    ensures IsBase64(s) <==> IsGroup(s[..4]) && s[3] != '=' && IsBase64(s[4..])
  {
    EqualsIsNoDigit();
    hide Value64;
    var rest := s[4..];
    if |s| % 4 == 0 {
      AfterGroup(s, 0);
      AfterGroup(s, 1);
      AfterGroup(s, 2);
    }
  }

  lemma AfterGroup(s: string, k: nat)
    requires |s| >= 8 && k <= 2
    ensures PaddedBy(s, k) <==> (forall i :: 0 <= i < 4 ==> Value64(s[i]).Some?) && PaddedBy(s[4..], k)
  {
    hide Value64;
    var rest := s[4..];
    if PaddedBy(rest, k) && forall i :: 0 <= i < 4 ==> Value64(s[i]).Some? {
      forall i | 0 <= i < |s| - k ensures Value64(s[i]).Some? {
        if i >= 4 {
          assert rest[i - 4] == s[i];
        }
      }
      forall i | |s| - k <= i < |s| ensures s[i] == '=' {
        assert rest[i - 4] == s[i];
      }
    }
  }

  /** Exactly these texts are decoded, group by group. */
  lemma {:induction false} Base64Exactly(s: string)
    ensures Decode64(s).Some? <==> IsBase64(s)
    ensures |s| >= 4 && Decode64(s).Some? ==>
              IsGroup(s[..4]) && Decode64(s[4..]).Some? && Decode64(s).value == GroupBytes(s[..4]) + Decode64(s[4..]).value
    decreases |s|
  {
    hide Value64, ReadBits, Unpacked, IsBase64, IsGroup;
    if |s| < 4 {
      ShortText(s);
    } else {
      Base64Exactly(s[4..]);
      var first := s[..4];
      ReadGroup(first);
      if IsGroup(first) {
        UnpackedIs(first);
      }
      if |s| == 4 {
        assert first == s;
        OneGroup(s);
        ShortText(s[4..]);
      } else {
        GroupAndMore(s);
        if IsGroup(first) {
          PaddingOf(first);
        }
      }
    }
  }

  lemma PaddingOf(s: string)
    requires IsGroup(s)
    ensures ReadBits(s).Some? && (ReadBits(s).value.padding > 0 <==> s[3] == '=')
  {
    ReadGroup(s);
    EqualsIsNoDigit();
    hide ReadBits, Value64;
  }

  lemma ShortText(s: string)
    requires |s| < 4
    ensures IsBase64(s) <==> |s| == 0
  {}

  // ---------------------------------------------------------------- hexadecimal digits

  /** The digits in both cases, by their codes, and their values. */
  lemma HexDigits(c: char)
    ensures var n := c as int; IsHex(c) <==> 48 <= n <= 57 || 65 <= n <= 70 || 97 <= n <= 102
    ensures IsHex(c) ==> var n := c as int; HexValue(c) == if n <= 57 then n - 48 else if n <= 70 then n - 55 else n - 87
  {}

  /** The encoder of hexadecimal writes lower-case digits, that of percent-encoding upper-case ones. */
  lemma HexWritten(v: nat)
    requires v < 16
    ensures DigitChar(v) as int == if v <= 9 then 48 + v else 87 + v
    ensures UpperHex(v) as int == if v <= 9 then 48 + v else 55 + v
  {}

  // ---------------------------------------------------------------- percent-encoding

  /** The characters that are kept: letters, digits, "-", ".", "_", "~" and "=". */
  lemma KeptCharacters(c: char)
    ensures var n := c as int;
            IsKept(c) <==> n == 45 || n == 46 || 48 <= n <= 57 || n == 61 || 65 <= n <= 90 || n == 95 || 97 <= n <= 122 || n == 126
  {}

  /** A byte is itself, "+", or "%" and its two digits. */
  lemma EncodedByte(c: char, rest: string, spaceAsPlus: bool)
    requires IsByte(c) && forall i :: 0 <= i < |rest| ==> IsByte(rest[i])
    ensures var more := Encoded(rest, spaceAsPlus);
            Encoded([c] + rest, spaceAsPlus) ==
            if IsKept(c) then [c] + more
            else if c as int == 32 && spaceAsPlus then "+" + more
            else "%" + [UpperHex(c as int / 16), UpperHex(c as int % 16)] + more
  {
    assert ([c] + rest)[1..] == rest;
    hide UpperHex, IsKept;
  }

  /** An encoding has only characters that are kept, "%", and "+" for spaces; it is the text itself exactly if all its
      characters are kept. */
  lemma {:induction false} EncodedText(s: string, spaceAsPlus: bool)
    requires forall i :: 0 <= i < |s| ==> IsByte(s[i])
    ensures var e := Encoded(s, spaceAsPlus);
            && (forall i :: 0 <= i < |e| ==> IsKept(e[i]) || e[i] == '%' || (e[i] == '+' && spaceAsPlus))
            && |e| >= |s| && (e == s <==> forall i :: 0 <= i < |s| ==> IsKept(s[i]))
    decreases |s|
  {
    if |s| > 0 {
      EncodedText(s[1..], spaceAsPlus);
      assert s == [s[0]] + s[1..];
      EncodedByte(s[0], s[1..], spaceAsPlus);
      hide Encoded, IsKept, UpperHex;
      HexIsKept(s[0] as int / 16);
      HexIsKept(s[0] as int % 16);
      OthersAreNotKept();
      if forall i :: 0 <= i < |s| ==> IsKept(s[i]) {
        assert IsKept(s[0]) && forall i :: 0 <= i < |s[1..]| ==> IsKept(s[1..][i]);
      } else if IsKept(s[0]) {
        assert exists i :: 0 <= i < |s[1..]| && !IsKept(s[1..][i]) by {
          var i :| 0 <= i < |s| && !IsKept(s[i]);
          assert s[1..][i - 1] == s[i];
        }
      }
    }
  }

  lemma HexIsKept(v: nat)
    requires v < 16
    ensures IsKept(UpperHex(v))
  {}

  lemma OthersAreNotKept()
    ensures !IsKept('%') && !IsKept('+') && !IsKept(' ')
  {}

  /** "%" and two digits of either case stand for a byte; "+" for a space if spaces are written so; anything else,
      an incomplete escape included, for itself. */
  lemma DecodedNextIs(s: string, spaceAsPlus: bool)
    requires |s| > 0
    ensures if |s| > 2 && s[0] as int == 37 && IsHex(s[1]) && IsHex(s[2])
            then Decoded(s, spaceAsPlus) == [(16 * HexValue(s[1]) + HexValue(s[2])) as char] + Decoded(s[3..], spaceAsPlus)
            else Decoded(s, spaceAsPlus) == [if s[0] as int == 43 && spaceAsPlus then ' ' else s[0]] + Decoded(s[1..], spaceAsPlus)
  {}
}
