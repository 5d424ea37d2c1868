/** Percent-encoding (section 2.1 of RFC 3986). A string is a sequence of bytes, each a character below 256.
    The table of the source keeps "=" besides the unreserved characters. */
module PercentEncoding {
  import opened HttpSyntax
  import opened Wrappers

  predicate IsKept(c: char) {
    IsAlphaNum(c) || c == '-' || c == '.' || c == '_' || c == '~' || c == '='
  }

  predicate IsByte(c: char) {
    c as int < 256
  }

  function UpperHex(d: nat): (c: char)
    requires d < 16
    ensures IsHex(c) && HexValue(c) == d
  {
    if d < 10 then ('0' as int + d) as char else ('A' as int + d - 10) as char
  }

  function EncodeByte(c: char, spaceAsPlus: bool): (s: string)
    requires IsByte(c)
    ensures |s| == 1 || |s| == 3
  {
    if IsKept(c) then [c]
    else if c == ' ' && spaceAsPlus then "+"
    else ['%', UpperHex(c as int / 16), UpperHex(c as int % 16)]
  }

  /** Each byte by itself. */
  function Encoded(s: string, spaceAsPlus: bool): string
    requires forall i :: 0 <= i < |s| ==> IsByte(s[i])
    decreases |s|
  {
    if |s| == 0 then "" else EncodeByte(s[0], spaceAsPlus) + Encoded(s[1..], spaceAsPlus)
  }

  predicate IsEscape(s: string) {
    |s| > 2 && s[0] == '%' && IsHex(s[1]) && IsHex(s[2])
  }

  function Decoded(s: string, spaceAsPlus: bool): string
    decreases |s|
  {
    if |s| == 0 then ""
    else if s[0] == '+' && spaceAsPlus then " " + Decoded(s[1..], spaceAsPlus)
    else if IsEscape(s) then [(HexValue(s[1]) * 16 + HexValue(s[2])) as char] + Decoded(s[3..], spaceAsPlus)
    else [s[0]] + Decoded(s[1..], spaceAsPlus)
  }

  lemma DecodeOne(c: char, spaceAsPlus: bool, rest: string)
    requires IsByte(c)
    ensures Decoded(EncodeByte(c, spaceAsPlus) + rest, spaceAsPlus) == [c] + Decoded(rest, spaceAsPlus)
  {
    var e := EncodeByte(c, spaceAsPlus);
    var s := e + rest;
    assert s[|e|..] == rest;
    hide UpperHex, HexValue, IsHex;
    if IsKept(c) {
      assert c != '+' && c != '%';
    }
  }

  /** Decoding undoes encoding, for every byte string and either treatment of the space. */
  lemma {:induction false} PercentRoundTrip(s: string, spaceAsPlus: bool)
    requires forall i :: 0 <= i < |s| ==> IsByte(s[i])
    ensures Decoded(Encoded(s, spaceAsPlus), spaceAsPlus) == s
    decreases |s|
  {
    hide EncodeByte, Decoded;
    if |s| > 0 {
      DecodeOne(s[0], spaceAsPlus, Encoded(s[1..], spaceAsPlus));
      PercentRoundTrip(s[1..], spaceAsPlus);
    } else {
      NothingDecoded(spaceAsPlus);
    }
  }

  lemma NothingDecoded(spaceAsPlus: bool)
    ensures Decoded("", spaceAsPlus) == ""
  {}

  lemma {:induction false} EncodedSnoc(s: string, c: char, spaceAsPlus: bool)
    requires IsByte(c) && forall i :: 0 <= i < |s| ==> IsByte(s[i])
    ensures Encoded(s + [c], spaceAsPlus) == Encoded(s, spaceAsPlus) + EncodeByte(c, spaceAsPlus)
    decreases |s|
  {
    hide EncodeByte;
    if |s| == 0 {
      assert s + [c] == [c] && [c][1..] == "";
    } else {
      assert (s + [c])[1..] == s[1..] + [c];
      EncodedSnoc(s[1..], c, spaceAsPlus);
    }
  }

  /** What the loops have produced: the input itself as long as no string had to be made. */
  function Made(ss: Option<string>, done: string): string {
    if ss.None? then done else ss.value
  }

  /** The string is made at the first byte that has to be changed; the result is that of encoding each byte. */
  method UrlEncode(str: string, spaceAsPlus: bool) returns (r: string)
    requires forall i :: 0 <= i < |str| ==> IsByte(str[i])
    ensures r == Encoded(str, spaceAsPlus)
  {
    hide UpperHex;
    var ss: Option<string> := None;
    for c := 0 to |str|
      invariant Made(ss, str[..c]) == Encoded(str[..c], spaceAsPlus)
    {
      EncodedSnoc(str[..c], str[c], spaceAsPlus);
      assert str[..c + 1] == str[..c] + [str[c]];
      if !IsKept(str[c]) {
        if ss.None? {
          ss := Some(str[..c]);
        }
        if str[c] == ' ' && spaceAsPlus {
          ss := Some(ss.value + "+");
        } else {
          ss := Some(ss.value + ['%', UpperHex(str[c] as int / 16), UpperHex(str[c] as int % 16)]);
        }
      } else if ss.Some? {
        ss := Some(ss.value + [str[c]]);
      }
    }
    assert str[..|str|] == str;
    r := if ss.None? then str else ss.value;
  }

  /** What is decoded first, and how much of the text that takes. */
  function Head(s: string, spaceAsPlus: bool): (string, nat)
    requires |s| > 0
  {
    if s[0] == '+' && spaceAsPlus then (" ", 1)
    else if IsEscape(s) then ([(HexValue(s[1]) * 16 + HexValue(s[2])) as char], 3)
    else ([s[0]], 1)
  }

  lemma DecodedNext(made: string, s: string, spaceAsPlus: bool)
    requires |s| > 0
    ensures var (x, n) := Head(s, spaceAsPlus); n <= |s| && made + Decoded(s, spaceAsPlus) == made + x + Decoded(s[n..], spaceAsPlus)
  {}

  method UrlDecode(str: string, spaceAsPlus: bool) returns (r: string)
    ensures r == Decoded(str, spaceAsPlus)
  {
    hide IsHex, HexValue, Decoded;
    var ss: Option<string> := None;
    var c := 0;
    assert str[..0] == "" && str[0..] == str;
    while c < |str|
      invariant 0 <= c <= |str| && Made(ss, str[..c]) + Decoded(str[c..], spaceAsPlus) == Decoded(str, spaceAsPlus)
    {
      ghost var rest, made := str[c..], Made(ss, str[..c]);
      DecodedNext(made, rest, spaceAsPlus);
      assert rest[1..] == str[c + 1..];
      if str[c] == '+' && spaceAsPlus {
        if ss.None? {
          ss := Some(str[..c]);
        }
        ss := Some(ss.value + " ");
      } else if str[c] == '%' && c + 2 < |str| && IsHex(str[c + 1]) && IsHex(str[c + 2]) {
        if ss.None? {
          ss := Some(str[..c]);
        }
        assert rest[3..] == str[c + 3..];
        ss := Some(ss.value + [(HexValue(str[c + 1]) * 16 + HexValue(str[c + 2])) as char]);
        c := c + 2;
      } else if ss.Some? {
        ss := Some(ss.value + [str[c]]);
      } else {
        assert str[..c + 1] == str[..c] + [str[c]];
      }
      c := c + 1;
    }
    assert str[|str|..] == "" && str[..|str|] == str;
    NothingDecoded(spaceAsPlus);
    r := if ss.None? then str else ss.value;
  }
}
