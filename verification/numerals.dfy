/** Numbers written in base 10 or 16, and the numbers that digits stand for. */
module Numerals {
  import opened HttpSyntax

  function DigitChar(d: nat): (c: char)
    requires d < 16
    ensures IsHex(c) && HexValue(c) == d
    ensures d < 10 ==> IsNum(c) && DigitValue(c) == d
  {
    if d < 10 then ('0' as int + d) as char else ('a' as int + d - 10) as char
  }

  /** `n` written in base 10 or 16, most significant digit first. */
  function Numeral(b: nat, n: nat): (s: string)
    requires b == 10 || b == 16
    ensures |s| > 0 && (forall i :: 0 <= i < |s| ==> IsHex(s[i]))
    ensures b <= 10 ==> forall i :: 0 <= i < |s| ==> IsNum(s[i])
    decreases n
  {
    if n < b then [DigitChar(n)] else Numeral(b, n / b) + [DigitChar(n % b)]
  }

  /** The number the digits `s` continue, `acc` being the value so far. */
  function DigitsValue(b: nat, acc: nat, s: string): nat
    requires forall i :: 0 <= i < |s| ==> IsHex(s[i])
    decreases |s|
  {
    if |s| == 0 then acc else DigitsValue(b, acc * b + HexValue(s[0]), s[1..])
  }

  lemma {:induction false} DigitsValueGrows(b: nat, acc: nat, s: string)
    requires b >= 1 && forall i :: 0 <= i < |s| ==> IsHex(s[i])
    ensures acc <= DigitsValue(b, acc, s)
    decreases |s|
  {
    if |s| > 0 {
      var next := acc * b + HexValue(s[0]);
      assert acc <= acc * b;
      DigitsValueGrows(b, next, s[1..]);
    }
  }

  lemma {:induction false} DigitsValueSnoc(b: nat, acc: nat, s: string, ch: char)
    requires IsHex(ch) && forall i :: 0 <= i < |s| ==> IsHex(s[i])
    ensures DigitsValue(b, acc, s + [ch]) == DigitsValue(b, acc, s) * b + HexValue(ch)
    decreases |s|
  {
    hide HexValue;
    assert [ch][1..] == "";
    if |s| == 0 {
      assert s + [ch] == [ch];
      assert DigitsValue(b, acc, [ch]) == DigitsValue(b, acc * b + HexValue(ch), "");
    } else {
      assert (s + [ch])[1..] == s[1..] + [ch];
      DigitsValueSnoc(b, acc * b + HexValue(s[0]), s[1..], ch);
    }
  }

  /** A numeral stands for the number that was written. */
  lemma {:induction false} NumeralValue(b: nat, n: nat)
    requires b == 10 || b == 16
    ensures DigitsValue(b, 0, Numeral(b, n)) == n
    decreases n
  {
    if n < b {
      assert Numeral(b, n)[1..] == "";
    } else {
      NumeralValue(b, n / b);
      DigitsValueSnoc(b, 0, Numeral(b, n / b), DigitChar(n % b));
    }
  }
}
