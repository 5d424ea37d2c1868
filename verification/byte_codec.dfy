/** The encodings of the byte array: fixed-width integers in either byte order, base-128 varints, zigzag
    integers and strings with a length prefix. Words are numbers; shifts and masks are written as division
    and remainder, and conversions between word types wrap around. */
module ByteCodec {
  import opened ByteBlocks

  /** The number of values of a word of `w` bytes. */
  function Range(w: nat): (m: nat)
    ensures m > 0
  {
    if w == 0 then 1 else 256 * Range(w - 1)
  }

  /** `v` is a value of the signed word of `w` bytes. */
  predicate IsSigned(w: nat, v: int) {
    0 <= 2 * v + Range(w) && 2 * v < Range(w)
  }

  function ToUnsigned(w: nat, v: int): (u: nat)
    requires IsSigned(w, v)
    ensures u < Range(w)
  {
    if v < 0 then v + Range(w) else v
  }

  function ToSigned(w: nat, u: nat): (v: int)
    requires u < Range(w)
    ensures IsSigned(w, v)
  {
    if 2 * u < Range(w) then u else u - Range(w)
  }

  // ---------------------------------------------------------------- fixed width

  function LittleDigits(w: nat, v: nat): (s: seq<Byte>)
    ensures |s| == w
  {
    if w == 0 then [] else [v % 256] + LittleDigits(w - 1, v / 256)
  }

  function LittleValue(s: seq<Byte>): (v: nat)
    ensures v < Range(|s|)
    decreases |s|
  {
    if |s| == 0 then 0 else s[0] + 256 * LittleValue(s[1..])
  }

  function Reversed(s: seq<Byte>): (r: seq<Byte>)
    ensures |r| == |s|
    decreases |s|
  {
    if |s| == 0 then [] else Reversed(s[1..]) + [s[0]]
  }

  lemma {:induction false} ReversedSnoc(s: seq<Byte>, x: Byte)
    ensures Reversed(s + [x]) == [x] + Reversed(s)
    decreases |s|
  {
    if |s| == 0 {
      assert s + [x] == [x];
      assert [x][1..] == [];
    } else {
      assert (s + [x])[1..] == s[1..] + [x];
      ReversedSnoc(s[1..], x);
    }
  }

  lemma {:induction false} ReversedTwice(s: seq<Byte>)
    ensures Reversed(Reversed(s)) == s
    decreases |s|
  {
    if |s| > 0 {
      ReversedTwice(s[1..]);
      ReversedSnoc(Reversed(s[1..]), s[0]);
    }
  }

  lemma {:induction false} ValueOfDigits(w: nat, v: nat)
    requires v < Range(w)
    ensures LittleValue(LittleDigits(w, v)) == v
    decreases w
  {
    if w > 0 {
      ValueOfDigits(w - 1, v / 256);
    }
  }

  lemma {:induction false} DigitsOfValue(s: seq<Byte>)
    ensures LittleDigits(|s|, LittleValue(s)) == s
    decreases |s|
  {
    if |s| > 0 {
      DigitsOfValue(s[1..]);
    }
  }

  /** The bytes of a word as the host keeps it. */
  function InMemory(hostLittle: bool, w: nat, v: nat): (s: seq<Byte>)
    ensures |s| == w
  {
    if hostLittle then LittleDigits(w, v) else Reversed(LittleDigits(w, v))
  }

  function FromMemory(hostLittle: bool, s: seq<Byte>): (v: nat)
    ensures v < Range(|s|)
  {
    if hostLittle then LittleValue(s) else LittleValue(Reversed(s))
  }

  function ByteSwap(w: nat, v: nat): (r: nat)
    ensures r < Range(w)
  {
    LittleValue(Reversed(LittleDigits(w, v)))
  }

  /** The bytes of `v`, least significant first or last. */
  function Fixed(little: bool, w: nat, v: nat): (s: seq<Byte>)
    ensures |s| == w
  {
    InMemory(little, w, v)
  }

  function FixedValue(little: bool, s: seq<Byte>): (v: nat)
    ensures v < Range(|s|)
  {
    FromMemory(little, s)
  }

  /** Swapping when the orders differ makes the bytes independent of the host's own order. */
  lemma SwapMeetsOrder(hostLittle: bool, little: bool, w: nat, v: nat)
    requires v < Range(w)
    ensures InMemory(hostLittle, w, if little != hostLittle then ByteSwap(w, v) else v) == Fixed(little, w, v)
  {
    var s := LittleDigits(w, v);
    DigitsOfValue(Reversed(s));
    ReversedTwice(s);
  }

  lemma SwapMeetsOrderBack(hostLittle: bool, little: bool, s: seq<Byte>)
    ensures var v := FromMemory(hostLittle, s);
            (if little != hostLittle then ByteSwap(|s|, v) else v) == FixedValue(little, s)
  {
    DigitsOfValue(s);
    DigitsOfValue(Reversed(s));
    ReversedTwice(s);
  }

  lemma FixedRoundTrip(little: bool, w: nat, v: nat)
    requires v < Range(w)
    ensures FixedValue(little, Fixed(little, w, v)) == v
  {
    ValueOfDigits(w, v);
    ReversedTwice(LittleDigits(w, v));
  }

  // ---------------------------------------------------------------- varints

  function Varint(v: nat): (s: seq<Byte>)
    ensures |s| > 0
  {
    if v < 128 then [v] else [v % 128 + 128] + Varint(v / 128)
  }

  function Pow2(n: nat): (p: nat)
    ensures p > 0
  {
    if n == 0 then 1 else 2 * Pow2(n - 1)
  }

  /** A value and how many bytes it took; `Short` when the bytes ran out. */
  datatype Decoded<T> = Got(value: T, used: nat) | Short

  /** What a byte of a varint adds to a word of `bits` bits whose bits below `i` are already read: it is cut
      to the word, and meets no bit that is already set. */
  function Part(x: Byte, i: nat, bits: nat): nat {
    (x % 128 * Pow2(i)) % Pow2(bits)
  }

  /** Reads a varint for a word of `bits` bits whose bits below `i` are already read. */
  function ReadVarint(bits: nat, i: nat, s: seq<Byte>): (d: Decoded<nat>)
    ensures d.Got? ==> d.used <= |s|
    decreases |s|
  {
    if i >= bits then Got(0, 0)
    else if |s| == 0 then Short
    else
      var part := Part(s[0], i, bits);
      if s[0] < 128 then Got(part, 1)
      else
        match ReadVarint(bits, i + 7, s[1..])
        case Short => Short
        case Got(v, n) => Got(part + v, n + 1)
  }

  lemma {:induction false} Pow2Add(a: nat, b: nat)
    ensures Pow2(a + b) == Pow2(a) * Pow2(b)
    decreases a
  {
    if a > 0 {
      Pow2Add(a - 1, b);
      assert 2 * (Pow2(a - 1) * Pow2(b)) == Pow2(a) * Pow2(b);
    } else {
      assert Pow2(a + b) == Pow2(b);
    }
  }

  lemma SmallMod(x: nat, m: nat)
    requires x < m
    ensures x % m == x
  {}

  /** `v` copies of `p` are the high and the low part of `v`, the high one in units of 128 `p`. */
  lemma SplitGroup(v: nat, p: nat, q: nat)
    requires q == 128 * p
    ensures v * p == v / 128 * q + v % 128 * p
    ensures v / 128 * q >= 0 && v % 128 * p >= 0
  {}

  lemma SevenMore(i: nat)
    ensures Pow2(i + 7) == 128 * Pow2(i)
  {
    assert Pow2(7) == 128;
    Pow2Add(7, i);
  }

  lemma {:induction false} VarintRoundTrip(bits: nat, i: nat, v: nat, rest: seq<Byte>)
    requires i < bits && v * Pow2(i) < Pow2(bits)
    ensures ReadVarint(bits, i, Varint(v) + rest) == Got(v * Pow2(i), |Varint(v)|)
    decreases v
  {
    var s := Varint(v) + rest;
    SevenMore(i);
    SplitGroup(v, Pow2(i), Pow2(i + 7));
    hide Pow2;
    var low, high := v % 128, v / 128;
    SmallMod(low * Pow2(i), Pow2(bits));
    if v < 128 {
      assert s[0] == v && low == v;
    } else {
      assert s[0] == low + 128 && s[1..] == Varint(high) + rest;
      SmallMod(low, 128);
      assert s[0] % 128 == low;
      Pow2Below(i + 7, bits, high);
      VarintRoundTrip(bits, i + 7, high, rest);
    }
  }

  lemma {:induction false} Pow2Grows(a: nat, b: nat)
    requires a <= b
    ensures Pow2(a) <= Pow2(b)
    decreases b
  {
    if a < b {
      Pow2Grows(a, b - 1);
    }
  }

  lemma Pow2Below(i: nat, bits: nat, m: nat)
    requires m >= 1 && m * Pow2(i) < Pow2(bits)
    ensures i < bits
  {}

  /** A varint of `n` groups of 7 bits. */
  lemma {:induction false} VarintLength(v: nat, n: nat)
    requires n >= 1 && v < Pow2(7 * n)
    ensures |Varint(v)| <= n
    decreases n
  {
    if v >= 128 {
      SevenMore(7 * (n - 1));
      assert Pow2(0) == 1;
      hide Pow2;
      VarintLength(v / 128, n - 1);
    }
  }

  // ---------------------------------------------------------------- zigzag

  /** Zigzag on words of `w` bytes, with the wrap-around of the negation and of the doubling. */
  function Zigzag(w: nat, v: int): (u: nat)
    requires IsSigned(w, v)
    ensures u < Range(w)
  {
    if v < 0 then ((-v) % Range(w) * 2 - 1) % Range(w) else v * 2 % Range(w)
  }

  /** `(u >> 1) ^ -(u & 1)`: the second operand has all bits set or none. */
  function Unzigzag(w: nat, u: nat): int
    requires u < Range(w)
  {
    var half := u / 2;
    ToSigned(w, if u % 2 == 1 then Range(w) - 1 - half else half)
  }

  lemma ZigzagRoundTrip(w: nat, v: int)
    requires w >= 1 && IsSigned(w, v)
    ensures Unzigzag(w, Zigzag(w, v)) == v
    ensures Zigzag(w, v) == if v < 0 then -2 * v - 1 else 2 * v
  {
    var m := Range(w);
    assert m % 2 == 0;
    hide Range;
    if v < 0 {
      SmallMod(-v, m);
      SmallMod(-2 * v - 1, m);
    } else {
      SmallMod(v * 2, m);
    }
  }

  // ---------------------------------------------------------------- values

  /** The forms in which a value can be written; `w` is the width in bytes of the word or of the prefix. */
  datatype Kind = Fix(w: nat, signed: bool) | Var(w: nat) | Zig(w: nat) | Str(w: nat) | StrVar

  datatype Value = Number(kind: Kind, n: int) | Text(kind: Kind, s: seq<Byte>)

  /** The value can be written in its form. Strings must not be empty. */
  predicate Fits(v: Value) {
    match v
    case Number(Fix(w, signed), n) =>
      (w == 1 || w == 2 || w == 4 || w == 8) && (if signed then IsSigned(w, n) else 0 <= n < Range(w))
    case Number(Var(w), n) => (w == 4 || w == 8) && 0 <= n < Range(w)
    case Number(Zig(w), n) => (w == 4 || w == 8) && IsSigned(w, n)
    case Text(Str(w), s) => (w == 2 || w == 4 || w == 8) && 0 < |s| < Range(w)
    case Text(StrVar, s) => 0 < |s| < Range(8)
    case _ => false
  }

  function Encode(little: bool, v: Value): seq<Byte>
    requires Fits(v)
  {
    match v
    case Number(Fix(w, signed), n) => Fixed(little, w, if signed then ToUnsigned(w, n) else n)
    case Number(Var(_), n) => Varint(n)
    case Number(Zig(w), n) => Varint(Zigzag(w, n))
    case Text(Str(w), s) => Fixed(little, w, |s|) + s
    case Text(StrVar, s) => Varint(|s|) + s
  }

  function ReadFixed(little: bool, w: nat, s: seq<Byte>): (d: Decoded<nat>)
    ensures d.Got? ==> d.value < Range(w) && d.used == w <= |s|
  {
    if |s| < w then Short else Got(FixedValue(little, s[..w]), w)
  }

  /** A string after its length. */
  function ReadText(k: Kind, len: Decoded<nat>, s: seq<Byte>): Decoded<Value>
    requires len.Got? ==> len.used <= |s|
  {
    if len.Short? || |s| - len.used < len.value then Short
    else Got(Text(k, s[len.used..len.used + len.value]), len.used + len.value)
  }

  function Decode(little: bool, k: Kind, s: seq<Byte>): Decoded<Value> {
    match k
    case Fix(w, signed) =>
      var d := ReadFixed(little, w, s);
      if d.Short? then Short else Got(Number(k, if signed then ToSigned(w, d.value) else d.value), d.used)
    case Var(w) =>
      var d := ReadVarint(8 * w, 0, s);
      if d.Short? then Short else Got(Number(k, d.value), d.used)
    case Zig(w) =>
      var d := ReadVarint(8 * w, 0, s);
      if d.Short? then Short else Got(Number(k, Unzigzag(w, d.value % Range(w))), d.used)
    case Str(w) => ReadText(k, ReadFixed(little, w, s), s)
    case StrVar => ReadText(k, ReadVarint(64, 0, s), s)
  }

  lemma {:induction false} RangeIsPow2(w: nat)
    ensures Range(w) == Pow2(8 * w)
    decreases w
  {
    if w > 0 {
      RangeIsPow2(w - 1);
      Pow2Add(8, 8 * (w - 1));
      assert Pow2(8) == 256;
    }
  }

  lemma SignedBack(w: nat, n: int)
    requires IsSigned(w, n)
    ensures ToSigned(w, ToUnsigned(w, n)) == n
  {}

  lemma FixedBack(little: bool, w: nat, v: nat, rest: seq<Byte>)
    requires v < Range(w)
    ensures ReadFixed(little, w, Fixed(little, w, v) + rest) == Got(v, w)
  {
    FixedRoundTrip(little, w, v);
    assert (Fixed(little, w, v) + rest)[..w] == Fixed(little, w, v);
  }

  lemma VarintBack(w: nat, v: nat, rest: seq<Byte>)
    requires w >= 1 && v < Range(w)
    ensures ReadVarint(8 * w, 0, Varint(v) + rest) == Got(v, |Varint(v)|)
  {
    RangeIsPow2(w);
    VarintRoundTrip(8 * w, 0, v, rest);
  }

  lemma TextBack(k: Kind, prefix: seq<Byte>, s: seq<Byte>, rest: seq<Byte>)
    ensures ReadText(k, Got(|s|, |prefix|), prefix + s + rest) == Got(Text(k, s), |prefix| + |s|)
  {}

  /** Reading back what was written gives the value and leaves what follows. */
  lemma DecodeEncode(little: bool, v: Value, rest: seq<Byte>)
    requires Fits(v)
    ensures Decode(little, v.kind, Encode(little, v) + rest) == Got(v, |Encode(little, v)|)
  {
    hide Range, Varint, ReadVarint, Fixed, Zigzag, Unzigzag, IsSigned, ReadFixed, ReadText;
    match v {
      case Number(Fix(w, signed), n) =>
        if signed {
          SignedBack(w, n);
        }
        FixedBack(little, w, if signed then ToUnsigned(w, n) else n, rest);
      case Number(Var(w), n) =>
        VarintBack(w, n, rest);
      case Number(Zig(w), n) =>
        ZigzagRoundTrip(w, n);
        VarintBack(w, Zigzag(w, n), rest);
        SmallMod(Zigzag(w, n), Range(w));
      case Text(Str(w), s) =>
        FixedBack(little, w, |s|, s + rest);
        TextBack(v.kind, Fixed(little, w, |s|), s, rest);
        assert Fixed(little, w, |s|) + (s + rest) == Fixed(little, w, |s|) + s + rest;
      case Text(StrVar, s) =>
        VarintBack(8, |s|, s + rest);
        TextBack(v.kind, Varint(|s|), s, rest);
        assert Varint(|s|) + (s + rest) == Varint(|s|) + s + rest;
    }
  }

  function EncodeAll(little: bool, vs: seq<Value>): seq<Byte>
    requires forall v <- vs :: Fits(v)
    decreases |vs|
  {
    if |vs| == 0 then [] else Encode(little, vs[0]) + EncodeAll(little, vs[1..])
  }
}
