/** What the encodings of the byte array look like on the wire, byte by byte. */
module ByteWire {
  import opened ByteBlocks
  import opened ByteCodec

  /** The widths of words. */
  lemma WordRanges()
    ensures Range(1) == 0x100 && Range(2) == 0x1_0000 && Range(4) == 0x1_0000_0000 && Range(8) == 0x1_0000_0000_0000_0000
  {
    assert Range(3) == 0x100_0000 && Range(5) == 0x100_0000_0000 && Range(6) == 0x1_0000_0000_0000 && Range(7) == 0x100_0000_0000_0000;
  }

  // ---------------------------------------------------------------- fixed width

  /** The number that bytes stand for, the most significant first. */
  function BigEndian(s: seq<Byte>): nat
    decreases |s|
  {
    if |s| == 0 then 0 else BigEndian(s[..|s| - 1]) * 256 + s[|s| - 1]
  }

  /** The number that bytes stand for, the least significant first. */
  function LittleEndian(s: seq<Byte>): nat
    decreases |s|
  {
    if |s| == 0 then 0 else s[0] + 256 * LittleEndian(s[1..])
  }

  lemma {:induction false} LittleIs(s: seq<Byte>)
    ensures LittleValue(s) == LittleEndian(s)
    decreases |s|
  {
    if |s| > 0 {
      LittleIs(s[1..]);
    }
  }

  lemma {:induction false} ReversedIs(s: seq<Byte>)
    ensures LittleValue(Reversed(s)) == BigEndian(s)
    decreases |s|
  {
    if |s| > 0 {
      var front, last := s[..|s| - 1], s[|s| - 1];
      assert s == front + [last];
      ReversedSnoc(front, last);
      assert Reversed(s)[1..] == Reversed(front);
      ReversedIs(front);
    }
  }

  /** A word is written so that reading its bytes as a number, from the end that the byte order says, gives it; and
      there is only one way to write it. */
  lemma FixedExactly(little: bool, w: nat, v: nat, s: seq<Byte>)
    requires v < Range(w) && |s| == w
    ensures s == Fixed(little, w, v) <==> (if little then LittleEndian(s) else BigEndian(s)) == v
  {
    FixedRoundTrip(little, w, v);
    LittleIs(s);
    ReversedIs(s);
    DigitsOfValue(if little then s else Reversed(s));
    ReversedTwice(s);
  }

  /** What a reader makes of the bytes of a word. */
  lemma FixedValueIs(little: bool, s: seq<Byte>)
    ensures FixedValue(little, s) == if little then LittleEndian(s) else BigEndian(s)
  {
    LittleIs(s);
    ReversedIs(s);
  }

  /** A signed word is its value modulo 2^(8w). */
  lemma SignedIs(w: nat, v: int)
    requires IsSigned(w, v)
    ensures ToUnsigned(w, v) == v % Range(w)
    ensures w >= 1 ==> -(Range(w) / 2) <= v < Range(w) / 2
  {
    var m := Range(w);
    assert w >= 1 ==> m == 2 * (128 * Range(w - 1));
    hide Range;
    SignedMod(v, m);
  }

  lemma SignedMod(v: int, m: nat)
    requires m > 0 && 0 <= v + m && v < m
    ensures v % m == if v < 0 then v + m else v
  {
    if v < 0 {
      assert v == -1 * m + (v + m);
    }
  }

  // ---------------------------------------------------------------- varints

  /** A varint is its groups of seven bits, the lowest first, with the high bit on all but the last; the last one is 0
      for no number but 0. */
  lemma {:induction false} VarintBytes(v: nat)
    ensures var s := Varint(v);
            && (forall i :: 0 <= i < |s| ==> (s[i] >= 128 <==> i < |s| - 1))
            && Groups(s) == v && (|s| > 1 ==> s[|s| - 1] > 0)
    decreases v
  {
    if v >= 128 {
      VarintBytes(v / 128);
    }
  }

  /** The number of which the bytes hold seven bits each. */
  function Groups(s: seq<Byte>): nat
    decreases |s|
  {
    if |s| == 0 then 0 else s[0] % 128 + 128 * Groups(s[1..])
  }

  lemma MultipleMod(k: nat, p: nat, q: nat)
    requires p > 0 && q > 0
    ensures q * p > 0 && k * p % (q * p) == (k % q) * p
  {
    var r, d := k % q, k / q;
    assert k == d * q + r;
    assert k * p == d * (q * p) + r * p by {
      Products(d, q, p, r);
    }
    assert r * p < q * p by {
      Smaller(r, q, p);
    }
    ModOf(d, q * p, r * p);
  }

  lemma Products(d: nat, q: nat, p: nat, r: nat)
    ensures (d * q + r) * p == d * (q * p) + r * p
  {}

  lemma Smaller(r: nat, q: nat, p: nat)
    requires r < q && p > 0
    ensures 0 <= r * p < q * p
  {}

  lemma ModOf(d: nat, m: nat, r: nat)
    requires r < m
    ensures (d * m + r) % m == r
  {
    var x := d * m + r;
    var a := x / m;
    assert x == a * m + x % m;
    assert (a - d) * m == r - x % m;
    if a > d {
      AtLeastOne(a - d, m);
    } else if a < d {
      AtLeastOne(d - a, m);
    }
  }

  lemma AtLeastOne(k: nat, m: nat)
    requires k >= 1
    ensures k * m >= m
  {}

  /** Adding a number below the group's unit does not carry into the group. */
  lemma NoCarry(low: nat, high: nat, p: nat, q: nat)
    requires low < p && q > 0
    ensures q * p > 0 && (low + high * p) % (q * p) == low + high * p % (q * p)
  {
    MultipleMod(high, p, q);
    var r, d := high % q, high / q;
    assert high == d * q + r;
    Products(d, q, p, r);
    Smaller(r + 1, q + 1, p);
    assert (r + 1) * p == r * p + p;
    assert (r + 1) * p <= q * p by {
      if r + 1 < q {
        Smaller(r + 1, q, p);
      }
    }
    ModOf(d, q * p, low + r * p);
  }

  /** What is read as a varint of a word of `bits` bits: bytes up to the first without the high bit, or until the word is
      full; and of the number of which they hold the groups, as much as the word holds. It is short exactly if the bytes
      end before. */
  lemma {:induction false} VarintReadExactly(bits: nat, i: nat, s: seq<Byte>)
    requires i < bits
    ensures var d := ReadVarint(bits, i, s);
            && (d.Short? <==> i + 7 * |s| < bits && forall j :: 0 <= j < |s| ==> s[j] >= 128)
            && (d.Got? ==>
                  && 0 < d.used <= |s| && i + 7 * (d.used - 1) < bits && (forall j :: 0 <= j < d.used - 1 ==> s[j] >= 128)
                  && (s[d.used - 1] < 128 || i + 7 * d.used >= bits)
                  && d.value == Groups(s[..d.used]) * Pow2(i) % Pow2(bits))
    decreases |s|
  {
    if |s| > 0 {
      assert s[..1][1..] == [] && Groups(s[..1]) == s[0] % 128;
      if s[0] >= 128 && i + 7 < bits {
        VarintReadExactly(bits, i + 7, s[1..]);
        var d := ReadVarint(bits, i + 7, s[1..]);
        if d.Got? {
          MoreGroups(bits, i, s, d);
        }
      }
    }
  }

  lemma MoreGroups(bits: nat, i: nat, s: seq<Byte>, d: Decoded<nat>)
    requires i + 7 < bits && |s| > 0 && d.Got? && d.used < |s|
    requires d.value == Groups(s[1..][..d.used]) * Pow2(i + 7) % Pow2(bits)
    ensures Part(s[0], i, bits) + d.value == Groups(s[..d.used + 1]) * Pow2(i) % Pow2(bits)
  {
    var g, low := Groups(s[1..][..d.used]), s[0] % 128;
    assert s[..d.used + 1][1..] == s[1..][..d.used];
    assert Groups(s[..d.used + 1]) == low + 128 * g;
    SevenMore(i);
    Pow2Add(bits - i - 7, i + 7);
    hide Pow2, Groups;
    var p, q := Pow2(i + 7), Pow2(bits - i - 7);
    LowPart(low, Pow2(i), p);
    assert Pow2(bits) == q * p;
    NoCarry(low * Pow2(i), g, p, q);
    Distribute(low, g, Pow2(i), p);
    Smaller(low * Pow2(i), p, q);
    PartIsLow(low * Pow2(i), p, q);
  }

  lemma PartIsLow(x: nat, p: nat, q: nat)
    requires x < p && q > 0
    ensures q * p > 0 && x % (q * p) == x
  {
    assert p <= q * p;
    SmallMod(x, q * p);
  }

  lemma LowPart(low: nat, u: nat, p: nat)
    requires low < 128 && u > 0 && p == 128 * u
    ensures 0 <= low * u < p
  {
    Smaller(low, 128, u);
  }

  lemma Distribute(low: nat, g: nat, u: nat, p: nat)
    requires p == 128 * u
    ensures (low + 128 * g) * u == low * u + g * p
  {}

  // ---------------------------------------------------------------- values

  /** A string is its length in the stated form and then its bytes; the other forms are a number alone. */
  lemma EncodedForms(little: bool, v: Value)
    requires Fits(v)
    ensures match v
            case Text(Str(w), s) => Encode(little, v) == Fixed(little, w, |s|) + s
            case Text(StrVar, s) => Encode(little, v) == Varint(|s|) + s
            case Number(Fix(w, signed), n) => Encode(little, v) == Fixed(little, w, n % Range(w))
            case Number(Var(w), n) => Encode(little, v) == Varint(n)
            case Number(Zig(w), n) => Encode(little, v) == Varint(if n < 0 then -2 * n - 1 else 2 * n)
            case _ => true
  {
    match v {
      case Number(Fix(w, signed), n) =>
        if signed {
          SignedIs(w, n);
        } else {
          SmallMod(n, Range(w));
        }
      case Number(Zig(w), n) => ZigzagRoundTrip(w, n);
      case _ =>
    }
  }
}
