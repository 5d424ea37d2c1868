/** Lists of values written to a byte array and read back. */
module ByteValues {
  import opened ByteBlocks
  import opened ByteCodec
  import opened ByteArrays

  /** Calls the writer for the form of the value. */
  method WriteValue(ba: ByteArray, v: Value)
    requires ba.Valid() && Fits(v)
    modifies ba, ba.nodes, Buffers(ba.nodes)
    ensures ba.Wrote(Encode(old(ba.littleEndian), v))
  {
    hide ByteArray.Wrote, Fixed, Varint, Zigzag, Range;
    match v {
      case Number(Fix(w, signed), n) =>
        ba.WriteFix(w, if signed then ToUnsigned(w, n) else n);
      case Number(Var(w), n) =>
        ba.WriteUint(w, n);
      case Number(Zig(w), n) =>
        ba.WriteInt(w, n);
      case Text(Str(w), s) =>
        SmallMod(|s|, Range(w));
        ba.WriteStringFix(w, s);
      case Text(StrVar, s) =>
        ba.WriteStringVint(s);
    }
  }

  /** Calls the reader for the form `v` was written in; `v` comes next in the array. */
  method ReadValue(ba: ByteArray, k: Kind, ghost v: Value, ghost rest: seq<Byte>) returns (r: Result<Value>)
    requires ba.Valid() && Fits(v) && v.kind == k && ba.Unread() == Encode(ba.littleEndian, v) + rest
    modifies ba`position, ba`cur
    ensures ba.Valid() && r == Ok(v) && ba.Unread() == rest
  {
    DecodeEncode(ba.littleEndian, v, rest);
    assert ba.Unread()[|Encode(ba.littleEndian, v)|..] == rest;
    hide Fixed, Varint, Zigzag, Unzigzag, Range, ReadVarint, ReadFixed, ReadText, IsSigned, ByteArray.Unread, Encode;
    match k {
      case Fix(w, signed) =>
        var d := ba.ReadFix(w);
        r := Ok(Number(k, if signed then ToSigned(w, d.value) else d.value));
      case Var(w) =>
        var d := ba.ReadUint(w);
        r := Ok(Number(k, d.value));
      case Zig(w) =>
        var d := ba.ReadInt(w);
        r := Ok(Number(k, d.value));
      case Str(w) =>
        NotEmpty(v, ReadFixed(ba.littleEndian, w, ba.Unread()), ba.Unread());
        var d := ba.ReadStringFix(w);
        r := Ok(Text(k, d.value));
      case StrVar =>
        NotEmpty(v, ReadVarint(64, 0, ba.Unread()), ba.Unread());
        var d := ba.ReadStringVint();
        r := Ok(Text(k, d.value));
    }
  }

  lemma NotEmpty(v: Value, len: Decoded<nat>, s: seq<Byte>)
    requires Fits(v) && v.Text? && (len.Got? ==> len.used <= |s|) && ReadText(v.kind, len, s).Got?
    requires ReadText(v.kind, len, s).value == v
    ensures len.Got? && len.value > 0
  {}

  lemma {:induction false} EncodeAllSnoc(little: bool, vs: seq<Value>, v: Value)
    requires Fits(v) && forall x <- vs :: Fits(x)
    ensures EncodeAll(little, vs + [v]) == EncodeAll(little, vs) + Encode(little, v)
    decreases |vs|
  {
    hide Encode, Fits;
    if |vs| == 0 {
      assert vs + [v] == [v] && [v][1..] == [];
    } else {
      assert (vs + [v])[1..] == vs[1..] + [v];
      EncodeAllSnoc(little, vs[1..], v);
    }
  }

  method WriteAll(ba: ByteArray, vs: seq<Value>)
    requires ba.Valid() && forall v <- vs :: Fits(v)
    modifies ba, ba.nodes, Buffers(ba.nodes)
    ensures ba.Wrote(EncodeAll(old(ba.littleEndian), vs))
  {
    hide Begin, BlockAt, Contents, Overwritten, Encode, Fits, Linked;
    ghost var s, p, little := ba.Bytes(), ba.position, ba.littleEndian;
    ba.BytesLength();
    NothingOverwritten(s, p);
    assert vs[..0] == [];
    for i := 0 to |vs|
      invariant ba.Wrote(EncodeAll(little, vs[..i]))
    {
      ghost var t := ba.Bytes();
      WriteValue(ba, vs[i]);
      assert vs[..i + 1] == vs[..i] + [vs[i]];
      EncodeAllSnoc(little, vs[..i], vs[i]);
      OverwrittenTwice(s, t, ba.Bytes(), p, EncodeAll(little, vs[..i]), Encode(little, vs[i]));
    }
    assert vs[..|vs|] == vs;
  }

  lemma NothingOverwritten(s: seq<Byte>, p: nat)
    requires p <= |s|
    ensures Overwritten(s, s, p, [])
  {}

  /** The values that come next are read, whatever follows them. */
  method ReadAll(ba: ByteArray, ks: seq<Kind>, ghost vs: seq<Value>, ghost rest: seq<Byte>) returns (rs: seq<Value>)
    requires ba.Valid() && (forall v <- vs :: Fits(v))
    requires |ks| == |vs| && forall i :: 0 <= i < |vs| ==> ks[i] == vs[i].kind
    requires ba.Unread() == EncodeAll(ba.littleEndian, vs) + rest
    modifies ba`position, ba`cur
    ensures ba.Valid() && rs == vs && ba.Unread() == rest
  {
    hide Begin, BlockAt, Contents, Encode, Fits;
    ghost var little := ba.littleEndian;
    rs := [];
    for i := 0 to |ks|
      invariant ba.Valid() && rs == vs[..i] && ba.Unread() == EncodeAll(little, vs[i..]) + rest
    {
      ghost var u := ba.Unread();
      ghost var after := EncodeAll(little, vs[i..][1..]) + rest;
      assert vs[i..][0] == vs[i] && vs[i..][1..] == vs[i + 1..];
      assert u == Encode(little, vs[i]) + after;
      var r := ReadValue(ba, ks[i], vs[i], after);
      rs := rs + [r.value];
    }
    assert vs[|vs|..] == [];
  }

  /** Any values that can be written, written to a fresh array of any block size and either byte order, are
      read back in order after going back to the start, and nothing is left to read. */
  method RoundTrip(base: nat, hostLittle: bool, little: bool, vs: seq<Value>) returns (ba: ByteArray, rs: seq<Value>)
    requires base > 0 && forall v <- vs :: Fits(v)
    ensures fresh(ba) && ba.Valid() && rs == vs && ba.Unread() == [] && ba.position == ba.size
  {
    hide Begin, BlockAt, Contents, EncodeAll, Fits, Linked;
    ba := new ByteArray(base, hostLittle);
    ba.littleEndian := little;
    WriteAll(ba, vs);
    ghost var s := EncodeAll(little, vs);
    NoBuffersHere(ba, ba.nodes);
    ba.BytesLength();
    assert ba.Bytes()[0..|s|] == s;
    var ok := ba.SetPosition(0);
    assert ba.Unread() == s + [];
    var ks: seq<Kind> := [];
    for i := 0 to |vs|
      invariant |ks| == i && forall j :: 0 <= j < i ==> ks[j] == vs[j].kind
    {
      ks := ks + [vs[i].kind];
    }
    rs := ReadAll(ba, ks, vs, []);
  }

  lemma NoBuffersHere(ba: ByteArray, ns: seq<Node>)
    ensures ba !in Buffers(ns) && forall o :: o in Buffers(ns) ==> allocated(o)
  {}
}
