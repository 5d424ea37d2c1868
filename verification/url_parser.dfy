/** `http_parser_parse_url` and `http_parse_host`: one pass marks the fields of a URL, a second one splits
    the authority, a third reads the port. Offsets and lengths are kept in 16 bits. */
module UrlParsing {
  import opened HttpSyntax
  import opened HttpMachine
  import opened Numerals
  import opened UrlGrammar
  import opened UrlHost
  import opened Wrappers

  datatype Field = SchemaField | HostField | PortField | PathField | QueryField | FragmentField | UserinfoField

  datatype Span = Span(off: nat, len: nat)

  const UINT16_RANGE := 0x10000

  function U16(n: nat): nat {
    n % UINT16_RANGE
  }

  function PortValue(digits: string): nat
    requires All(IsNum, digits)
  {
    DigitsValue(10, 0, digits)
  }

  // ---------------------------------------------------------------- which texts are URLs

  /** The authority does not stop in the middle of a host or before a port. */
  predicate HostComplete(hs: Parts) {
    hs[HOST] != "" && (hs[OPEN] != "" ==> hs[CLOSE] != "") && (hs[COLON] != "" ==> hs[PORT] != "")
  }

  predicate IsAuthority(authority: string, hs: Parts) {
    HostShape(hs, '@' in authority) && Join(hs) == authority && HostComplete(hs)
  }

  /** `buf` is the URL made of the parts `ps`, the authority among them made of the parts `hs`. For CONNECT
      a URL is a host and a port and nothing else. */
  predicate Written(buf: string, connect: bool, ps: Parts, hs: Parts) {
    && buf != "" && UrlShape(ps, connect) && Join(ps) == buf
    && (if ps[AUTHORITY] == "" then ps[SCHEME] == "" && hs == NO_PARTS else IsAuthority(ps[AUTHORITY], hs))
    && All(IsNum, hs[PORT]) && PortValue(hs[PORT]) < UINT16_RANGE
    && (connect ==> OnlyHostAndPort(ps, hs))
  }

  predicate OnlyHostAndPort(ps: Parts, hs: Parts) {
    ps[AUTHORITY] != "" && hs[USERINFO] == "" && hs[PORT] != "" && ps[PATH] == "" && ps[QUERY] == "" && ps[FRAGMENT] == ""
  }

  function Component(ps: Parts, hs: Parts, f: Field): string {
    match f
    case SchemaField => ps[SCHEME]
    case UserinfoField => hs[USERINFO]
    case HostField => hs[HOST] + hs[ZONE]
    case PortField => hs[PORT]
    case PathField => ps[PATH]
    case QueryField => ps[QUERY]
    case FragmentField => ps[FRAGMENT]
  }

  function Start(ps: Parts, hs: Parts, f: Field): nat {
    match f
    case SchemaField => 0
    case UserinfoField => Offset(ps, AUTHORITY)
    case HostField => Offset(ps, AUTHORITY) + Offset(hs, HOST)
    case PortField => Offset(ps, AUTHORITY) + Offset(hs, PORT)
    case PathField => Offset(ps, PATH)
    case QueryField => Offset(ps, QUERY)
    case FragmentField => Offset(ps, FRAGMENT)
  }

  predicate Described(gs: set<Field>, gd: map<Field, Span>, ps: Parts, hs: Parts, f: Field) {
    && (f in gs <==> Component(ps, hs, f) != "")
    && (f in gs ==> f in gd && gd[f] == Span(U16(Start(ps, hs, f)), U16(|Component(ps, hs, f)|)))
  }

  /** The struct holds exactly the non-empty components, each at its place; place and length are kept in 16 bits. */
  predicate Describes(fieldSet: set<Field>, fieldData: map<Field, Span>, ps: Parts, hs: Parts) {
    forall f: Field :: Described(fieldSet, fieldData, ps, hs, f)
  }

  // ---------------------------------------------------------------- which texts are accepted

  /** The stretch of the text that is meant when place and length are kept in 16 bits. */
  function Cut(buf: string, at: nat, len: nat): string {
    if U16(at) + U16(len) <= |buf| then buf[U16(at)..U16(at) + U16(len)] else ""
  }

  /** The parts into which the two machines split a text. */
  function TheParts(buf: string, connect: bool): Parts {
    UrlScan(buf, connect).parts
  }

  function TheHostParts(buf: string, connect: bool): Parts {
    var authority := TheParts(buf, connect)[AUTHORITY];
    if authority == "" then NO_PARTS else HostScan(authority, '@' in authority).parts
  }

  /** What the second pass takes for the authority, and how it splits it. */
  function SeenAuthority(buf: string, connect: bool): string {
    var ps := TheParts(buf, connect);
    Cut(buf, Offset(ps, AUTHORITY), |ps[AUTHORITY]|)
  }

  function SeenHost(buf: string, connect: bool): HostScanned {
    HostScan(SeenAuthority(buf, connect), '@' in TheParts(buf, connect)[AUTHORITY])
  }

  function SeenParts(buf: string, connect: bool): Parts {
    if TheParts(buf, connect)[AUTHORITY] == "" then NO_PARTS else SeenHost(buf, connect).parts
  }

  /** What the third pass takes for the port. */
  function SeenPort(buf: string, connect: bool): string {
    var ps, hs := TheParts(buf, connect), SeenParts(buf, connect);
    Cut(buf, Start(ps, hs, PortField), |hs[PORT]|)
  }

  /** The value of a port, read from any characters: there is none once it leaves the 16 bits. */
  function PortRead(text: string): Option<nat>
    decreases |text|
  {
    if |text| == 0 then Some(0)
    else
      var n := |text| - 1;
      var v := PortRead(text[..n]);
      if v.None? then None
      else
        var w := v.value * 10 + (text[n] as int - '0' as int);
        if 0 <= w < UINT16_RANGE then Some(w) else None
  }

  /** The texts that `ParseUrl` accepts. */
  predicate Accepted(buf: string, connect: bool) {
    var ps, hs := TheParts(buf, connect), SeenParts(buf, connect);
    && buf != "" && !UrlScan(buf, connect).state.Dead? && (ps[SCHEME] != "" ==> ps[AUTHORITY] != "")
    && (ps[AUTHORITY] != "" ==> HostMayEnd(SeenHost(buf, connect).state))
    && PortRead(SeenPort(buf, connect)).Some? && (connect ==> OnlyHostAndPort(ps, hs))
  }

  // ---------------------------------------------------------------- the marks of the first pass

  predicate IsOuter(f: Field) {
    !f.UserinfoField? && !f.PortField?
  }

  /** The part of the URL that the first pass puts in field `f`. */
  function PartOf(f: Field): (k: nat)
    requires IsOuter(f)
    ensures k < 8
  {
    match f
    case SchemaField => SCHEME
    case HostField => AUTHORITY
    case PathField => PATH
    case QueryField => QUERY
    case FragmentField => FRAGMENT
  }

  predicate Marked(fieldSet: set<Field>, fieldData: map<Field, Span>, ps: Parts) {
    && (forall f: Field :: f in fieldSet <==> IsOuter(f) && ps[PartOf(f)] != "")
    && (forall f: Field :: f in fieldData)
    && (forall f: Field :: f in fieldSet ==> fieldData[f] == Span(U16(Offset(ps, PartOf(f))), U16(|ps[PartOf(f)]|)))
  }

  function LastField(ps: Parts): Option<Field> {
    if ps[FRAGMENT] != "" then Some(FragmentField)
    else if ps[QUERY] != "" then Some(QueryField)
    else if ps[PATH] != "" then Some(PathField)
    else if ps[AUTHORITY] != "" then Some(HostField)
    else if ps[SCHEME] != "" then Some(SchemaField)
    else None
  }

  lemma MarkSkip(fieldSet: set<Field>, fieldData: map<Field, Span>, ps: Parts, k: nat, ch: char)
    requires Marked(fieldSet, fieldData, ps) && k < 8 && EmptyAfter(ps, k) && (k == DELIMITER || k == QUESTION || k == HASHES)
    ensures Marked(fieldSet, fieldData, Add(ps, k, ch)) && LastField(Add(ps, k, ch)) == LastField(ps)
  {}

  lemma MarkMore(fieldSet: set<Field>, fieldData: map<Field, Span>, ps: Parts, uf: Field, ch: char)
    requires Marked(fieldSet, fieldData, ps) && IsOuter(uf) && EmptyAfter(ps, PartOf(uf)) && ps[PartOf(uf)] != ""
    ensures LastField(ps) == Some(uf)
    ensures var qs := Add(ps, PartOf(uf), ch);
            && Marked(fieldSet, fieldData[uf := fieldData[uf].(len := U16(fieldData[uf].len + 1))], qs)
            && LastField(qs) == Some(uf)
  {
    hide Offset, Join, U16;
    JoinAdd(ps, PartOf(uf), ch);
    U16Snoc(|ps[PartOf(uf)]|);
  }

  lemma U16Snoc(n: nat)
    ensures U16(U16(n) + 1) == U16(n + 1)
  {}

  lemma MarkNew(fieldSet: set<Field>, fieldData: map<Field, Span>, ps: Parts, uf: Field, ch: char)
    requires Marked(fieldSet, fieldData, ps) && IsOuter(uf) && EmptyAfter(ps, PartOf(uf)) && ps[PartOf(uf)] == ""
    ensures LastField(ps) != Some(uf)
    ensures var qs := Add(ps, PartOf(uf), ch);
            && Marked(fieldSet + {uf}, fieldData[uf := Span(U16(|Join(ps)|), 1)], qs)
            && LastField(qs) == Some(uf)
  {
    hide Offset, Join;
    JoinAdd(ps, PartOf(uf), ch);
  }

  // ---------------------------------------------------------------- the marks of the second pass

  /** `base` is where the authority begins. */
  predicate HostMarked(fieldSet: set<Field>, fieldData: map<Field, Span>, base: nat, hs: Parts) {
    && (forall f: Field :: f in fieldData)
    && (UserinfoField in fieldSet <==> hs[USERINFO] != "")
    && (hs[USERINFO] != "" ==> fieldData[UserinfoField] == Span(U16(base), U16(|hs[USERINFO]|)))
    && fieldData[HostField].len == U16(|hs[HOST]| + |hs[ZONE]|)
    && (hs[HOST] != "" ==> fieldData[HostField].off == U16(base + Offset(hs, HOST)))
    && (PortField in fieldSet <==> hs[PORT] != "")
    && (hs[PORT] != "" ==> fieldData[PortField] == Span(U16(base + Offset(hs, PORT)), U16(|hs[PORT]|)))
  }

  predicate SameOuter(fs: set<Field>, fd: map<Field, Span>, gs: set<Field>, gd: map<Field, Span>) {
    forall f: Field :: IsOuter(f) ==>
      (f in fs <==> f in gs) && (!f.HostField? ==> f in fd && f in gd && fd[f] == gd[f])
  }

  lemma HostMarkSkip(fieldSet: set<Field>, fieldData: map<Field, Span>, base: nat, hs: Parts, k: nat, ch: char)
    requires HostMarked(fieldSet, fieldData, base, hs) && k < 8 && EmptyAfter(hs, k)
    requires k == AT || k == OPEN || k == CLOSE || k == COLON
    ensures HostMarked(fieldSet, fieldData, base, Add(hs, k, ch))
  {}

  /** Nothing that the second pass marks, but possibly field `f`, differs between the two. */
  predicate OnlyDiffersAt(fs: set<Field>, fd: map<Field, Span>, gs: set<Field>, gd: map<Field, Span>, f: Field) {
    && (forall g: Field :: g in fd && g in gd)
    && (forall g: Field :: g != f ==> (g in fs <==> g in gs) && fd[g] == gd[g])
  }

  lemma HostMarkHost(fs: set<Field>, fd: map<Field, Span>, gd: map<Field, Span>, base: nat, hs: Parts, ch: char)
    requires HostMarked(fs, fd, base, hs) && EmptyAfter(hs, HOST) && OnlyDiffersAt(fs, fd, fs, gd, HostField)
    requires gd[HostField] == Span(if hs[HOST] == "" then U16(base + |Join(hs)|) else fd[HostField].off, U16(fd[HostField].len + 1))
    ensures HostMarked(fs, gd, base, Add(hs, HOST, ch))
  {
    hide Offset, Join;
    JoinAdd(hs, HOST, ch);
  }

  lemma HostMarkZone(fs: set<Field>, fd: map<Field, Span>, gd: map<Field, Span>, base: nat, hs: Parts, ch: char)
    requires HostMarked(fs, fd, base, hs) && EmptyAfter(hs, ZONE) && OnlyDiffersAt(fs, fd, fs, gd, HostField)
    requires gd[HostField] == fd[HostField].(len := U16(fd[HostField].len + 1))
    ensures HostMarked(fs, gd, base, Add(hs, ZONE, ch))
  {
    hide Offset, Join;
    JoinAdd(hs, ZONE, ch);
  }

  lemma HostMarkUserinfo(fs: set<Field>, fd: map<Field, Span>, gs: set<Field>, gd: map<Field, Span>, base: nat, hs: Parts, ch: char)
    requires HostMarked(fs, fd, base, hs) && EmptyAfter(hs, USERINFO) && OnlyDiffersAt(fs, fd, gs, gd, UserinfoField)
    requires if hs[USERINFO] == "" then UserinfoField in gs && gd[UserinfoField] == Span(U16(base + |Join(hs)|), 1)
             else gs == fs && gd[UserinfoField] == fd[UserinfoField].(len := U16(fd[UserinfoField].len + 1))
    ensures HostMarked(gs, gd, base, Add(hs, USERINFO, ch))
  {
    JoinAdd(hs, USERINFO, ch);
    assert Offset(hs, USERINFO) == 0;
  }

  lemma HostMarkPort(fs: set<Field>, fd: map<Field, Span>, gs: set<Field>, gd: map<Field, Span>, base: nat, hs: Parts, ch: char)
    requires HostMarked(fs, fd, base, hs) && EmptyAfter(hs, PORT) && OnlyDiffersAt(fs, fd, gs, gd, PortField)
    requires if hs[PORT] == "" then PortField in gs && gd[PortField] == Span(U16(base + |Join(hs)|), 1)
             else gs == fs && gd[PortField] == fd[PortField].(len := U16(fd[PortField].len + 1))
    ensures HostMarked(gs, gd, base, Add(hs, PORT, ch))
  {
    hide Offset, Join;
    JoinAdd(hs, PORT, ch);
  }

  // ---------------------------------------------------------------- the port

  /** Reads the digits of a port; fails as soon as the value is beyond 65535. */
  method ParsePort(digits: string) returns (ok: bool, v: int)
    ensures PortRead(digits) == if ok then Some(v) else None
    ensures All(IsNum, digits) ==> (ok <==> PortValue(digits) < UINT16_RANGE) && (ok ==> v == PortValue(digits))
  {
    v := 0;
    for i := 0 to |digits|
      invariant 0 <= v < UINT16_RANGE && PortRead(digits[..i]) == Some(v)
      invariant All(IsNum, digits) ==> v == PortValue(digits[..i])
    {
      assert digits[..i + 1][..i] == digits[..i];
      v := v * 10 + (digits[i] as int - '0' as int);
      if All(IsNum, digits) {
        assert digits[..i + 1] == digits[..i] + [digits[i]];
        DigitsValueSnoc(10, 0, digits[..i], digits[i]);
        assert v == PortValue(digits[..i + 1]);
      }
      if v < 0 || v >= UINT16_RANGE {
        NoPortFrom(digits, i + 1);
        if All(IsNum, digits) {
          PortValueGrows(digits, i + 1);
        }
        return false, 0;
      }
    }
    assert digits[..|digits|] == digits;
    return true, v;
  }

  lemma {:induction false} NoPortFrom(text: string, n: nat)
    requires n <= |text| && PortRead(text[..n]).None?
    ensures PortRead(text).None?
    decreases |text|
  {
    if n < |text| {
      var k := |text| - 1;
      assert text[..k][..n] == text[..n];
      NoPortFrom(text[..k], n);
    } else {
      assert text[..n] == text;
    }
  }

  /** On digits it is their value. */
  lemma {:induction false} PortReadIsValue(digits: string)
    requires All(IsNum, digits)
    ensures PortRead(digits) == if PortValue(digits) < UINT16_RANGE then Some(PortValue(digits)) else None
    decreases |digits|
  {
    if |digits| > 0 {
      var k := |digits| - 1;
      assert digits == digits[..k] + [digits[k]];
      DigitsValueSnoc(10, 0, digits[..k], digits[k]);
      PortReadIsValue(digits[..k]);
    }
  }

  lemma {:induction false} PortValueGrows(digits: string, n: nat)
    requires All(IsNum, digits) && n <= |digits|
    ensures PortValue(digits[..n]) <= PortValue(digits)
    decreases |digits|
  {
    if n < |digits| {
      var k := |digits| - 1;
      assert digits == digits[..k] + [digits[k]] && digits[..k][..n] == digits[..n];
      DigitsValueSnoc(10, 0, digits[..k], digits[k]);
      PortValueGrows(digits[..k], n);
    } else {
      assert digits[..n] == digits;
    }
  }

  // ---------------------------------------------------------------- the parser

  lemma ScanDies(text: string, connect: bool, n: nat)
    requires n <= |text| && UrlScan(text[..n], connect).state.Dead?
    ensures UrlScan(text, connect).state.Dead?
    decreases |text|
  {
    if n == |text| {
      assert text[..n] == text;
    } else {
      assert text[..|text| - 1][..n] == text[..n];
      ScanDies(text[..|text| - 1], connect, n);
    }
  }

  lemma HostScanDies(text: string, foundAt: bool, n: nat)
    requires n <= |text| && HostScan(text[..n], foundAt).state.HostDead?
    ensures HostScan(text, foundAt).state.HostDead?
    decreases |text|
  {
    if n == |text| {
      assert text[..n] == text;
    } else {
      assert text[..|text| - 1][..n] == text[..n];
      HostScanDies(text[..|text| - 1], foundAt, n);
    }
  }

  lemma ScanSnoc(text: string, connect: bool, i: nat)
    requires i < |text| && !UrlScan(text[..i + 1], connect).state.Dead?
    ensures var u := UrlScan(text[..i], connect);
            && UrlScan(text[..i + 1], connect) == UrlStep(u, text[i])
            && EmptyAfter(u.parts, UrlSlot(ParseUrlChar(u.state, text[i]))) && |Join(u.parts)| == i
  {
    hide UrlSlot, ParseUrlChar, EmptyAfter, Join, UrlShape, UrlStateOf;
    assert text[..i + 1][..i] == text[..i];
    UrlScanSound(text[..i + 1], connect);
    UrlScanSound(text[..i], connect);
  }

  lemma HostScanSnoc(text: string, foundAt: bool, i: nat)
    requires i < |text| && !HostScan(text[..i + 1], foundAt).state.HostDead?
    ensures var h := HostScan(text[..i], foundAt);
            && HostScan(text[..i + 1], foundAt) == HostStep(h, text[i])
            && EmptyAfter(h.parts, HostSlot(ParseHostChar(h.state, text[i]))) && |Join(h.parts)| == i
  {
    hide HostSlot, ParseHostChar, EmptyAfter, Join, HostShape, HostStateOf;
    assert text[..i + 1][..i] == text[..i];
    HostScanSound(text[..i + 1], foundAt);
    HostScanSound(text[..i], foundAt);
  }

  /** An "@" in the authority is what leads to the state after an "@". */
  lemma AtSeen(ps: Parts, s: State, ch: char)
    ensures var t := ParseUrlChar(s, ch);
            '@' in Add(ps, UrlSlot(t), ch)[AUTHORITY] <==> '@' in ps[AUTHORITY] || t.ReqServerWithAt?
  {
    hide ParseUrlChar;
    AtState(s, ch);
    InSnoc(ps[AUTHORITY], ch);
  }

  lemma InSnoc(x: string, ch: char)
    ensures '@' in x + [ch] <==> '@' in x || ch == '@'
  {}

  lemma AtState(s: State, ch: char)
    ensures var t := ParseUrlChar(s, ch); (t.ReqServerWithAt? ==> ch == '@') && (t.ReqServer? ==> ch != '@')
  {}

  class HttpUrl {
    var fieldSet: set<Field>
    var fieldData: map<Field, Span>
    var port: nat

    ghost predicate Valid()
      reads this
    {
      forall f: Field :: f in fieldData
    }

    constructor ()
      ensures Valid() && fieldSet == {} && port == 0
    {
      fieldSet := {};
      fieldData := map[SchemaField := Span(0, 0), HostField := Span(0, 0), PortField := Span(0, 0), PathField := Span(0, 0),
                       QueryField := Span(0, 0), FragmentField := Span(0, 0), UserinfoField := Span(0, 0)];
      port := 0;
      new;
      forall f: Field ensures f in fieldData {
        match f case SchemaField => case _ =>
      }
    }

    /** One character of an outer field, at `at`. */
    method MarkField(uf: Field, oldUf: Option<Field>, at: nat, ghost ps: Parts, ghost ch: char)
      requires Valid() && Marked(fieldSet, fieldData, ps) && oldUf == LastField(ps) && at == |Join(ps)|
      requires IsOuter(uf) && EmptyAfter(ps, PartOf(uf))
      modifies this`fieldSet, this`fieldData
      ensures Valid() && Marked(fieldSet, fieldData, Add(ps, PartOf(uf), ch)) && LastField(Add(ps, PartOf(uf), ch)) == Some(uf)
    {
      hide Join, EmptyAfter, Offset, U16, Add, Marked, LastField;
      if ps[PartOf(uf)] != "" {
        MarkMore(fieldSet, fieldData, ps, uf, ch);
      } else {
        MarkNew(fieldSet, fieldData, ps, uf, ch);
      }
      if oldUf == Some(uf) {
        fieldData := fieldData[uf := fieldData[uf].(len := U16(fieldData[uf].len + 1))];
        return;
      }
      fieldData := fieldData[uf := Span(U16(at), 1)];
      fieldSet := fieldSet + {uf};
    }

    /** The first pass: marks the outer fields, the whole authority as the host. */
    method MarkFields(buf: string, isConnect: bool) returns (ok: bool, foundAt: bool)
      requires Valid() && fieldSet == {}
      modifies this`fieldSet, this`fieldData
      ensures Valid()
      ensures var u := UrlScan(buf, isConnect);
              && (ok <==> !u.state.Dead?)
              && (ok ==> Marked(fieldSet, fieldData, u.parts) && (foundAt <==> '@' in u.parts[AUTHORITY]))
    {
      hide Join, EmptyAfter, Offset, U16, Add, ParseUrlChar, Marked, LastField;
      var s := if isConnect then ReqServerStart else ReqSpacesBeforeUrl;
      var oldUf: Option<Field> := None;
      foundAt := false;
      NothingMarked(fieldData);
      assert buf[..0] == "";
      for i := 0 to |buf|
        invariant Valid()
        invariant var u := UrlScan(buf[..i], isConnect);
                  && s == u.state && !s.Dead? && Marked(fieldSet, fieldData, u.parts)
                  && oldUf == LastField(u.parts) && (foundAt <==> '@' in u.parts[AUTHORITY])
      {
        ghost var u := UrlScan(buf[..i], isConnect);
        assert buf[..i + 1][..i] == buf[..i];
        s := ParseUrlChar(s, buf[i]);
        if s.Dead? {
          ScanDies(buf, isConnect, i + 1);
          return false, foundAt;
        }
        ScanSnoc(buf, isConnect, i);
        AtSeen(u.parts, u.state, buf[i]);
        AliveState(u.state, buf[i]);
        if s.ReqSchemaSlash? || s.ReqSchemaSlashSlash? || s.ReqServerStart? || s.ReqQueryStringStart? || s.ReqFragmentStart? {
          MarkSkip(fieldSet, fieldData, u.parts, UrlSlot(s), buf[i]);
          continue;
        }
        var uf;
        if s.ReqSchema? {
          uf := SchemaField;
        } else if s.ReqServerWithAt? {
          foundAt := true;
          uf := HostField;
        } else if s.ReqServer? {
          uf := HostField;
        } else if s.ReqPath? {
          uf := PathField;
        } else if s.ReqQueryString? {
          uf := QueryField;
        } else {
          assert s.ReqFragment?;
          uf := FragmentField;
        }
        MarkField(uf, oldUf, i, u.parts, buf[i]);
        oldUf := Some(uf);
      }
      assert buf[..|buf|] == buf;
      ok := true;
    }

    /** Parses a URL into this struct: succeeds exactly on the accepted texts, and then holds the components that
        the passes see. */
    method ParseUrl(buf: string, isConnect: bool) returns (failed: bool)
      requires Valid()
      modifies this
      ensures Valid() && (!failed <==> Accepted(buf, isConnect))
      ensures !failed ==>
                && Describes(fieldSet, fieldData, TheParts(buf, isConnect), SeenParts(buf, isConnect))
                && Some(port) == PortRead(SeenPort(buf, isConnect))
    {
      hide Join, Offset, U16, Marked, HostMarked, Describes, SameOuter, HostMayEnd, OnlyHostAndPort, UrlScan, HostScan, Start, Cut;
      if |buf| == 0 {
        return true;
      }
      port, fieldSet := 0, {};
      var ok, foundAt := MarkFields(buf, isConnect);
      if !ok {
        return true;
      }
      ghost var fs, fd := fieldSet, fieldData;
      MarkedOuter(buf, isConnect, fs, fd);
      if SchemaField in fieldSet && HostField !in fieldSet {
        return true;
      }
      if HostField in fieldSet {
        ok := ParseHost(buf, foundAt);
        if !ok {
          return true;
        }
      }
      Describe(buf, isConnect, fs, fd, fieldSet, fieldData);
      if isConnect && fieldSet != {HostField, PortField} {
        return true;
      }
      if PortField in fieldSet {
        var off, len := fieldData[PortField].off, fieldData[PortField].len;
        var v;
        ok, v := ParsePort(buf[off..off + len]);
        if !ok {
          return true;
        }
        port := v;
      } else {
        NoPortSeen(buf, isConnect);
      }
      return false;
    }

    /** One character of the authority, at `at`: the field it belongs to is extended, or set when it is the first. */
    method MarkInner(s: HostState, t: HostState, at: nat, ghost begin: nat, ghost hs: Parts, ghost ch: char)
      requires Valid() && HostMarked(fieldSet, fieldData, begin, hs) && at == begin + |Join(hs)|
      requires EmptyAfter(hs, HostSlot(t)) && Moves(s, t, hs)
      modifies this`fieldSet, this`fieldData
      ensures Valid() && HostMarked(fieldSet, fieldData, begin, Add(hs, HostSlot(t), ch))
      ensures SameOuter(fieldSet, fieldData, old(fieldSet), old(fieldData))
    {
      hide Join, EmptyAfter, Offset, U16, Add, HostMarked, HostSlot, SameOuter;
      OneFits();
      if t.Host? || t.V6? {
        if s != t {
          fieldData := fieldData[HostField := fieldData[HostField].(off := U16(at))];
        }
        fieldData := fieldData[HostField := fieldData[HostField].(len := U16(fieldData[HostField].len + 1))];
        HostMarkHost(fieldSet, old(fieldData), fieldData, begin, hs, ch);
      } else if t.V6ZoneStart? || t.V6Zone? {
        fieldData := fieldData[HostField := fieldData[HostField].(len := U16(fieldData[HostField].len + 1))];
        HostMarkZone(fieldSet, old(fieldData), fieldData, begin, hs, ch);
      } else if t.Port? {
        if !s.Port? {
          fieldData := fieldData[PortField := Span(U16(at), 0)];
          fieldSet := fieldSet + {PortField};
        }
        fieldData := fieldData[PortField := fieldData[PortField].(len := U16(fieldData[PortField].len + 1))];
        HostMarkPort(old(fieldSet), old(fieldData), fieldSet, fieldData, begin, hs, ch);
      } else if t.Userinfo? {
        if !s.Userinfo? {
          fieldData := fieldData[UserinfoField := Span(U16(at), 0)];
          fieldSet := fieldSet + {UserinfoField};
        }
        fieldData := fieldData[UserinfoField := fieldData[UserinfoField].(len := U16(fieldData[UserinfoField].len + 1))];
        HostMarkUserinfo(old(fieldSet), old(fieldData), fieldSet, fieldData, begin, hs, ch);
      } else {
        HostMarkSkip(fieldSet, fieldData, begin, hs, HostSlot(t), ch);
      }
      ChangedOnly(old(fieldSet), old(fieldData), fieldSet, fieldData, ChangedBy(t));
    }

    /** The second pass: splits the span that is marked as the host. */
    method ParseHost(buf: string, foundAt: bool) returns (ok: bool)
      requires Valid() && HostField in fieldSet && UserinfoField !in fieldSet && PortField !in fieldSet
      requires fieldData[HostField].off + fieldData[HostField].len <= |buf|
      modifies this`fieldSet, this`fieldData
      ensures Valid()
      ensures var off := old(fieldData)[HostField].off;
              var h := HostScan(buf[off..off + old(fieldData)[HostField].len], foundAt);
              && (ok <==> HostMayEnd(h.state))
              && (ok ==> HostMarked(fieldSet, fieldData, off, h.parts) && SameOuter(fieldSet, fieldData, old(fieldSet), old(fieldData)))
    {
      hide Join, EmptyAfter, Offset, U16, Add, ParseHostChar, HostMarked, HostSlot, SameOuter, Moves;
      var begin := fieldData[HostField].off;
      var text := buf[begin..begin + fieldData[HostField].len];
      fieldData := fieldData[HostField := fieldData[HostField].(len := 0)];
      NothingHostMarked(old(fieldSet), old(fieldData), fieldData, begin);
      var s := if foundAt then UserinfoStart else HostStart;
      assert text[..0] == "";
      for i := 0 to |text|
        invariant Valid() && SameOuter(fieldSet, fieldData, old(fieldSet), old(fieldData))
        invariant var h := HostScan(text[..i], foundAt);
                  s == h.state && !s.HostDead? && HostMarked(fieldSet, fieldData, begin, h.parts)
      {
        ghost var h := HostScan(text[..i], foundAt);
        assert text[..i + 1][..i] == text[..i];
        var t := ParseHostChar(s, text[i]);
        if t.HostDead? {
          HostScanDies(text, foundAt, i + 1);
          return false;
        }
        HostScanSnoc(text, foundAt, i);
        HostMoves(text[..i], foundAt, text[i]);
        ghost var fs, fd := fieldSet, fieldData;
        MarkInner(s, t, begin + i, begin, h.parts, text[i]);
        SameOuterTwice(fieldSet, fieldData, fs, fd, old(fieldSet), old(fieldData));
        s := t;
      }
      assert text[..|text|] == text;
      ok := !(s.HostStart? || s.V6Start? || s.V6? || s.V6ZoneStart? || s.V6Zone? || s.PortStart? || s.Userinfo? || s.UserinfoStart?);
    }
  }

  /** What entering a part or staying in it says about that part. */
  predicate Moves(s: HostState, t: HostState, hs: Parts) {
    && (t.Host? || t.V6? ==> HostSlot(t) == HOST && (s == t <==> hs[HOST] != ""))
    && (t.V6ZoneStart? || t.V6Zone? ==> HostSlot(t) == ZONE)
    && (t.HostStart? || t.V6Start? || t.V6End? || t.PortStart? ==> HostSlot(t) in {AT, OPEN, CLOSE, COLON})
    && (t.Port? ==> HostSlot(t) == PORT && (s.Port? <==> hs[PORT] != ""))
    && !t.UserinfoStart? && !t.HostDead?
    && (t.Userinfo? ==> HostSlot(t) == USERINFO && (s.Userinfo? <==> hs[USERINFO] != ""))
  }

  lemma HostMoves(text: string, foundAt: bool, ch: char)
    requires var h := HostScan(text, foundAt);
             !h.state.HostDead? && !ParseHostChar(h.state, ch).HostDead?
    ensures var h := HostScan(text, foundAt); var t := ParseHostChar(h.state, ch);
            Moves(h.state, t, h.parts)
  {
    HostScanSound(text, foundAt);
  }

  /** The field that the second pass changes on entering state `t`. */
  function ChangedBy(t: HostState): Field {
    if t.Port? then PortField else if t.Userinfo? then UserinfoField else HostField
  }

  lemma ChangedOnly(fs: set<Field>, fd: map<Field, Span>, gs: set<Field>, gd: map<Field, Span>, f: Field)
    requires OnlyDiffersAt(fs, fd, gs, gd, f) && (f.HostField? ==> gs == fs)
    requires f.HostField? || !IsOuter(f)
    ensures SameOuter(gs, gd, fs, fd)
  {}

  lemma SameOuterTwice(hs: set<Field>, hd: map<Field, Span>, gs: set<Field>, gd: map<Field, Span>, fs: set<Field>, fd: map<Field, Span>)
    requires SameOuter(hs, hd, gs, gd) && SameOuter(gs, gd, fs, fd)
    ensures SameOuter(hs, hd, fs, fd)
  {}

  lemma OneFits()
    ensures U16(1) == 1
  {}

  lemma NothingHostMarked(fieldSet: set<Field>, fd: map<Field, Span>, fieldData: map<Field, Span>, base: nat)
    requires forall f: Field :: f in fd
    requires UserinfoField !in fieldSet && PortField !in fieldSet
    requires fieldData == fd[HostField := fd[HostField].(len := 0)]
    ensures HostMarked(fieldSet, fieldData, base, NO_PARTS) && SameOuter(fieldSet, fieldData, fieldSet, fd)
  {}

  lemma NothingMarked(fieldData: map<Field, Span>)
    requires forall f: Field :: f in fieldData
    ensures Marked({}, fieldData, NO_PARTS) && LastField(NO_PARTS) == None
  {}

  lemma AliveState(s: State, ch: char)
    ensures var t := ParseUrlChar(s, ch);
            || t.Dead? || t.ReqSchemaSlash? || t.ReqSchemaSlashSlash? || t.ReqServerStart? || t.ReqQueryStringStart?
            || t.ReqFragmentStart? || t.ReqSchema? || t.ReqServerWithAt? || t.ReqServer? || t.ReqPath?
            || t.ReqQueryString? || t.ReqFragment?
  {}

  lemma HostCompleteIffMayEnd(hs: Parts, foundAt: bool)
    requires HostShape(hs, foundAt)
    ensures HostComplete(hs) <==> HostMayEnd(HostStateOf(hs, foundAt))
  {}

  lemma {:induction false} IsAuthorityScan(authority: string, hs: Parts)
    ensures IsAuthority(authority, hs) <==>
            var h := HostScan(authority, '@' in authority); HostMayEnd(h.state) && h.parts == hs
  {
    var foundAt := '@' in authority;
    var h := HostScan(authority, foundAt);
    hide HostShape, HostStateOf, Join, HostComplete;
    if IsAuthority(authority, hs) {
      HostScanComplete(hs, foundAt);
      HostCompleteIffMayEnd(hs, foundAt);
    }
    if HostMayEnd(h.state) && h.parts == hs {
      HostScanSound(authority, foundAt);
      HostCompleteIffMayEnd(hs, foundAt);
    }
  }

  /** The parts of a URL are those into which the two machines split it. */
  lemma WrittenScan(buf: string, connect: bool, ps: Parts, hs: Parts)
    ensures Written(buf, connect, ps, hs) <==>
            var u := UrlScan(buf, connect);
            && buf != "" && !u.state.Dead? && u.parts == ps
            && (if ps[AUTHORITY] == "" then ps[SCHEME] == "" && hs == NO_PARTS
                else var h := HostScan(ps[AUTHORITY], '@' in ps[AUTHORITY]); HostMayEnd(h.state) && h.parts == hs)
            && All(IsNum, hs[PORT]) && PortValue(hs[PORT]) < UINT16_RANGE
            && (connect ==> OnlyHostAndPort(ps, hs))
  {
    hide UrlShape, UrlStateOf, Join, IsAuthority, HostMayEnd, PortValue, All;
    if ps[AUTHORITY] != "" {
      IsAuthorityScan(ps[AUTHORITY], hs);
    }
    if UrlShape(ps, connect) {
      UrlScanComplete(ps, connect);
    }
    if !UrlScan(buf, connect).state.Dead? {
      UrlScanSound(buf, connect);
    }
  }

  /** A text is a URL in at most one way. */
  lemma OneWay(buf: string, connect: bool)
    ensures forall ps, hs :: Written(buf, connect, ps, hs) ==> ps == TheParts(buf, connect) && hs == TheHostParts(buf, connect)
  {
    forall ps, hs | Written(buf, connect, ps, hs) ensures ps == TheParts(buf, connect) && hs == TheHostParts(buf, connect) {
      WrittenScan(buf, connect, ps, hs);
    }
  }

  lemma SmallFits(n: nat)
    requires n < UINT16_RANGE
    ensures U16(n) == n
  {}

  lemma U16Below(n: nat)
    ensures U16(n) <= n && U16(n) < UINT16_RANGE
  {}

  lemma PartIsSlice(ps: Parts, k: nat)
    requires k < 8
    ensures Offset(ps, k) + |ps[k]| <= |Join(ps)| && Join(ps)[Offset(ps, k)..Offset(ps, k) + |ps[k]|] == ps[k]
  {
    OffsetsGrow(ps, k, k + 1);
    JoinAt(ps, k);
    assert ps[k..k + 1] == [ps[k]];
    assert [ps[k]][..0] == [];
    assert Join([ps[k]]) == ps[k];
  }

  lemma SliceOfSlice(s: string, a: nat, b: nat, i: nat, n: nat)
    requires a <= b <= |s| && i + n <= b - a
    ensures s[a..b][i..i + n] == s[a + i..a + i + n]
  {
    var x, y := s[a..b][i..i + n], s[a + i..a + i + n];
    assert |x| == |y| && forall k :: 0 <= k < n ==> x[k] == y[k];
  }

  lemma MarkedGives(fs: set<Field>, fd: map<Field, Span>, ps: Parts)
    requires Marked(fs, fd, ps)
    ensures (SchemaField in fs <==> ps[SCHEME] != "") && (HostField in fs <==> ps[AUTHORITY] != "")
    ensures UserinfoField !in fs && PortField !in fs && HostField in fd
    ensures HostField in fs ==> fd[HostField] == Span(U16(Offset(ps, AUTHORITY)), U16(|ps[AUTHORITY]|))
  {
    hide Offset, U16;
  }

  lemma U16Add(a: nat, b: nat)
    ensures U16(U16(a) + b) == U16(a + b)
  {}

  lemma MarkedOuter(buf: string, connect: bool, fs: set<Field>, fd: map<Field, Span>)
    requires !UrlScan(buf, connect).state.Dead? && Marked(fs, fd, TheParts(buf, connect))
    ensures var ps := TheParts(buf, connect);
            && (SchemaField in fs <==> ps[SCHEME] != "") && (HostField in fs <==> ps[AUTHORITY] != "")
            && UserinfoField !in fs && PortField !in fs
            && (HostField in fs ==>
                  var off, len := fd[HostField].off, fd[HostField].len;
                  && off == U16(Offset(ps, AUTHORITY)) && off + len <= |buf|
                  && buf[off..off + len] == SeenAuthority(buf, connect))
  {
    hide Join, Offset, U16, Marked, UrlShape, UrlStateOf, UrlScan;
    var ps := TheParts(buf, connect);
    MarkedGives(fs, fd, ps);
    UrlScanSound(buf, connect);
    PartIsSlice(ps, AUTHORITY);
    U16Below(Offset(ps, AUTHORITY));
    U16Below(|ps[AUTHORITY]|);
  }

  /** What both passes leave behind. */
  predicate Passed(fs: set<Field>, fd: map<Field, Span>, gs: set<Field>, gd: map<Field, Span>, ps: Parts, hs: Parts) {
    && Marked(fs, fd, ps)
    && (if ps[AUTHORITY] == "" then gs == fs && gd == fd && hs == NO_PARTS
        else hs[HOST] != "" && HostMarked(gs, gd, U16(Offset(ps, AUTHORITY)), hs) && SameOuter(gs, gd, fs, fd))
  }

  lemma DescribeOuter(fs: set<Field>, fd: map<Field, Span>, gs: set<Field>, gd: map<Field, Span>, ps: Parts, hs: Parts, f: Field)
    requires Passed(fs, fd, gs, gd, ps, hs) && IsOuter(f) && !f.HostField?
    ensures Described(gs, gd, ps, hs, f)
  {
    assert Start(ps, hs, f) == Offset(ps, PartOf(f)) && Component(ps, hs, f) == ps[PartOf(f)] by {
      assert ps[..0] == [];
    }
    hide Join, Offset, U16, HostMarked, Start, Component;
  }

  lemma DescribeInner(fs: set<Field>, fd: map<Field, Span>, gs: set<Field>, gd: map<Field, Span>, ps: Parts, hs: Parts, f: Field)
    requires Passed(fs, fd, gs, gd, ps, hs) && (!IsOuter(f) || f.HostField?)
    ensures Described(gs, gd, ps, hs, f)
  {
    hide Join, Offset, U16, HostMarked;
    if ps[AUTHORITY] != "" {
      FirstOffset(hs);
      InnerMarks(gs, gd, ps, hs, f);
    }
  }

  lemma FirstOffset(ps: Parts)
    ensures Offset(ps, 0) == 0
  {}

  lemma InnerMarks(gs: set<Field>, gd: map<Field, Span>, ps: Parts, hs: Parts, f: Field)
    requires !IsOuter(f) || f.HostField?
    requires HostMarked(gs, gd, U16(Offset(ps, AUTHORITY)), hs) && HostField in gs && hs[HOST] != "" && Offset(hs, USERINFO) == 0
    ensures Described(gs, gd, ps, hs, f)
  {
    hide Offset, U16;
    U16Add(Offset(ps, AUTHORITY), 0);
    U16Add(Offset(ps, AUTHORITY), Offset(hs, HOST));
    U16Add(Offset(ps, AUTHORITY), Offset(hs, PORT));
  }

  lemma HostBeforeZone(hs: Parts)
    ensures Offset(hs, HOST) + |hs[HOST]| + |hs[ZONE]| <= |Join(hs)|
    ensures Join(hs)[Offset(hs, HOST)..Offset(hs, HOST) + |hs[HOST]| + |hs[ZONE]|] == hs[HOST] + hs[ZONE]
  {
    hide Join;
    PartIsSlice(hs, HOST);
    PartIsSlice(hs, ZONE);
    JoinAt(hs, HOST);
  }

  /** The marks of both passes are what they see. */
  lemma Describe(buf: string, connect: bool, fs: set<Field>, fd: map<Field, Span>, gs: set<Field>, gd: map<Field, Span>)
    requires !UrlScan(buf, connect).state.Dead? && Marked(fs, fd, TheParts(buf, connect))
    requires var ps, h := TheParts(buf, connect), SeenHost(buf, connect);
             if ps[AUTHORITY] == "" then gs == fs && gd == fd
             else HostMayEnd(h.state) && HostMarked(gs, gd, U16(Offset(ps, AUTHORITY)), h.parts) && SameOuter(gs, gd, fs, fd)
    ensures var ps, hs := TheParts(buf, connect), SeenParts(buf, connect);
            && Describes(gs, gd, ps, hs) && (PortField in gs <==> hs[PORT] != "")
            && (PortField in gs ==>
                  var off, len := gd[PortField].off, gd[PortField].len;
                  off + len <= |buf| && buf[off..off + len] == SeenPort(buf, connect))
            && (connect ==> (gs == {HostField, PortField} <==> OnlyHostAndPort(ps, hs)))
  {
    hide Join, Offset, U16, HostMarked, SameOuter, Marked, HostMayEnd, UrlShape, HostScan, UrlScan, Described, Start, Cut, OnlyHostAndPort;
    var ps, hs := TheParts(buf, connect), SeenParts(buf, connect);
    UrlScanSound(buf, connect);
    if ps[AUTHORITY] != "" {
      SeenHostThere(buf, connect);
    }
    assert Passed(fs, fd, gs, gd, ps, hs);
    forall f: Field ensures Described(gs, gd, ps, hs, f) {
      if IsOuter(f) && !f.HostField? {
        DescribeOuter(fs, fd, gs, gd, ps, hs, f);
      } else {
        DescribeInner(fs, fd, gs, gd, ps, hs, f);
      }
    }
    PortInBounds(buf, connect, gs, gd);
    ForConnect(gs, gd, ps, hs, connect);
  }

  lemma SeenHostThere(buf: string, connect: bool)
    requires HostMayEnd(SeenHost(buf, connect).state)
    ensures SeenHost(buf, connect).parts[HOST] != ""
  {
    hide HostShape, Join, HostStateOf;
    var text, foundAt := SeenAuthority(buf, connect), '@' in TheParts(buf, connect)[AUTHORITY];
    AliveAtEnd(HostScan(text, foundAt).state);
    HostScanSound(text, foundAt);
    HostCompleteIffMayEnd(HostScan(text, foundAt).parts, foundAt);
  }

  lemma NoPortSeen(buf: string, connect: bool)
    requires SeenParts(buf, connect)[PORT] == ""
    ensures SeenPort(buf, connect) == "" && PortRead("") == Some(0)
  {}

  lemma AliveAtEnd(s: HostState)
    requires HostMayEnd(s)
    ensures !s.HostDead?
  {}

  /** The port that is seen lies inside the authority that is seen. */
  lemma PortInBounds(buf: string, connect: bool, gs: set<Field>, gd: map<Field, Span>)
    requires var ps, hs := TheParts(buf, connect), SeenParts(buf, connect);
             && Described(gs, gd, ps, hs, PortField) && !UrlScan(buf, connect).state.Dead?
             && (ps[AUTHORITY] != "" ==> HostMayEnd(SeenHost(buf, connect).state))
    ensures PortField in gs ==>
              var off, len := gd[PortField].off, gd[PortField].len;
              off + len <= |buf| && buf[off..off + len] == SeenPort(buf, connect)
  {
    hide Join, Offset, U16, HostShape, HostStateOf, HostMayEnd, HostScan, UrlScan, UrlShape, UrlStateOf;
    var ps, hs := TheParts(buf, connect), SeenParts(buf, connect);
    if PortField in gs && ps[AUTHORITY] != "" {
      var text, foundAt := SeenAuthority(buf, connect), '@' in ps[AUTHORITY];
      AliveAtEnd(HostScan(text, foundAt).state);
      HostScanSound(text, foundAt);
      PartIsSlice(hs, PORT);
      SeenInBounds(buf, connect);
      U16Add(Offset(ps, AUTHORITY), Offset(hs, PORT));
      U16Below(U16(Offset(ps, AUTHORITY)) + Offset(hs, PORT));
      U16Below(|hs[PORT]|);
    }
  }

  lemma SeenInBounds(buf: string, connect: bool)
    requires !UrlScan(buf, connect).state.Dead?
    ensures var ps := TheParts(buf, connect);
            U16(Offset(ps, AUTHORITY)) + |SeenAuthority(buf, connect)| <= |buf| && |SeenAuthority(buf, connect)| == U16(|ps[AUTHORITY]|)
  {
    hide Join, Offset, U16, UrlShape, UrlStateOf, UrlScan;
    var ps := TheParts(buf, connect);
    UrlScanSound(buf, connect);
    PartIsSlice(ps, AUTHORITY);
    U16Below(Offset(ps, AUTHORITY));
    U16Below(|ps[AUTHORITY]|);
  }

  lemma ForConnect(gs: set<Field>, gd: map<Field, Span>, ps: Parts, hs: Parts, connect: bool)
    requires forall f: Field :: Described(gs, gd, ps, hs, f)
    requires UrlShape(ps, connect) && (ps[AUTHORITY] == "" ==> hs == NO_PARTS) && (ps[AUTHORITY] != "" ==> hs[HOST] != "")
    ensures connect ==> (gs == {HostField, PortField} <==> OnlyHostAndPort(ps, hs))
    ensures PortField in gs <==> hs[PORT] != ""
  {
    assert Described(gs, gd, ps, hs, HostField) && Described(gs, gd, ps, hs, PortField);
    assert Described(gs, gd, ps, hs, PathField) && Described(gs, gd, ps, hs, UserinfoField);
    assert Described(gs, gd, ps, hs, QueryField) && Described(gs, gd, ps, hs, FragmentField);
    if connect && OnlyHostAndPort(ps, hs) {
      forall f: Field ensures f in gs <==> f.HostField? || f.PortField? {
        assert Described(gs, gd, ps, hs, f);
      }
    }
  }

  // ---------------------------------------------------------------- the fields of a URL

  function Rank(f: Field): nat {
    match f
    case SchemaField => 0
    case UserinfoField => 1
    case HostField => 2
    case PortField => 3
    case PathField => 4
    case QueryField => 5
    case FragmentField => 6
  }

  predicate Inside(ps: Parts, hs: Parts, f: Field, i: nat) {
    Start(ps, hs, f) <= i < Start(ps, hs, f) + |Component(ps, hs, f)|
  }

  predicate IsUrlDelimiter(c: char) {
    c == ':' || c == '/' || c == '@' || c == '[' || c == ']' || c == '?' || c == '#'
  }

  /** Each component is a span of the text, and the spans come in the order scheme, userinfo, host, port,
      path, query, fragment without overlapping. */
  lemma FieldsInOrder(buf: string, connect: bool, ps: Parts, hs: Parts, f: Field, g: Field)
    requires Written(buf, connect, ps, hs)
    ensures Start(ps, hs, f) + |Component(ps, hs, f)| <= |buf|
    ensures buf[Start(ps, hs, f)..Start(ps, hs, f) + |Component(ps, hs, f)|] == Component(ps, hs, f)
    ensures Rank(f) < Rank(g) ==> Start(ps, hs, f) + |Component(ps, hs, f)| <= Start(ps, hs, g)
  {
    assert ps[AUTHORITY] == "" ==> Join(hs) == "" by { JoinUpTo(NO_PARTS, 0); }
    hide Join, UrlShape, HostShape, All, PortValue, HostComplete;
    FieldIsSpan(ps, hs, f);
    if Rank(f) < Rank(g) {
      FieldsApart(ps, hs, f, g);
    }
  }

  lemma FieldIsSpan(ps: Parts, hs: Parts, f: Field)
    requires Join(hs) == ps[AUTHORITY]
    ensures Start(ps, hs, f) + |Component(ps, hs, f)| <= |Join(ps)|
    ensures Join(ps)[Start(ps, hs, f)..Start(ps, hs, f) + |Component(ps, hs, f)|] == Component(ps, hs, f)
  {
    hide Join, Offset, Component, Start;
    var k := OuterPart(f);
    FieldInPart(ps, hs, f);
    PartIsSlice(ps, k);
    var o := Offset(ps, k);
    SliceOfSlice(Join(ps), o, o + |ps[k]|, Start(ps, hs, f) - o, |Component(ps, hs, f)|);
  }

  lemma FieldsApart(ps: Parts, hs: Parts, f: Field, g: Field)
    requires Join(hs) == ps[AUTHORITY] && Rank(f) < Rank(g)
    ensures Start(ps, hs, f) + |Component(ps, hs, f)| <= Start(ps, hs, g)
  {
    var k, j := OuterPart(f), OuterPart(g);
    assert hs[..0] == [] && Join([]) == "";
    hide Join;
    FieldInPart(ps, hs, f);
    FieldInPart(ps, hs, g);
    if k < j {
      OffsetsGrow(ps, k, j);
    } else {
      InnerOrder(hs);
    }
  }

  /** The outer part that holds field `f`. */
  function OuterPart(f: Field): (k: nat)
    ensures k < 8
  {
    if IsOuter(f) then PartOf(f) else AUTHORITY
  }

  lemma FieldInPart(ps: Parts, hs: Parts, f: Field)
    requires Join(hs) == ps[AUTHORITY]
    ensures var k := OuterPart(f); var i := Start(ps, hs, f) - Offset(ps, k);
            && 0 <= i <= i + |Component(ps, hs, f)| <= |ps[k]|
            && ps[k][i..i + |Component(ps, hs, f)|] == Component(ps, hs, f)
  {
    assert ps[..0] == [] && hs[..0] == [];
    assert Join([]) == "";
    hide Join;
    HostBeforeZone(hs);
    PartIsSlice(hs, USERINFO);
    PartIsSlice(hs, PORT);
  }

  lemma InnerOrder(hs: Parts)
    ensures |hs[USERINFO]| <= Offset(hs, HOST) && Offset(hs, HOST) + |hs[HOST]| + |hs[ZONE]| <= Offset(hs, PORT)
  {
    assert hs[..0] == [] && Join([]) == "";
    hide Join;
    OffsetsGrow(hs, USERINFO, HOST);
    OffsetsGrow(hs, ZONE, PORT);
    JoinAt(hs, HOST);
  }

  lemma {:induction false} Locate(ps: seq<string>, i: nat) returns (k: nat)
    requires i < |Join(ps)|
    ensures k < |ps| && Offset(ps, k) <= i < Offset(ps, k) + |ps[k]| && Join(ps)[i] == ps[k][i - Offset(ps, k)]
    decreases |ps|
  {
    var n := |ps| - 1;
    if i < |Join(ps[..n])| {
      k := Locate(ps[..n], i);
      assert ps[..n][..k] == ps[..k];
    } else {
      k := n;
    }
  }

  /** Every character of a URL is in a component or is a delimiter. */
  lemma OnlyDelimitersBetween(buf: string, connect: bool, ps: Parts, hs: Parts, i: nat)
    requires Written(buf, connect, ps, hs) && i < |buf|
    ensures IsUrlDelimiter(buf[i]) || exists f: Field :: Inside(ps, hs, f, i)
  {
    var k := Locate(ps, i);
    assert ps[..0] == [] && Join([]) == "";
    hide Join;
    if k == SCHEME {
      assert Inside(ps, hs, SchemaField, i);
    } else if k == PATH {
      assert Inside(ps, hs, PathField, i);
    } else if k == QUERY {
      assert Inside(ps, hs, QueryField, i);
    } else if k == FRAGMENT {
      assert Inside(ps, hs, FragmentField, i);
    } else if k == AUTHORITY {
      InAuthority(ps, hs, i - Offset(ps, AUTHORITY), i);
    }
  }

  lemma InAuthority(ps: Parts, hs: Parts, i: nat, at: nat)
    requires IsAuthority(ps[AUTHORITY], hs) && i < |ps[AUTHORITY]| && at == Offset(ps, AUTHORITY) + i
    ensures IsUrlDelimiter(ps[AUTHORITY][i]) || exists f: Field :: Inside(ps, hs, f, at)
  {
    var k := Locate(hs, i);
    assert hs[..0] == [] && Join([]) == "";
    hide Join;
    if k == USERINFO {
      assert Inside(ps, hs, UserinfoField, at);
    } else if k == HOST {
      assert Inside(ps, hs, HostField, at);
    } else if k == ZONE {
      JoinAt(hs, HOST);
      assert Inside(ps, hs, HostField, at);
    } else if k == PORT {
      assert Inside(ps, hs, PortField, at);
    }
  }
}
