/** What 16 bits for offsets and lengths do to long texts: exactly which URLs are recorded right, and what becomes
    of others. */
module UrlBounds {
  import opened HttpSyntax
  import opened HttpMachine
  import opened UrlGrammar
  import opened UrlHost
  import opened UrlParsing
  import opened Wrappers

  // ---------------------------------------------------------------- URLs that are recorded right

  /** Nothing is cut: the authority is shorter than 2^16, and every component begins before 2^16 and is shorter. */
  predicate Fits16(ps: Parts, hs: Parts) {
    |ps[AUTHORITY]| < UINT16_RANGE && forall f: Field :: FieldFits(ps, hs, f)
  }

  predicate FieldFits(ps: Parts, hs: Parts, f: Field) {
    Component(ps, hs, f) != "" ==> Start(ps, hs, f) < UINT16_RANGE && |Component(ps, hs, f)| < UINT16_RANGE
  }

  /** What `ParseUrl` records of component `f` of a URL is the component at its place. */
  predicate SeenRight(buf: string, connect: bool, ps: Parts, hs: Parts, f: Field) {
    var qs, gs := TheParts(buf, connect), SeenParts(buf, connect);
    && (Component(qs, gs, f) != "" <==> Component(ps, hs, f) != "")
    && (Component(ps, hs, f) != "" ==>
          U16(Start(qs, gs, f)) == Start(ps, hs, f) && U16(|Component(qs, gs, f)|) == |Component(ps, hs, f)|)
  }

  predicate RecordedRight(buf: string, connect: bool, ps: Parts, hs: Parts) {
    Accepted(buf, connect) && forall f: Field :: SeenRight(buf, connect, ps, hs, f)
  }

  lemma WrittenParts(buf: string, connect: bool, ps: Parts, hs: Parts)
    requires Written(buf, connect, ps, hs)
    ensures TheParts(buf, connect) == ps && TheHostParts(buf, connect) == hs && Join(ps) == buf && buf != ""
    ensures !UrlScan(buf, connect).state.Dead?
    ensures ps[AUTHORITY] == "" ==> ps[SCHEME] == "" && hs == NO_PARTS
    ensures ps[AUTHORITY] != "" ==>
              var h := HostScan(ps[AUTHORITY], '@' in ps[AUTHORITY]);
              HostMayEnd(h.state) && h.parts == hs && Join(hs) == ps[AUTHORITY] && HostShape(hs, '@' in ps[AUTHORITY]) && hs[HOST] != ""
    ensures All(IsNum, hs[PORT]) && PortValue(hs[PORT]) < UINT16_RANGE && (connect ==> OnlyHostAndPort(ps, hs))
  {
    hide UrlShape, HostShape, Join, PortValue, All, UrlScan, HostScan, HostMayEnd, OnlyHostAndPort;
    OneWay(buf, connect);
    WrittenScan(buf, connect, ps, hs);
  }

  /** An authority that begins before 2^16 and is shorter is seen as it is. */
  lemma AuthoritySeen(buf: string, connect: bool)
    requires !UrlScan(buf, connect).state.Dead?
    requires var ps := TheParts(buf, connect); Offset(ps, AUTHORITY) < UINT16_RANGE && |ps[AUTHORITY]| < UINT16_RANGE
    ensures SeenAuthority(buf, connect) == TheParts(buf, connect)[AUTHORITY] && SeenParts(buf, connect) == TheHostParts(buf, connect)
  {
    hide Join, Offset, UrlShape, UrlStateOf, UrlScan, HostScan;
    var ps := TheParts(buf, connect);
    UrlScanSound(buf, connect);
    PartIsSlice(ps, AUTHORITY);
  }

  /** A port that begins before 2^16 is seen as it is. */
  lemma PortSeen(buf: string, connect: bool, ps: Parts, hs: Parts)
    requires Written(buf, connect, ps, hs) && SeenParts(buf, connect) == hs && FieldFits(ps, hs, PortField)
    ensures PortRead(SeenPort(buf, connect)) == Some(PortValue(hs[PORT]))
  {
    hide Join, Offset, Written, Start, UrlScan, HostScan, PortRead, PortValue, All, SeenParts, TheParts;
    WrittenParts(buf, connect, ps, hs);
    PortReadIsValue(hs[PORT]);
    FieldsInOrder(buf, connect, ps, hs, PortField, PortField);
    assert Component(ps, hs, PortField) == hs[PORT];
    U16Below(Start(ps, hs, PortField));
    if hs[PORT] != "" {
      SmallFits(Start(ps, hs, PortField));
      SmallFits(|hs[PORT]|);
    } else {
      NoPortSeen(buf, connect);
    }
  }

  lemma SeenWhole(buf: string, connect: bool, ps: Parts, hs: Parts)
    requires Written(buf, connect, ps, hs) && FieldFits(ps, hs, PortField)
    requires ps[AUTHORITY] != "" ==> Offset(ps, AUTHORITY) < UINT16_RANGE && |ps[AUTHORITY]| < UINT16_RANGE
    ensures Accepted(buf, connect) && SeenParts(buf, connect) == hs && PortRead(SeenPort(buf, connect)) == Some(PortValue(hs[PORT]))
  {
    hide Join, Offset, Written, FieldFits, UrlScan, HostScan, PortRead, PortValue, All, HostShape, OnlyHostAndPort, SeenPort;
    WrittenParts(buf, connect, ps, hs);
    if ps[AUTHORITY] != "" {
      AuthoritySeen(buf, connect);
    }
    PortSeen(buf, connect, ps, hs);
  }

  lemma FittingIsRight(buf: string, connect: bool, ps: Parts, hs: Parts)
    requires Written(buf, connect, ps, hs) && Fits16(ps, hs)
    ensures RecordedRight(buf, connect, ps, hs)
  {
    hide Join, Offset, Written, Start, Component, Accepted, SeenParts, TheParts;
    WrittenParts(buf, connect, ps, hs);
    assert FieldFits(ps, hs, PortField) && FieldFits(ps, hs, HostField);
    HostInAuthority(ps, hs);
    SeenWhole(buf, connect, ps, hs);
    forall f: Field ensures SeenRight(buf, connect, ps, hs, f) {
      assert FieldFits(ps, hs, f);
      if Component(ps, hs, f) != "" {
        SmallFits(Start(ps, hs, f));
        SmallFits(|Component(ps, hs, f)|);
      }
    }
  }

  lemma HostInAuthority(ps: Parts, hs: Parts)
    ensures Start(ps, hs, HostField) >= Offset(ps, AUTHORITY)
    ensures hs[HOST] != "" ==> Component(ps, hs, HostField) != ""
  {}

  /** The delimiters of an authority are four characters at most. */
  lemma AuthorityLength(hs: Parts, foundAt: bool)
    requires HostShape(hs, foundAt)
    ensures var n := |hs[USERINFO]| + |hs[HOST] + hs[ZONE]| + |hs[PORT]|; n <= |Join(hs)| <= n + 4
  {
    JoinEight(hs);
    hide Join, All, HostOrder;
  }

  lemma RightIsFitting(buf: string, connect: bool, ps: Parts, hs: Parts)
    requires Written(buf, connect, ps, hs) && RecordedRight(buf, connect, ps, hs)
    ensures Fits16(ps, hs)
  {
    hide Join, Offset, Written, Start, Accepted, SeenParts, TheParts, HostShape;
    WrittenParts(buf, connect, ps, hs);
    forall f: Field ensures FieldFits(ps, hs, f) {
      assert SeenRight(buf, connect, ps, hs, f);
      U16Below(Start(TheParts(buf, connect), SeenParts(buf, connect), f));
      U16Below(|Component(TheParts(buf, connect), SeenParts(buf, connect), f)|);
    }
    if ps[AUTHORITY] != "" {
      AuthorityNotCut(buf, connect, ps, hs);
    }
  }

  /** If the authority were cut, what is seen would be shorter by 2^16 at least. */
  lemma AuthorityNotCut(buf: string, connect: bool, ps: Parts, hs: Parts)
    requires Written(buf, connect, ps, hs) && RecordedRight(buf, connect, ps, hs) && ps[AUTHORITY] != ""
    ensures |ps[AUTHORITY]| < UINT16_RANGE
  {
    hide Join, Offset, Written, Start, HostShape, HostMayEnd, HostScan, UrlScan, PortRead, HostStateOf;
    WrittenParts(buf, connect, ps, hs);
    var gs, foundAt := SeenParts(buf, connect), '@' in ps[AUTHORITY];
    AliveAtEnd(SeenHost(buf, connect).state);
    HostScanSound(SeenAuthority(buf, connect), foundAt);
    SeenInBounds(buf, connect);
    AuthorityLength(hs, foundAt);
    AuthorityLength(gs, foundAt);
    U16Below(|ps[AUTHORITY]|);
    ShortComponent(buf, connect, ps, hs, UserinfoField);
    ShortComponent(buf, connect, ps, hs, HostField);
    ShortComponent(buf, connect, ps, hs, PortField);
  }

  lemma ShortComponent(buf: string, connect: bool, ps: Parts, hs: Parts, f: Field)
    requires SeenRight(buf, connect, ps, hs, f) && |Component(TheParts(buf, connect), SeenParts(buf, connect), f)| < UINT16_RANGE
    ensures |Component(TheParts(buf, connect), SeenParts(buf, connect), f)| == |Component(ps, hs, f)|
  {
    SmallFits(|Component(TheParts(buf, connect), SeenParts(buf, connect), f)|);
  }

  /** A URL is accepted and its components recorded at their places exactly if nothing is cut. */
  lemma RecordedExactly(buf: string, connect: bool, ps: Parts, hs: Parts)
    requires Written(buf, connect, ps, hs)
    ensures RecordedRight(buf, connect, ps, hs) <==> Fits16(ps, hs)
  {
    hide Written, RecordedRight, Fits16;
    if Fits16(ps, hs) {
      FittingIsRight(buf, connect, ps, hs);
    }
    if RecordedRight(buf, connect, ps, hs) {
      RightIsFitting(buf, connect, ps, hs);
    }
  }

  // ---------------------------------------------------------------- texts whose authority ends before 2^16

  predicate Near(ps: Parts) {
    Offset(ps, AUTHORITY) + |ps[AUTHORITY]| < UINT16_RANGE
  }

  /** Every shorter text is one, and every text without an authority that is not too far off. */
  predicate ShortHead(buf: string, connect: bool) {
    !UrlScan(buf, connect).state.Dead? ==> Near(TheParts(buf, connect))
  }

  lemma ShortTextHasShortHead(buf: string, connect: bool)
    requires |buf| < UINT16_RANGE
    ensures ShortHead(buf, connect)
  {
    hide Join, UrlShape, UrlStateOf;
    if !UrlScan(buf, connect).state.Dead? {
      UrlScanSound(buf, connect);
      PartIsSlice(TheParts(buf, connect), AUTHORITY);
    }
  }

  /** Of these texts exactly the URLs are accepted, and split as they should be. */
  lemma ShortHeadExact(buf: string, connect: bool)
    requires ShortHead(buf, connect)
    ensures Accepted(buf, connect) <==> exists ps, hs :: Written(buf, connect, ps, hs)
    ensures forall ps, hs :: Written(buf, connect, ps, hs) ==>
              ps == TheParts(buf, connect) && hs == SeenParts(buf, connect) && PortRead(SeenPort(buf, connect)) == Some(PortValue(hs[PORT]))
  {
    hide Join, Offset, Written, UrlScan, HostScan, PortRead, PortValue, SeenPort, Start, OnlyHostAndPort;
    forall ps, hs | Written(buf, connect, ps, hs)
      ensures Accepted(buf, connect) && ps == TheParts(buf, connect) && hs == SeenParts(buf, connect)
      ensures All(IsNum, hs[PORT]) && PortRead(SeenPort(buf, connect)) == Some(PortValue(hs[PORT]))
    {
      hide Accepted, SeenParts;
      WrittenParts(buf, connect, ps, hs);
      InnerEnds(buf, connect, ps, hs, PortField);
      SeenWhole(buf, connect, ps, hs);
    }
    if Accepted(buf, connect) {
      AcceptedIsWritten(buf, connect);
    }
  }

  lemma InnerEnds(buf: string, connect: bool, ps: Parts, hs: Parts, f: Field)
    requires Written(buf, connect, ps, hs) && (f.SchemaField? || f.UserinfoField? || f.HostField? || f.PortField?)
    ensures Start(ps, hs, f) + |Component(ps, hs, f)| <= Offset(ps, AUTHORITY) + |ps[AUTHORITY]|
  {
    assert ps[AUTHORITY] == "" ==> Join(hs) == "" by { JoinUpTo(NO_PARTS, 0); }
    assert ps[..0] == [] && Join([]) == "";
    hide Join, UrlShape, HostShape, All, PortValue, HostComplete;
    FieldInPart(ps, hs, f);
    OffsetsGrow(ps, SCHEME, AUTHORITY);
  }

  lemma AcceptedIsWritten(buf: string, connect: bool)
    requires Accepted(buf, connect) && Near(TheParts(buf, connect))
    ensures Written(buf, connect, TheParts(buf, connect), TheHostParts(buf, connect))
  {
    hide Join, Offset, Written, UrlScan, HostScan, PortRead, PortValue, Start, OnlyHostAndPort, HostMayEnd, HostShape, HostStateOf;
    var ps, hs := TheParts(buf, connect), TheHostParts(buf, connect);
    AuthoritySeen(buf, connect);
    NumbersOf(buf, connect);
    PortThere(buf, connect);
    PortReadIsValue(hs[PORT]);
    WrittenScan(buf, connect, ps, hs);
  }

  lemma NumbersOf(buf: string, connect: bool)
    requires Accepted(buf, connect)
    ensures All(IsNum, SeenParts(buf, connect)[PORT])
  {
    hide Join, Offset, UrlScan, HostScan, PortRead, Start, OnlyHostAndPort, HostMayEnd, HostStateOf, HostOrder;
    var ps := TheParts(buf, connect);
    if ps[AUTHORITY] != "" {
      AliveAtEnd(SeenHost(buf, connect).state);
      HostScanSound(SeenAuthority(buf, connect), '@' in ps[AUTHORITY]);
    }
  }

  lemma PortThere(buf: string, connect: bool)
    requires Accepted(buf, connect) && Near(TheParts(buf, connect)) && SeenParts(buf, connect) == TheHostParts(buf, connect)
    ensures SeenPort(buf, connect) == TheHostParts(buf, connect)[PORT]
  {
    hide Join, Offset, UrlScan, HostScan, PortRead, OnlyHostAndPort, HostMayEnd, HostStateOf, HostShape, UrlShape, UrlStateOf;
    var ps, hs := TheParts(buf, connect), TheHostParts(buf, connect);
    hide SeenAuthority, SeenParts;
    if ps[AUTHORITY] == "" {
      NothingSeen(buf, connect);
    } else {
      UrlScanSound(buf, connect);
      AuthoritySeen(buf, connect);
      AliveAtEnd(SeenHost(buf, connect).state);
      HostScanSound(ps[AUTHORITY], '@' in ps[AUTHORITY]);
      PartIsSlice(ps, AUTHORITY);
      PartIsSlice(hs, PORT);
      var a, o := Offset(ps, AUTHORITY), Offset(hs, PORT);
      SliceOfSlice(buf, a, a + |ps[AUTHORITY]|, o, |hs[PORT]|);
      SmallFits(a + o);
      SmallFits(|hs[PORT]|);
    }
  }

  lemma NothingSeen(buf: string, connect: bool)
    requires TheParts(buf, connect)[AUTHORITY] == ""
    ensures SeenPort(buf, connect) == "" && TheHostParts(buf, connect) == NO_PARTS
  {}

  // ---------------------------------------------------------------- two families of long hosts

  function HostAlone(host: string): Parts {
    ["", "", "", host, "", "", "", ""]
  }

  lemma JoinHostAlone(host: string)
    ensures Join(HostAlone(host)) == host
  {
    JoinEight(HostAlone(host));
  }

  lemma ScanHost(host: string)
    requires host != "" && All(IsHostChar, host)
    ensures HostScan(host, false) == HostScanned(HostState.Host, HostAlone(host))
  {
    JoinHostAlone(host);
    HostScanComplete(HostAlone(host), false);
  }

  function LongUrl(scheme: string, host: string, tail: string): Parts {
    [scheme, "://", host + tail, "", "", "", "", ""]
  }

  lemma LongUrlShape(scheme: string, host: string, tail: string)
    requires scheme != "" && All(IsAlpha, scheme) && host != "" && All(IsHostChar, host) && tail in {"", ":", ":80"}
    ensures var ps := LongUrl(scheme, host, tail);
            UrlShape(ps, false) && UrlStateOf(ps, false) == ReqServer && !('@' in host + tail)
  {}

  lemma LongUrlOffset(scheme: string, host: string, tail: string)
    ensures var ps := LongUrl(scheme, host, tail);
            Offset(ps, AUTHORITY) == |scheme| + 3 && Join(ps) == scheme + "://" + host + tail
  {
    hide Join;
    var ps := LongUrl(scheme, host, tail);
    JoinEight(ps);
    assert scheme + "://" + (host + tail) == scheme + "://" + host + tail;
    FirstOffset(ps);
    JoinAt(ps, 0);
    JoinAt(ps, 1);
  }

  lemma LongUrlIs(scheme: string, host: string, tail: string)
    requires scheme != "" && All(IsAlpha, scheme) && host != "" && All(IsHostChar, host) && tail in {"", ":", ":80"}
    ensures var buf := scheme + "://" + host + tail; var ps := LongUrl(scheme, host, tail); var at := |scheme| + 3;
            && Join(ps) == buf && UrlScan(buf, false) == UrlScanned(ReqServer, ps) && Offset(ps, AUTHORITY) == at
            && buf[at..at + |host|] == host && !('@' in ps[AUTHORITY])
  {
    hide Join, Offset, UrlScan, UrlShape, UrlStateOf, All;
    LongUrlShape(scheme, host, tail);
    LongUrlOffset(scheme, host, tail);
    UrlScanComplete(LongUrl(scheme, host, tail), false);
  }

  /** A host alone is cut to its length modulo 2^16: when that is 0 the URL is refused, and otherwise it is accepted
      with the beginning of the host for the host. */
  lemma LongHost(host: string)
    requires host != "" && All(IsHostChar, host)
    ensures var buf := "http://" + host; var n := U16(|host|);
            && Written(buf, false, LongUrl("http", host, ""), HostAlone(host))
            && (Accepted(buf, false) <==> n != 0)
            && (n != 0 ==> SeenParts(buf, false) == HostAlone(host[..n]))
  {
    hide Join, Offset, U16, UrlScan, HostScan;
    var buf, n := "http://" + host, U16(|host|);
    LongUrlIs("http", host, "");
    assert host + "" == host && "http" + "://" + host + "" == buf;
    U16Below(|host|);
    SmallFits(7);
    assert SeenAuthority(buf, false) == buf[7..7 + n] == host[..n];
    ScanHost(host);
    WrittenScan(buf, false, LongUrl("http", host, ""), HostAlone(host));
    if n == 0 {
      EmptyScan(false);
    } else {
      ScanHost(host[..n]);
      NoPortSeen(buf, false);
    }
  }

  lemma EmptyScan(foundAt: bool)
    ensures !HostMayEnd(HostScan("", foundAt).state)
  {}

  /** A host of a multiple of 2^16 characters and a colon without a port: that is no URL, but it is accepted, with
      the first character of the host for the host. */
  lemma AcceptedNonUrl(host: string)
    requires host != "" && All(IsHostChar, host) && |host| % UINT16_RANGE == 0
    ensures var buf := "http://" + host + ":";
            && Accepted(buf, false) && SeenParts(buf, false) == HostAlone(host[..1])
            && forall ps, hs :: !Written(buf, false, ps, hs)
  {
    hide Join, Offset, UrlScan, HostScan;
    var buf := "http://" + host + ":";
    LongUrlIs("http", host, ":");
    assert "http" + "://" + host + ":" == buf;
    assert |host + ":"| == |host| + 1 && U16(|host| + 1) == 1;
    SmallFits(7);
    assert SeenAuthority(buf, false) == buf[7..8] == host[..1];
    ScanHost(host[..1]);
    NoPortSeen(buf, false);
    ColonScan(host);
    forall ps, hs ensures !Written(buf, false, ps, hs) {
      WrittenScan(buf, false, ps, hs);
    }
  }

  lemma ColonShape(host: string)
    requires host != "" && All(IsHostChar, host)
    ensures var hs := ["", "", "", host, "", "", ":", ""]; HostShape(hs, false) && HostStateOf(hs, false) == HostState.PortStart
  {}

  lemma ColonScan(host: string)
    requires host != "" && All(IsHostChar, host)
    ensures !HostMayEnd(HostScan(host + ":", false).state)
  {
    hide Join, HostScan, HostShape, HostStateOf, All;
    var hs: Parts := ["", "", "", host, "", "", ":", ""];
    JoinEight(hs);
    assert Join(hs) == host + ":";
    ColonShape(host);
    HostScanComplete(hs, false);
  }

  // ---------------------------------------------------------------- a port that is read elsewhere

  function HostAndPort(host: string): Parts {
    ["", "", "", host, "", "", ":", "80"]
  }

  lemma HostAndPortShape(host: string)
    requires host != "" && All(IsHostChar, host)
    ensures HostShape(HostAndPort(host), false) && HostStateOf(HostAndPort(host), false) == HostState.Port && HostAndPort(host)[PORT] == "80"
  {}

  lemma HostAndPortOffset(host: string)
    ensures Offset(HostAndPort(host), PORT) == |host| + 1 && Join(HostAndPort(host)) == host + ":80"
  {
    hide Join;
    var hs := HostAndPort(host);
    JoinEight(hs);
    assert Join(hs) == host + ":80";
    assert hs[..8] == hs && hs[7] == "80";
    JoinAt(hs, 7);
  }

  lemma Eighty()
    ensures All(IsNum, "80") && PortValue("80") == 80
  {
    assert "80"[1..] == "0";
  }

  lemma ScanHostAndPort(host: string)
    requires host != "" && All(IsHostChar, host)
    ensures HostScan(host + ":80", false) == HostScanned(HostState.Port, HostAndPort(host)) && Offset(HostAndPort(host), PORT) == |host| + 1
    ensures HostAndPort(host)[PORT] == "80"
  {
    hide Join, HostScan, HostShape, HostStateOf, All, Offset;
    HostAndPortShape(host);
    HostAndPortOffset(host);
    HostScanComplete(HostAndPort(host), false);
  }

  /** A long scheme and host: the port begins after 2^16, and a stretch of the scheme is read for it. */
  lemma PortReadElsewhere(scheme: string, host: string)
    requires scheme != "" && (forall i :: 0 <= i < |scheme| ==> scheme[i] == 'a') && host != "" && All(IsHostChar, host)
    requires var at := |scheme| + 4 + |host|; |scheme| + 3 < UINT16_RANGE <= at && |host| + 3 < UINT16_RANGE && U16(at) + 2 <= |scheme|
    ensures var buf := scheme + "://" + host + ":80";
            && Written(buf, false, LongUrl(scheme, host, ":80"), HostAndPort(host))
            && Accepted(buf, false) && SeenParts(buf, false) == HostAndPort(host) && SeenPort(buf, false) == "aa"
  {
    hide Join, Offset, UrlScan, HostScan, U16, PortValue, PortRead, UrlShape, HostShape, Written, All, HostAndPort;
    var buf, ps, hs := scheme + "://" + host + ":80", LongUrl(scheme, host, ":80"), HostAndPort(host);
    SchemeIsAlpha(scheme);
    LongUrlIs(scheme, host, ":80");
    ScanHostAndPort(host);
    Eighty();
    WrittenScan(buf, false, ps, hs);
    AuthoritySeen(buf, false);
    var k := U16(|scheme| + 4 + |host|);
    SchemeAt(scheme, "://" + host + ":80", k);
    assert scheme + ("://" + host + ":80") == buf;
    SmallFits(2);
    assert SeenPort(buf, false) == "aa" by {
      assert Start(ps, hs, PortField) == |scheme| + 4 + |host|;
    }
    TwoLetters();
  }

  lemma SchemeIsAlpha(scheme: string)
    requires forall i :: 0 <= i < |scheme| ==> scheme[i] == 'a'
    ensures All(IsAlpha, scheme)
  {}

  lemma SchemeAt(scheme: string, rest: string, k: nat)
    requires (forall i :: 0 <= i < |scheme| ==> scheme[i] == 'a') && k + 2 <= |scheme|
    ensures (scheme + rest)[k..k + 2] == "aa"
  {}

  lemma TwoLetters()
    ensures PortRead("aa") == Some(539)
  {
    assert "aa"[..1] == "a" && "a"[..0] == "";
    assert PortRead("a") == Some(49);
  }
}
