/** Printing a URI and parsing what was printed. */
module UriPrinting {
  import opened HttpSyntax
  import opened Numerals
  import opened UrlGrammar
  import opened UrlHost
  import opened UrlParsing
  import opened UrlBounds
  import opened Uris

  // ---------------------------------------------------------------- the parts of a printed URI

  function PrintedHost(u: UriValue): Parts {
    [u.userinfo, if u.userinfo == "" then "" else "@", "", u.host, "", "",
     if u.IsDefaultPort() then "" else ":", if u.IsDefaultPort() then "" else Numeral(10, u.GetPort())]
  }

  function PrintedUrl(u: UriValue): Parts {
    [u.scheme, "://", Join(PrintedHost(u)), u.GetPath(),
     if u.query == "" then "" else "?", u.query, if u.fragment == "" then "" else "#", u.fragment]
  }

  /** What parsing guarantees of a URI with a scheme. */
  predicate WellMade(u: UriValue) {
    && u.scheme != "" && All(IsAlpha, u.scheme) && All(IsUserinfoChar, u.userinfo) && u.host != ""
    && All(IsUrlChar, u.path) && (u.path != "" ==> u.path[0] == '/')
    && All(IsQueryChar, u.query)
    && All(IsFragmentChar, u.fragment) && (u.fragment != "" ==> u.fragment[0] != '#')
    && u.port < UINT16_RANGE
  }

  lemma MadeWell(url: string, ps: Parts, hs: Parts)
    requires Written(url, false, ps, hs) && ps[SCHEME] != ""
    ensures WellMade(UriOf(ps, hs))
  {}

  lemma Regroup(a: string, b: string, c: string, d: string, e: string, f: string)
    ensures a + (b + c + d + e + f) == a + b + c + d + e + f
  {}

  lemma PrintedIsToString(u: UriValue)
    ensures Join(PrintedUrl(u)) == u.ToString()
  {
    var hs := PrintedHost(u);
    var colon, port := hs[COLON], hs[PORT];
    hide Join, Numeral;
    JoinEight(PrintedUrl(u));
    JoinEight(hs);
    assert Join(hs) == u.userinfo + hs[AT] + u.host + colon + port;
    var authority := Join(hs);
    assert u.scheme + "://" + authority == u.scheme + "://" + u.userinfo + hs[AT] + u.host + colon + port by {
      Regroup(u.scheme + "://", u.userinfo, hs[AT], u.host, colon, port);
    }
    var front := u.scheme + "://" + u.userinfo + hs[AT] + u.host;
    assert front + colon + port == front + (if u.IsDefaultPort() then "" else ":" + Numeral(10, u.GetPort()));
  }

  lemma PrintedHostShape(u: UriValue)
    requires WellMade(u) && All(IsHostChar, u.host)
    ensures HostShape(PrintedHost(u), u.userinfo != "") && HostComplete(PrintedHost(u))
    ensures PortValue(PrintedHost(u)[PORT]) < UINT16_RANGE
    ensures PortOf(u.scheme, PrintedHost(u)[PORT]) == if u.IsDefaultPort() then u.port else u.GetPort()
  {
    if !u.IsDefaultPort() {
      NumeralValue(10, u.GetPort());
    }
  }

  lemma TailChars(host: string, colon: string, port: string)
    requires All(IsHostChar, host) && (colon == "" || colon == ":") && forall i :: 0 <= i < |port| ==> IsNum(port[i])
    ensures var tail := host + colon + port; forall i :: 0 <= i < |tail| ==> IsServerChar(tail[i]) && tail[i] != '@'
  {}

  lemma FrontAndTail(info: string, at: string, tail: string)
    requires All(IsUserinfoChar, info) && at == (if info == "" then "" else "@")
    requires forall i :: 0 <= i < |tail| ==> IsServerChar(tail[i]) && tail[i] != '@'
    ensures var s := info + at + tail;
            && (forall i :: 0 <= i < |s| ==> IsServerChar(s[i]) && (s[i] == '@' ==> i == |info|))
            && (info != "" ==> |info| < |s| && s[|info|] == '@') && (info == "" ==> s == tail)
  {}

  lemma AuthorityChars(u: UriValue)
    requires WellMade(u) && All(IsHostChar, u.host)
    ensures var authority := Join(PrintedHost(u));
            && All(IsServerChar, authority) && NoDoubleAt(authority) && ('@' in authority <==> u.userinfo != "") && authority != ""
  {
    var hs := PrintedHost(u);
    JoinEight(hs);
    hide Join, Numeral, UriValue.IsDefaultPort;
    var tail := u.host + hs[COLON] + hs[PORT];
    assert Join(hs) == u.userinfo + hs[AT] + tail;
    TailChars(u.host, hs[COLON], hs[PORT]);
    FrontAndTail(u.userinfo, hs[AT], tail);
  }

  lemma PrintedWritten(u: UriValue)
    requires WellMade(u) && All(IsHostChar, u.host)
    ensures Written(u.ToString(), false, PrintedUrl(u), PrintedHost(u))
    ensures u.SameAs(UriOf(PrintedUrl(u), PrintedHost(u)))
  {
    PrintedIsToString(u);
    PrintedHostShape(u);
    AuthorityChars(u);
    hide Join, PortValue;
  }

  // ---------------------------------------------------------------- when printing loses something

  lemma FirstCharacter(buf: string, ps: Parts, hs: Parts)
    requires Written(buf, false, ps, hs)
    ensures buf[0] != ':'
  {
    JoinEight(ps);
    hide Join, PortValue, IsAuthority;
    if ps[SCHEME] == "" {
      assert ps[DELIMITER] == "" && ps[AUTHORITY] == "";
      assert buf[0] == ps[PATH][0];
    } else {
      assert buf[0] == ps[SCHEME][0];
    }
  }

  /** A URI without a scheme prints as "://...", which is not a URL. */
  lemma NeedsScheme(u: UriValue, ps: Parts, hs: Parts)
    requires u.scheme == ""
    ensures !Written(u.ToString(), false, ps, hs)
  {
    hide Written;
    if Written(u.ToString(), false, ps, hs) {
      FirstCharacter(u.ToString(), ps, hs);
    }
  }

  /** Where the host stands in a printed URI. */
  lemma PrintedHostAt(u: UriValue)
    requires u.host != ""
    ensures var k := |u.scheme| + 3 + |u.userinfo| + (if u.userinfo == "" then 0 else 1);
            k < |u.ToString()| && u.ToString()[k] == u.host[0]
  {}

  /** Where a bracketed URL has its "@" or "[". */
  lemma BracketAt(buf: string, ps: Parts, hs: Parts)
    requires Written(buf, false, ps, hs) && ps[SCHEME] != "" && hs[OPEN] != ""
    ensures var k := |ps[SCHEME]| + 3 + |hs[USERINFO]| + (if hs[USERINFO] == "" then 0 else 1);
            k < |buf| && (buf[k] == '@' || buf[k] == '[')
  {
    JoinEight(ps);
    JoinEight(hs);
    hide Join, PortValue, All;
    var front := ps[SCHEME] + ps[DELIMITER];
    var authority := ps[AUTHORITY];
    var n := |hs[USERINFO]| + if hs[USERINFO] == "" then 0 else 1;
    assert n < |authority| && (authority[n] == '@' || authority[n] == '[');
    assert buf[|front| + n] == authority[n];
  }

  lemma HostBegins(ps: Parts, hs: Parts, url: string)
    requires Written(url, false, ps, hs) && ps[SCHEME] != ""
    ensures var host := (hs[HOST] + hs[ZONE]); host != "" && host[0] != '@' && host[0] != '['
  {}

  lemma UnbracketedHost(buf: string, ps: Parts, hs: Parts)
    requires Written(buf, false, ps, hs) && ps[SCHEME] != "" && hs[OPEN] == ""
    ensures All(IsHostChar, hs[HOST] + hs[ZONE])
  {}

  lemma PrintedBack(url: string, ps: Parts, hs: Parts, qs: Parts, gs: Parts)
    requires Written(url, false, ps, hs)
    requires Written(UriOf(ps, hs).ToString(), false, qs, gs) && UriOf(ps, hs).SameAs(UriOf(qs, gs))
    ensures ps[SCHEME] != "" && All(IsHostChar, UriOf(ps, hs).host)
  {
    hide All, PortValue, UriValue.ToString, UrlShape, IsAuthority, UriValue.GetPort, UriValue.GetPath;
    var u := UriOf(ps, hs);
    if u.scheme == "" {
      NeedsScheme(u, qs, gs);
    } else if gs[OPEN] == "" {
      UnbracketedHost(u.ToString(), qs, gs);
    } else {
      HostBegins(ps, hs, url);
      PrintedHostAt(u);
      BracketAt(u.ToString(), qs, gs);
    }
  }

  /** Printing a created URI and creating it again gives a URI that no getter tells apart from it, exactly
      when it has a scheme and its host has only host characters (as every unbracketed host does). */
  lemma RoundTrip(url: string, ps: Parts, hs: Parts)
    requires Written(url, false, ps, hs)
    ensures var u := UriOf(ps, hs);
            u.scheme != "" && All(IsHostChar, u.host) <==>
            exists qs, gs :: Written(u.ToString(), false, qs, gs) && u.SameAs(UriOf(qs, gs))
  {
    hide UrlShape, IsAuthority, UriValue.ToString, UriValue.SameAs, PortValue, Join;
    var u := UriOf(ps, hs);
    if u.scheme != "" && All(IsHostChar, u.host) {
      MadeWell(url, ps, hs);
      PrintedWritten(u);
    }
    if qs, gs :| Written(u.ToString(), false, qs, gs) && u.SameAs(UriOf(qs, gs)) {
      PrintedBack(url, ps, hs, qs, gs);
    }
  }

  /** The same on objects: creating from what a URI prints, when nothing of the URL is cut. */
  method CreateAgain(url: string) returns (first: Uri?, again: Uri?)
    ensures forall ps, hs :: Written(url, false, ps, hs) && Fits16(ps, hs) ==>
              && first != null && first.Value() == UriOf(ps, hs)
              && (|first.Value().ToString()| < UINT16_RANGE ==>
                    (again != null && first.Value().SameAs(again.Value()) <==>
                     first.Value().scheme != "" && All(IsHostChar, first.Value().host)))
  {
    hide Written, ReadOf, UriOf, All, UriValue.ToString, UriValue.SameAs, Fits16, Accepted, Throws, ShortHead;
    again := null;
    var threw;
    first, threw := Uri.Create(url);
    if first == null {
      forall ps, hs | Written(url, false, ps, hs) && Fits16(ps, hs) ensures false {
        ReadExactly(url, ps, hs);
      }
      return;
    }
    var text := first.Value().ToString();
    again, threw := Uri.Create(text);
    forall ps, hs | Written(url, false, ps, hs) && Fits16(ps, hs)
      ensures All(IsNum, hs[PORT]) && first.Value() == UriOf(ps, hs)
      ensures |text| < UINT16_RANGE ==>
                (again != null && first.Value().SameAs(again.Value()) <==> first.Value().scheme != "" && All(IsHostChar, first.Value().host))
    {
      WrittenParts(url, false, ps, hs);
      ReadExactly(url, ps, hs);
      if |text| < UINT16_RANGE {
        Again(url, ps, hs, text);
      }
    }
  }

  /** What creating from a printed form below 2^16 bytes gives. */
  lemma Again(url: string, ps: Parts, hs: Parts, text: string)
    requires Written(url, false, ps, hs) && text == UriOf(ps, hs).ToString() && |text| < UINT16_RANGE
    ensures var u := UriOf(ps, hs);
            Accepted(text, false) && !Throws(text) && u.SameAs(ReadOf(text)) <==> u.scheme != "" && All(IsHostChar, u.host)
  {
    hide Written, ReadOf, UriOf, All, UriValue.ToString, UriValue.SameAs, Fits16, Accepted, Throws, ShortHead;
    RoundTrip(url, ps, hs);
    ShortTextHasShortHead(text, false);
    ShortHeadExact(text, false);
    OneWay(text, false);
    forall qs, gs | Written(text, false, qs, gs) ensures Accepted(text, false) && !Throws(text) && All(IsNum, gs[PORT]) && ReadOf(text) == UriOf(qs, gs) {
      WrittenParts(text, false, qs, gs);
      ShortFits(text, qs, gs);
      ReadExactly(text, qs, gs);
    }
  }

  /** Of a text below 2^16 bytes nothing is cut. */
  lemma ShortFits(text: string, ps: Parts, hs: Parts)
    requires Written(text, false, ps, hs) && |text| < UINT16_RANGE
    ensures Fits16(ps, hs)
  {
    hide Written, Join, Offset, Start, Component;
    WrittenParts(text, false, ps, hs);
    PartIsSlice(ps, AUTHORITY);
    forall f: Field ensures FieldFits(ps, hs, f) {
      FieldsInOrder(text, false, ps, hs, f, f);
    }
  }

  /** A host of a multiple of 2^16 characters, printed with nothing beside it: the text is a URL, and yet it is
      refused, because the second pass sees an empty host. */
  lemma LongHostIsRefused(u: UriValue)
    requires WellMade(u) && All(IsHostChar, u.host) && u.userinfo == "" && u.IsDefaultPort() && |u.host| % UINT16_RANGE == 0
    ensures Written(u.ToString(), false, PrintedUrl(u), PrintedHost(u)) && !Accepted(u.ToString(), false)
  {
    hide Join, Offset, WellMade, All, UriValue.IsDefaultPort, Written, UriValue.ToString;
    var url, ps := u.ToString(), PrintedUrl(u);
    PrintedWritten(u);
    WrittenParts(url, false, ps, PrintedHost(u));
    HostIsAuthority(u);
    EmptyScan('@' in ps[AUTHORITY]);
  }

  lemma HostIsAuthority(u: UriValue)
    requires WellMade(u) && u.userinfo == "" && u.IsDefaultPort()
    ensures PrintedUrl(u)[AUTHORITY] == u.host && u.host != ""
  {
    JoinEight(PrintedHost(u));
  }
}
