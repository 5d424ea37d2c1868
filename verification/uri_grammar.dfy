/** The grammar of URIs by character codes: exactly which texts are URLs, and what is read from them. */
module UriGrammar {
  import opened HttpSyntax
  import opened HttpCodes
  import opened Numerals
  import opened UrlGrammar
  import opened UrlHost
  import opened UrlParsing
  import opened UrlBounds
  import opened Uris
  import opened UriPrinting

  // ---------------------------------------------------------------- from components to text and back

  /** The components of a URI, and the delimiters that may stand without one: an "@", a "?", and "#"s. Brackets are for a
      host such as an IPv6 address, which may have a zone. */
  datatype Components = Components(scheme: string, at: bool, userinfo: string, brackets: bool, host: string, zone: string, port: string,
                                   path: string, question: bool, query: string, hashes: string, fragment: string)
  {
    function Authority(): string {
      userinfo + (if at then "@" else "") + HostText(brackets, host, zone) + (if port == "" then "" else ":" + port)
    }

    function Text(): string {
      (if scheme == "" then "" else scheme + "://" + Authority()) + path + (if question then "?" else "") + query + hashes + fragment
    }
  }

  function HostText(brackets: bool, host: string, zone: string): string {
    if brackets then "[" + host + zone + "]" else host
  }

  predicate IsPathCode(n: int) {
    33 <= n <= 126 && n != 35 && n != 63
  }

  predicate IsHostText(brackets: bool, host: string, zone: string) {
    && host != ""
    && if brackets then
         && (forall i :: 0 <= i < |host| ==> var n := host[i] as int; IsDigitCode(n) || 65 <= n <= 70 || 97 <= n <= 102 || n == 58 || n == 46)
         && (zone != "" ==> |zone| > 1 && zone[0] == '%' && forall i :: 0 <= i < |zone| ==>
               var n := zone[i] as int; IsLetterCode(n) || IsDigitCode(n) || n == 37 || n == 46 || n == 45 || n == 95 || n == 126)
       else zone == "" && forall i :: 0 <= i < |host| ==> var n := host[i] as int; IsLetterCode(n) || IsDigitCode(n) || n == 45 || n == 46
  }

  /** Which characters they may have, by their codes, and which of them need others: a URI without a scheme is a path with
      what may follow it; userinfo needs its "@", a query its "?", a fragment its "#", and that a path or a "?". */
  predicate IsMadeOf(c: Components) {
    && IsFront(c)
    && (forall i :: 0 <= i < |c.path| ==> IsPathCode(c.path[i] as int))
    && (forall i :: 0 <= i < |c.query| ==> IsPathCode(c.query[i] as int) || c.query[i] == '?')
    && (forall i :: 0 <= i < |c.hashes| ==> c.hashes[i] == '#')
    && (forall i :: 0 <= i < |c.fragment| ==> IsPathCode(c.fragment[i] as int) || c.fragment[i] == '?' || c.fragment[i] == '#')
    && (c.query != "" ==> c.question) && (c.hashes != "" ==> c.path != "" || c.question)
    && (c.fragment != "" ==> c.hashes != "" && c.fragment[0] != '#')
  }

  predicate IsFront(c: Components) {
    if c.scheme == "" then
      && !c.at && c.userinfo == "" && !c.brackets && c.host == "" && c.zone == "" && c.port == ""
      && c.path != "" && (c.path[0] == '/' || c.path[0] == '*')
    else
      && (forall i :: 0 <= i < |c.scheme| ==> IsLetterCode(c.scheme[i] as int))
      && IsUserinfoText(c.userinfo) && (c.userinfo != "" ==> c.at) && IsHostText(c.brackets, c.host, c.zone) && IsPortText(c.port)
      && (c.path != "" ==> c.path[0] == '/')
  }

  predicate IsUserinfoText(s: string) {
    forall i :: 0 <= i < |s| ==>
      var n := s[i] as int; IsLetterCode(n) || IsDigitCode(n) || n == 33 || 36 <= n <= 46 || n == 58 || n == 59 || n == 61 || n == 95 || n == 126
  }

  /** Digits of a number below 2^16, or none. */
  predicate IsPortText(s: string) {
    && (forall i :: 0 <= i < |s| ==> IsDigitCode(s[i] as int))
    && (forall i :: 0 <= i < |s| ==> IsHex(s[i])) && DigitsValue(10, 0, s) < 65536
  }

  function HostParts(c: Components): Parts {
    if c.scheme == "" then NO_PARTS
    else [c.userinfo, if c.at then "@" else "", if c.brackets then "[" else "", c.host, c.zone, if c.brackets then "]" else "",
          if c.port == "" then "" else ":", c.port]
  }

  function UrlParts(c: Components): Parts {
    [c.scheme, if c.scheme == "" then "" else "://", if c.scheme == "" then "" else c.Authority(), c.path,
     if c.question then "?" else "", c.query, c.hashes, c.fragment]
  }

  lemma PartsAreText(c: Components)
    requires c.brackets || c.zone == ""
    ensures Join(UrlParts(c)) == c.Text() && (c.scheme != "" ==> Join(HostParts(c)) == c.Authority())
  {
    JoinEight(UrlParts(c));
    JoinEight(HostParts(c));
    hide Join, Components.Authority;
    if c.scheme != "" {
      AuthorityText(c);
    }
  }

  lemma AuthorityText(c: Components)
    requires (c.brackets || c.zone == "") && c.scheme != ""
    ensures Join(HostParts(c)) == c.Authority()
  {
    JoinEight(HostParts(c));
    hide Join;
    var front := c.userinfo + (if c.at then "@" else "");
    if c.brackets {
      assert front + "[" + c.host + c.zone + "]" == front + ("[" + c.host + c.zone + "]");
    }
  }

  lemma HostIsShaped(c: Components)
    requires c.scheme != "" && IsFront(c)
    ensures HostShape(HostParts(c), c.at) && HostComplete(HostParts(c)) && All(IsNum, c.port)
  {}

  lemma HostTextChars(brackets: bool, host: string, zone: string, port: string)
    requires IsHostText(brackets, host, zone) && IsPortText(port)
    ensures var rest := HostText(brackets, host, zone) + (if port == "" then "" else ":" + port);
            rest != "" && forall i :: 0 <= i < |rest| ==> IsServerChar(rest[i]) && rest[i] != '@'
  {}

  lemma AuthorityIsShaped(c: Components)
    requires c.scheme != "" && IsFront(c)
    ensures var a := c.Authority(); a != "" && All(IsServerChar, a) && NoDoubleAt(a) && ('@' in a <==> c.at)
  {
    HostTextChars(c.brackets, c.host, c.zone, c.port);
    var rest := HostText(c.brackets, c.host, c.zone) + (if c.port == "" then "" else ":" + c.port);
    UserinfoChars(c.userinfo);
    hide IsHostText, HostText, IsUserinfoText, IsPortText;
    assert c.Authority() == c.userinfo + (if c.at then "@" else "") + rest;
    AroundAt(c.userinfo, c.at, rest);
  }

  lemma UserinfoChars(s: string)
    requires IsUserinfoText(s)
    ensures forall i :: 0 <= i < |s| ==> IsUserinfoChar(s[i]) && s[i] != '@'
  {}

  lemma AroundAt(info: string, at: bool, rest: string)
    requires (forall i :: 0 <= i < |info| ==> IsUserinfoChar(info[i]) && info[i] != '@') && (info != "" ==> at)
    requires rest != "" && forall i :: 0 <= i < |rest| ==> IsServerChar(rest[i]) && rest[i] != '@'
    ensures var a := info + (if at then "@" else "") + rest; a != "" && All(IsServerChar, a) && NoDoubleAt(a) && ('@' in a <==> at)
  {
    var a := info + (if at then "@" else "") + rest;
    if at {
      assert a[|info|] == '@' && forall i :: |info| < i < |a| ==> a[i] == rest[i - |info| - 1];
    } else {
      assert a == rest;
    }
  }

  lemma FrontHasClasses(c: Components)
    requires IsFront(c)
    ensures All(IsAlpha, c.scheme) && (c.path != "" ==> c.path[0] == '/' || c.path[0] == '*')
    ensures var a := UrlParts(c)[AUTHORITY]; All(IsServerChar, a) && NoDoubleAt(a)
  {
    if c.scheme != "" {
      AuthorityIsShaped(c);
    }
    hide Components.Authority, IsHostText, IsUserinfoText, IsPortText;
  }

  lemma TailHasClasses(c: Components)
    requires IsMadeOf(c)
    ensures All(IsUrlChar, c.path) && All(IsQueryChar, c.query) && All(IsFragmentChar, c.fragment)
    ensures c.fragment != "" ==> c.fragment[0] != '#'
  {
    hide IsFront;
  }

  lemma UrlHasClasses(c: Components)
    requires IsMadeOf(c)
    ensures UrlClasses(UrlParts(c))
  {
    FrontHasClasses(c);
    TailHasClasses(c);
    HashesOnly(c);
    hide IsMadeOf, IsFront, Components.Authority, All, NoDoubleAt, IsPathCode;
  }

  lemma HashesOnly(c: Components)
    requires IsMadeOf(c)
    ensures All(ch => ch == '#', c.hashes)
  {}

  lemma UrlHasOrder(c: Components)
    requires IsMadeOf(c)
    ensures UrlOrder(UrlParts(c), false)
  {
    hide Components.Authority, IsHostText, IsUserinfoText, IsPortText;
  }

  lemma UrlIsShaped(c: Components)
    requires IsMadeOf(c)
    ensures UrlShape(UrlParts(c), false)
  {
    UrlHasClasses(c);
    UrlHasOrder(c);
    hide UrlClasses, UrlOrder, IsMadeOf;
  }

  function PortNumber(c: Components): nat
    requires forall i :: 0 <= i < |c.port| ==> IsHex(c.port[i])
  {
    if c.port != "" then DigitsValue(10, 0, c.port)
    else if c.scheme == "http" || c.scheme == "ws" then 80
    else if c.scheme == "https" || c.scheme == "wss" then 443
    else 0
  }

  lemma ZoneInBrackets(c: Components)
    requires IsMadeOf(c)
    ensures (c.brackets || c.zone == "") && IsPortText(c.port) && (c.scheme != "" ==> c.host != "") && c.Text() != ""
  {
    assert c.scheme == "" ==> DigitsValue(10, 0, "") == 0;
  }

  lemma AuthorityWritten(c: Components)
    requires IsMadeOf(c) && c.scheme != ""
    ensures c.Authority() != "" && IsAuthority(c.Authority(), HostParts(c)) && All(IsNum, c.port)
  {
    HostIsShaped(c);
    AuthorityIsShaped(c);
    ZoneInBrackets(c);
    AuthorityText(c);
    hide Join, HostShape, HostComplete, Components.Authority, IsMadeOf, IsHostText, IsUserinfoText;
  }

  lemma ReadBack(c: Components)
    requires IsMadeOf(c)
    ensures All(IsNum, HostParts(c)[PORT]) && PortValue(HostParts(c)[PORT]) < UINT16_RANGE && IsPortText(c.port)
    ensures UriOf(UrlParts(c), HostParts(c)) == UriValue(c.scheme, c.userinfo, c.host + c.zone, c.path, c.query, c.fragment, PortNumber(c))
  {
    FrontOf(c);
    PortIsNumber(c.port);
    assert DigitsValue(10, 0, "") == 0;
    hide Components.Authority, IsMadeOf, DigitsValue;
  }

  lemma FrontOf(c: Components)
    requires IsMadeOf(c)
    ensures IsPortText(c.port)
    ensures c.scheme == "" ==> c.userinfo == "" && c.host == "" && c.zone == "" && c.port == ""
  {
    assert c.scheme == "" ==> DigitsValue(10, 0, "") == 0;
    hide IsHostText, IsUserinfoText, DigitsValue;
  }

  lemma PortIsNumber(s: string)
    requires IsPortText(s)
    ensures All(IsNum, s) && PortValue(s) == DigitsValue(10, 0, s) < UINT16_RANGE
  {}

  lemma ComponentsWritten(c: Components)
    requires IsMadeOf(c)
    ensures Written(c.Text(), false, UrlParts(c), HostParts(c)) && IsPortText(c.port)
    ensures UriOf(UrlParts(c), HostParts(c)) == UriValue(c.scheme, c.userinfo, c.host + c.zone, c.path, c.query, c.fragment, PortNumber(c))
  {
    ZoneInBrackets(c);
    PartsAreText(c);
    UrlIsShaped(c);
    ReadBack(c);
    if c.scheme != "" {
      AuthorityWritten(c);
    }
    hide Join, UrlShape, IsAuthority, PortValue, DigitsValue, Components.Authority, Components.Text, IsMadeOf, UriOf, IsPortText, All;
  }

  /** A text made of components is a URL, and creating from it gives an object whose getters tell them; the port is the
      number that is written, and else 80 for http and ws, 443 for https and wss. */
  lemma CreateTells(c: Components)
    requires IsMadeOf(c) && |c.Text()| < 65536
    ensures IsPortText(c.port) && Accepted(c.Text(), false) && !Throws(c.Text())
    ensures ReadOf(c.Text()) == UriValue(c.scheme, c.userinfo, c.host + c.zone, c.path, c.query, c.fragment, PortNumber(c))
  {
    ComponentsWritten(c);
    hide Written, Components.Text, IsMadeOf, ReadOf, UriOf, Accepted, Throws, Fits16;
    ShortFits(c.Text(), UrlParts(c), HostParts(c));
    ReadExactly(c.Text(), UrlParts(c), HostParts(c));
  }

  /** The components of a URL that is split into parts. */
  function ComponentsOf(ps: Parts, hs: Parts): Components {
    Components(ps[SCHEME], hs[AT] != "", hs[USERINFO], hs[OPEN] != "", hs[HOST], hs[ZONE], hs[PORT], ps[PATH], ps[QUESTION] != "", ps[QUERY],
               ps[HASHES], ps[FRAGMENT])
  }

  /** What may come before the path. */
  lemma FrontIsMade(ps: Parts, hs: Parts)
    requires ps[SCHEME] != "" && All(IsAlpha, ps[SCHEME]) && IsAuthority(ps[AUTHORITY], hs)
    requires All(IsNum, hs[PORT]) && PortValue(hs[PORT]) < UINT16_RANGE && (ps[PATH] != "" ==> ps[PATH][0] == '/')
    ensures IsFront(ComponentsOf(ps, hs))
  {
    HostIsText(hs, '@' in ps[AUTHORITY]);
    hide Join, DigitsValue, HostComplete, IsHostText;
  }

  lemma HostIsText(hs: Parts, foundAt: bool)
    requires HostShape(hs, foundAt) && HostComplete(hs)
    ensures IsHostText(hs[OPEN] != "", hs[HOST], hs[ZONE]) && IsUserinfoText(hs[USERINFO]) && (hs[USERINFO] != "" ==> hs[AT] != "")
  {}

  lemma NothingIsMade(ps: Parts)
    requires UrlShape(ps, false) && ps[AUTHORITY] == "" && ps[SCHEME] == "" && Join(ps) != ""
    ensures IsFront(ComponentsOf(ps, NO_PARTS))
  {
    JoinEight(ps);
    hide Join;
  }

  lemma RestIsMade(c: Components, ps: Parts, hs: Parts)
    requires c == ComponentsOf(ps, hs) && UrlShape(ps, false) && IsFront(c)
    requires c.question || ps[PATH] != "" || ps[HASHES] == ""
    ensures IsMadeOf(c)
  {
    hide IsFront;
    QuestionForQuery(ps);
  }

  lemma QuestionForQuery(ps: Parts)
    requires UrlShape(ps, false)
    ensures (ps[QUERY] != "" ==> ps[QUESTION] != "") && (ps[HASHES] != "" ==> ps[PATH] != "" || ps[QUESTION] != "")
    ensures ps[FRAGMENT] != "" ==> ps[HASHES] != "" && ps[FRAGMENT][0] != '#'
    ensures ps[AUTHORITY] != "" ==> ps[SCHEME] != "" && (ps[PATH] != "" ==> ps[PATH][0] == '/')
    ensures All(IsAlpha, ps[SCHEME])
  {}

  lemma PartsAreMade(ps: Parts, hs: Parts)
    requires UrlShape(ps, false) && All(IsNum, hs[PORT]) && PortValue(hs[PORT]) < UINT16_RANGE && Join(ps) != ""
    requires if ps[AUTHORITY] == "" then ps[SCHEME] == "" && hs == NO_PARTS else IsAuthority(ps[AUTHORITY], hs)
    ensures (ps[AUTHORITY] == "" <==> ps[SCHEME] == "") && IsMadeOf(ComponentsOf(ps, hs))
  {
    hide Join, PortValue, UrlShape, IsAuthority, IsFront, IsMadeOf, All;
    QuestionForQuery(ps);
    if ps[AUTHORITY] == "" {
      NothingIsMade(ps);
    } else {
      FrontIsMade(ps, hs);
    }
    RestIsMade(ComponentsOf(ps, hs), ps, hs);
  }

  lemma PartsAgain(ps: Parts, hs: Parts)
    requires UrlShape(ps, false)
    requires if ps[AUTHORITY] == "" then ps[SCHEME] == "" && hs == NO_PARTS else IsAuthority(ps[AUTHORITY], hs)
    requires ps[AUTHORITY] == "" <==> ps[SCHEME] == ""
    ensures UrlParts(ComponentsOf(ps, hs)) == ps
  {
    DelimiterWithScheme(ps);
    hide UrlShape, IsAuthority, Components.Authority;
    if ps[SCHEME] != "" {
      AuthorityAgain(ps, hs);
    }
    var qs := UrlParts(ComponentsOf(ps, hs));
    assert qs[0] == ps[0] && qs[1] == ps[1] && qs[2] == ps[2] && qs[3] == ps[3] && qs[4] == ps[4] && qs[5] == ps[5] && qs[6] == ps[6] && qs[7] == ps[7];
  }

  lemma AuthorityAgain(ps: Parts, hs: Parts)
    requires ps[SCHEME] != "" && IsAuthority(ps[AUTHORITY], hs)
    ensures ComponentsOf(ps, hs).Authority() == ps[AUTHORITY]
  {
    HostPartsAgain(ps, hs);
    BracketsForZone(hs, '@' in ps[AUTHORITY]);
    hide Join, HostShape, HostComplete, HostParts, Components.Authority;
    AuthorityText(ComponentsOf(ps, hs));
  }

  lemma HostPartsAgain(ps: Parts, hs: Parts)
    requires ps[SCHEME] != "" && IsAuthority(ps[AUTHORITY], hs)
    ensures HostParts(ComponentsOf(ps, hs)) == hs
  {
    hide Join;
  }

  lemma BracketsForZone(hs: Parts, foundAt: bool)
    requires HostShape(hs, foundAt)
    ensures hs[OPEN] != "" || hs[ZONE] == ""
  {}

  lemma DelimiterWithScheme(ps: Parts)
    requires UrlShape(ps, false) && (ps[AUTHORITY] == "" <==> ps[SCHEME] == "")
    ensures ps[DELIMITER] == if ps[SCHEME] == "" then "" else "://"
    ensures ps[QUESTION] == if ps[QUESTION] != "" then "?" else ""
  {}

  /** Exactly which texts below 2^16 characters are URLs: those that are made of components. */
  lemma UrlTexts(buf: string)
    requires |buf| < 65536
    ensures Accepted(buf, false) <==> exists c: Components :: IsMadeOf(c) && c.Text() == buf
  {
    hide Written, Accepted, ShortHead, IsMadeOf, Components.Text;
    ShortTextHasShortHead(buf, false);
    ShortHeadExact(buf, false);
    if c: Components :| IsMadeOf(c) && c.Text() == buf {
      ComponentsWritten(c);
    }
    if ps, hs :| Written(buf, false, ps, hs) {
      WrittenIsMade(buf, ps, hs);
    }
  }

  lemma WrittenIsMade(buf: string, ps: Parts, hs: Parts)
    requires Written(buf, false, ps, hs)
    ensures var c := ComponentsOf(ps, hs); IsMadeOf(c) && c.Text() == buf
  {
    hide UrlShape, IsAuthority, PortValue, Join, IsMadeOf, Components.Text;
    PartsAreMade(ps, hs);
    PartsAgain(ps, hs);
    ZoneInBrackets(ComponentsOf(ps, hs));
    PartsAreText(ComponentsOf(ps, hs));
  }
}
