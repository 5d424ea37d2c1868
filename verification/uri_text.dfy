/** URIs as text: what a URI made of given components says, and what is printed, letter by letter. */
module UriText {
  import opened HttpSyntax
  import opened HttpCodes
  import opened HttpMachine
  import opened HttpMessages
  import opened Numerals
  import opened UrlGrammar
  import opened UrlHost
  import opened UrlParsing
  import opened UrlBounds
  import opened Uris
  import opened UriPrinting
  import opened UriGrammar

  // ---------------------------------------------------------------- printing

  /** The port is left out exactly if it is 80 and the scheme http or ws, or 443 and https or wss; a port of 0 counts as
      that of the scheme, but is written. */
  predicate LeavesPortOut(u: UriValue) {
    || (u.port == 80 && (u.scheme == "http" || u.scheme == "ws"))
    || (u.port == 443 && (u.scheme == "https" || u.scheme == "wss"))
  }

  function WithPort(u: UriValue, port: string): string {
    u.scheme + "://" + (if u.userinfo == "" then "" else u.userinfo + "@") + u.host + (if LeavesPortOut(u) then "" else ":" + port) +
    (if u.path == "" then "/" else u.path) + (if u.query == "" then "" else "?" + u.query) +
    (if u.fragment == "" then "" else "#" + u.fragment)
  }

  /** The digits of a number, none of them in vain. */
  predicate IsDecimal(s: string, n: nat) {
    |s| > 0 && All(IsNum, s) && DigitsValue(10, 0, s) == n && (|s| > 1 ==> s[0] != '0')
  }

  lemma {:induction false} NumeralIsDecimal(n: nat)
    ensures IsDecimal(Numeral(10, n), n) && (n > 0 ==> Numeral(10, n)[0] != '0')
    decreases n
  {
    NumeralValue(10, n);
    if n >= 10 {
      NumeralIsDecimal(n / 10);
    }
  }

  lemma Grouped(a: string, b: string, c: string)
    ensures a + (b + c) == a + b + c
  {}

  /** A printed URI: scheme, userinfo and "@" if there is one, host, ":" and decimal port unless it is left out, path or
      "/", "?" and query if there is one, "#" and fragment if there is one. */
  lemma Printed(u: UriValue)
    ensures exists port ::
              u.ToString() == WithPort(u, port) &&
              IsDecimal(port, if u.port != 0 then u.port else if u.scheme == "http" || u.scheme == "ws" then 80
                              else if u.scheme == "https" || u.scheme == "wss" then 443 else 0)
  {
    var port := Numeral(10, u.GetPort());
    NumeralIsDecimal(u.GetPort());
    hide Numeral, DigitsValue;
    var front := u.scheme + "://";
    Grouped(front, u.userinfo, "@");
    var middle := front + u.userinfo + (if u.userinfo == "" then "" else "@");
    assert middle == front + (if u.userinfo == "" then "" else u.userinfo + "@");
    var rest := middle + u.host + (if LeavesPortOut(u) then "" else ":" + port) + (if u.path == "" then "/" else u.path);
    Grouped(rest, "?", u.query);
    var more := rest + (if u.query == "" then "" else "?") + u.query;
    assert more == rest + (if u.query == "" then "" else "?" + u.query);
    Grouped(more, "#", u.fragment);
    assert u.ToString() == more + (if u.fragment == "" then "" else "#") + u.fragment;
    assert WithPort(u, port) == more + (if u.fragment == "" then "" else "#" + u.fragment);
  }

  /** The getters that choose: a path that is not there counts as "/". */
  lemma GettersChoose(u: UriValue)
    ensures u.GetPath() == if |u.path| == 0 then "/" else u.path
    ensures u.GetPort() == if u.port > 0 then u.port else if u.scheme == "http" || u.scheme == "ws" then 80
                           else if u.scheme == "https" || u.scheme == "wss" then 443 else 0
  {}

  /** What no getter tells apart: scheme, userinfo, host, query and fragment are equal, and path and port up to their
      defaults. */
  lemma SameGetters(u: UriValue, v: UriValue)
    ensures u.SameAs(v) <==>
              && u.scheme == v.scheme && u.userinfo == v.userinfo && u.host == v.host && u.query == v.query && u.fragment == v.fragment
              && u.GetPath() == v.GetPath() && u.GetPort() == v.GetPort()
  {
    hide UriValue.GetPath, UriValue.GetPort;
  }

  // ---------------------------------------------------------------- the targets of CONNECT

  function TargetAuthority(at: bool, brackets: bool, host: string, zone: string, port: string): string {
    (if at then "@" else "") + HostText(brackets, host, zone) + (":" + port)
  }

  /** A host, ":" and a port; there may be an "@" in front, and a "?" without a query behind, and after that "#"s without a
      fragment. */
  predicate IsTarget(buf: string, at: bool, brackets: bool, host: string, zone: string, port: string, tail: string) {
    && IsHostText(brackets, host, zone)
    && port != "" && (forall i :: 0 <= i < |port| ==> IsDigitCode(port[i] as int)) && All(IsNum, port) && DigitsValue(10, 0, port) < 65536
    && IsTail(tail) && buf == TargetAuthority(at, brackets, host, zone, port) + tail
  }

  predicate IsTail(tail: string) {
    tail != "" ==> tail[0] == '?' && forall i :: 1 <= i < |tail| ==> tail[i] == '#'
  }

  function TargetHost(at: bool, brackets: bool, host: string, zone: string, port: string): Parts {
    ["", if at then "@" else "", if brackets then "[" else "", host, zone, if brackets then "]" else "", ":", port]
  }

  function TargetParts(authority: string, tail: string): Parts {
    ["", "", authority, "", if tail == "" then "" else "?", "", if tail == "" then "" else tail[1..], ""]
  }

  lemma TargetChars(at: bool, brackets: bool, host: string, zone: string, port: string)
    requires IsHostText(brackets, host, zone) && All(IsNum, port)
    ensures var a := TargetAuthority(at, brackets, host, zone, port);
            a != "" && All(IsServerChar, a) && NoDoubleAt(a) && ('@' in a <==> at)
  {
    TargetTextChars(brackets, host, zone, port);
    var rest := HostText(brackets, host, zone) + (":" + port);
    hide IsHostText, HostText;
    assert TargetAuthority(at, brackets, host, zone, port) == (if at then "@" else "") + rest;
    AtInFront(at, rest);
  }

  lemma TargetTextChars(brackets: bool, host: string, zone: string, port: string)
    requires IsHostText(brackets, host, zone) && All(IsNum, port)
    ensures var rest := HostText(brackets, host, zone) + (":" + port);
            rest != "" && forall i :: 0 <= i < |rest| ==> IsServerChar(rest[i]) && rest[i] != '@'
  {}

  lemma AtInFront(at: bool, rest: string)
    requires rest != "" && forall i :: 0 <= i < |rest| ==> IsServerChar(rest[i]) && rest[i] != '@'
    ensures var a := (if at then "@" else "") + rest; a != "" && All(IsServerChar, a) && NoDoubleAt(a) && ('@' in a <==> at)
  {
    var a := (if at then "@" else "") + rest;
    if at {
      assert a[0] == '@' && forall i :: 0 < i < |a| ==> a[i] == rest[i - 1];
    } else {
      assert a == rest;
    }
  }

  lemma TargetHostShape(at: bool, brackets: bool, host: string, zone: string, port: string)
    requires IsHostText(brackets, host, zone) && All(IsNum, port) && port != ""
    ensures HostShape(TargetHost(at, brackets, host, zone, port), at) && HostComplete(TargetHost(at, brackets, host, zone, port))
  {}

  lemma TargetText(at: bool, brackets: bool, host: string, zone: string, port: string)
    requires brackets || zone == ""
    ensures Join(TargetHost(at, brackets, host, zone, port)) == TargetAuthority(at, brackets, host, zone, port)
  {
    JoinEight(TargetHost(at, brackets, host, zone, port));
    hide Join;
    var front := if at then "@" else "";
    if brackets {
      assert front + "[" + host + zone + "]" == front + ("[" + host + zone + "]");
    }
    assert TargetAuthority(at, brackets, host, zone, port) == front + HostText(brackets, host, zone) + ":" + port;
  }

  lemma TargetShape(authority: string, tail: string)
    requires authority != "" && All(IsServerChar, authority) && NoDoubleAt(authority) && IsTail(tail)
    ensures UrlShape(TargetParts(authority, tail), true) && Join(TargetParts(authority, tail)) == authority + tail
  {
    JoinEight(TargetParts(authority, tail));
    hide Join;
    assert tail != "" ==> tail == "?" + tail[1..];
  }

  lemma TargetIsWritten(buf: string, at: bool, brackets: bool, host: string, zone: string, port: string, tail: string)
    requires IsTarget(buf, at, brackets, host, zone, port, tail)
    ensures exists ps, hs :: Written(buf, true, ps, hs)
  {
    var authority := TargetAuthority(at, brackets, host, zone, port);
    var hs, ps := TargetHost(at, brackets, host, zone, port), TargetParts(authority, tail);
    TargetChars(at, brackets, host, zone, port);
    TargetHostShape(at, brackets, host, zone, port);
    ZoneNeedsBrackets(brackets, host, zone);
    hide IsHostText;
    TargetText(at, brackets, host, zone, port);
    TargetShape(authority, tail);
    hide Join, HostShape, HostComplete, DigitsValue, UrlShape, TargetAuthority;
    assert Written(buf, true, ps, hs);
  }

  lemma ZoneNeedsBrackets(brackets: bool, host: string, zone: string)
    requires IsHostText(brackets, host, zone)
    ensures brackets || zone == ""
  {}

  lemma WrittenHostText(hs: Parts, foundAt: bool)
    requires HostShape(hs, foundAt) && HostComplete(hs) && hs[PORT] != "" && hs[USERINFO] == ""
    ensures IsHostText(hs[OPEN] != "", hs[HOST], hs[ZONE])
    ensures hs == TargetHost(foundAt, hs[OPEN] != "", hs[HOST], hs[ZONE], hs[PORT])
    ensures forall i :: 0 <= i < |hs[PORT]| ==> IsDigitCode(hs[PORT][i] as int)
  {}

  lemma ConnectShape(ps: Parts)
    requires UrlShape(ps, true) && ps[PATH] == "" && ps[QUERY] == "" && ps[FRAGMENT] == ""
    ensures var tail := ps[QUESTION] + ps[HASHES]; IsTail(tail) && ps == TargetParts(ps[AUTHORITY], tail)
  {
    var tail := ps[QUESTION] + ps[HASHES];
    if tail != "" {
      assert ps[QUESTION] == "?" && tail[1..] == ps[HASHES];
    }
  }

  lemma WrittenIsTarget(buf: string, ps: Parts, hs: Parts)
    requires Written(buf, true, ps, hs)
    ensures IsTarget(buf, '@' in ps[AUTHORITY], hs[OPEN] != "", hs[HOST], hs[ZONE], hs[PORT], ps[QUESTION] + ps[HASHES])
  {
    var authority, at, tail := ps[AUTHORITY], '@' in ps[AUTHORITY], ps[QUESTION] + ps[HASHES];
    WrittenHostText(hs, at);
    ConnectShape(ps);
    ZoneNeedsBrackets(hs[OPEN] != "", hs[HOST], hs[ZONE]);
    ShapeIsWhole(ps);
    hide IsHostText, HostShape, HostComplete, UrlShape, DigitsValue, Join, TargetAuthority;
    TargetText(at, hs[OPEN] != "", hs[HOST], hs[ZONE], hs[PORT]);
    JoinEight(ps);
    assert buf == authority + tail;
  }

  lemma ShapeIsWhole(ps: Parts)
    requires ps == TargetParts(ps[AUTHORITY], ps[QUESTION] + ps[HASHES])
    ensures Join(ps) == ps[AUTHORITY] + (ps[QUESTION] + ps[HASHES])
  {
    JoinEight(ps);
    hide Join;
  }

  /** Exactly which texts below 2^16 characters are targets of CONNECT. */
  lemma ConnectTargets(buf: string)
    requires |buf| < 65536
    ensures Accepted(buf, true) <==> exists at, brackets, host, zone, port, tail :: IsTarget(buf, at, brackets, host, zone, port, tail)
  {
    hide IsTarget, Written, Accepted, ShortHead;
    ShortTextHasShortHead(buf, true);
    ShortHeadExact(buf, true);
    if at, brackets, host, zone, port, tail :| IsTarget(buf, at, brackets, host, zone, port, tail) {
      TargetIsWritten(buf, at, brackets, host, zone, port, tail);
    }
    if ps, hs :| Written(buf, true, ps, hs) {
      WrittenIsTarget(buf, ps, hs);
    }
  }

  // ---------------------------------------------------------------- the targets of requests

  lemma {:induction false} SameMachine(verb: Method, u: string)
    ensures UrlState(UrlStart(verb), u) == UrlScan(u, verb.CONNECT?).state
    decreases |u|
  {
    hide ParseUrlChar, UrlSlot, Add;
    if |u| > 0 {
      SameMachine(verb, u[..|u| - 1]);
    }
  }

  /** Which texts a request may have for its target: beginnings of URLs, or of authorities for CONNECT, that have at least
      an authority, a path or a "?". */
  lemma RequestTargets(verb: Method, u: string)
    ensures IsUrl(verb, u) <==> exists ps: Parts :: UrlShape(ps, verb.CONNECT?) && Join(ps) == u &&
                                             (ps[AUTHORITY] != "" || ps[PATH] != "" || ps[QUESTION] != "")
  {
    var connect := verb.CONNECT?;
    SameMachine(verb, u);
    hide UrlShape, Join, UrlScan;
    if IsUrl(verb, u) {
      UrlScanSound(u, connect);
      MayEndWith(UrlScan(u, connect).parts, connect);
    }
    if ps: Parts :| UrlShape(ps, connect) && Join(ps) == u && (ps[AUTHORITY] != "" || ps[PATH] != "" || ps[QUESTION] != "") {
      UrlScanComplete(ps, connect);
      MayEndWith(ps, connect);
      NotNothing(ps);
    }
  }

  lemma MayEndWith(ps: Parts, connect: bool)
    requires UrlShape(ps, connect)
    ensures UrlMayEnd(UrlStateOf(ps, connect)) <==> ps[AUTHORITY] != "" || ps[PATH] != "" || ps[QUESTION] != ""
  {}

  lemma NotNothing(ps: Parts)
    requires ps[AUTHORITY] != "" || ps[PATH] != "" || ps[QUESTION] != ""
    ensures Join(ps) != ""
  {
    JoinEight(ps);
    hide Join;
  }
}
