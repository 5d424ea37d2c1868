/** The authority of a URL: userinfo, host and port, as the inner URL machine splits it. Written in the same
    way as the outer machine, as a list of parts and a shape. */
module UrlHost {
  import opened HttpSyntax
  import opened UrlGrammar

  datatype HostState =
    | HostDead
    | UserinfoStart | Userinfo
    | HostStart | Host
    | V6Start | V6 | V6ZoneStart | V6Zone | V6End
    | PortStart | Port

  // The parts of an authority: userinfo, "@", "[", host, "%" and zone, "]", ":", port.
  const USERINFO := 0
  const AT := 1
  const OPEN := 2
  const HOST := 3
  const ZONE := 4
  const CLOSE := 5
  const COLON := 6
  const PORT := 7

  predicate IsV6Char(c: char) {
    IsHex(c) || c == ':' || c == '.'
  }

  predicate IsZoneChar(c: char) {
    IsAlphaNum(c) || c == '%' || c == '.' || c == '-' || c == '_' || c == '~'
  }

  function ParseHostChar(s: HostState, ch: char): HostState {
    if s.Userinfo? || s.UserinfoStart? then
      if ch == '@' then HostStart
      else if IsUserinfoChar(ch) then Userinfo
      else HostDead
    else if s.HostStart? then
      if ch == '[' then V6Start
      else if IsHostChar(ch) then Host
      else HostDead
    else if s.Host? then
      if IsHostChar(ch) then Host
      else if ch == ':' then PortStart
      else HostDead
    else if s.V6End? then if ch == ':' then PortStart else HostDead
    else if s.V6? || s.V6Start? then
      if s.V6? && ch == ']' then V6End
      else if IsV6Char(ch) then V6
      else if s.V6? && ch == '%' then V6ZoneStart
      else HostDead
    else if s.V6Zone? || s.V6ZoneStart? then
      if s.V6Zone? && ch == ']' then V6End
      else if IsZoneChar(ch) then V6Zone
      else HostDead
    else if s.Port? || s.PortStart? then if IsNum(ch) then Port else HostDead
    else HostDead
  }

  predicate HostShape(ps: Parts, foundAt: bool) {
    && All(IsUserinfoChar, ps[USERINFO])
    && (ps[AT] == "" || ps[AT] == "@")
    && (ps[OPEN] == "" || ps[OPEN] == "[")
    && (if ps[OPEN] == "" then All(IsHostChar, ps[HOST]) else All(IsV6Char, ps[HOST]))
    && (ps[ZONE] != "" ==> ps[ZONE][0] == '%' && All(IsZoneChar, ps[ZONE]))
    && (ps[CLOSE] == "" || ps[CLOSE] == "]")
    && (ps[COLON] == "" || ps[COLON] == ":")
    && All(IsNum, ps[PORT])
    && HostOrder(ps, foundAt)
  }

  predicate HostOrder(ps: Parts, foundAt: bool) {
    && (ps[USERINFO] != "" || ps[AT] != "" ==> foundAt)
    && (ps[OPEN] != "" || ps[HOST] != "" ==> ps[AT] != "" || !foundAt)
    && (ps[ZONE] != "" ==> ps[OPEN] != "" && ps[HOST] != "")
    && (ps[CLOSE] != "" ==> ps[OPEN] != "" && ps[HOST] != "" && |ps[ZONE]| != 1)
    && (ps[COLON] != "" ==> ps[HOST] != "" && (ps[OPEN] != "" ==> ps[CLOSE] != ""))
    && (ps[PORT] != "" ==> ps[COLON] != "")
  }

  function HostStateOf(ps: Parts, foundAt: bool): HostState {
    if ps[PORT] != "" then Port
    else if ps[COLON] != "" then PortStart
    else if ps[CLOSE] != "" then V6End
    else if |ps[ZONE]| > 1 then V6Zone
    else if ps[ZONE] != "" then V6ZoneStart
    else if ps[HOST] != "" then (if ps[OPEN] != "" then V6 else Host)
    else if ps[OPEN] != "" then V6Start
    else if ps[AT] != "" then HostStart
    else if ps[USERINFO] != "" then Userinfo
    else if foundAt then UserinfoStart
    else HostStart
  }

  function HostSlot(s: HostState): (k: nat)
    ensures k < 8
  {
    if s.Port? then PORT
    else if s.PortStart? then COLON
    else if s.V6End? then CLOSE
    else if s.V6ZoneStart? || s.V6Zone? then ZONE
    else if s.V6? || s.Host? then HOST
    else if s.V6Start? then OPEN
    else if s.HostStart? then AT
    else USERINFO
  }

  datatype HostScanned = HostScanned(state: HostState, parts: Parts)

  function HostStep(h: HostScanned, ch: char): HostScanned {
    var t := ParseHostChar(h.state, ch);
    HostScanned(t, Add(h.parts, HostSlot(t), ch))
  }

  function HostScan(text: string, foundAt: bool): HostScanned
    decreases |text|
  {
    if |text| == 0 then HostScanned(if foundAt then UserinfoStart else HostStart, NO_PARTS)
    else HostStep(HostScan(text[..|text| - 1], foundAt), text[|text| - 1])
  }

  /** The states in which an authority may end. */
  predicate HostMayEnd(s: HostState) {
    s.Host? || s.V6End? || s.Port?
  }

  predicate HostAdded(ps: Parts, foundAt: bool, ch: char) {
    var t := ParseHostChar(HostStateOf(ps, foundAt), ch);
    var qs := Add(ps, HostSlot(t), ch);
    EmptyAfter(ps, HostSlot(t)) && HostShape(qs, foundAt) && HostStateOf(qs, foundAt) == t
  }

  lemma HostForwardFront(ps: Parts, foundAt: bool, ch: char)
    requires HostShape(ps, foundAt)
    requires var t := ParseHostChar(HostStateOf(ps, foundAt), ch); !t.HostDead? && HostSlot(t) <= HOST
    ensures HostAdded(ps, foundAt, ch)
  {}

  lemma HostForwardBack(ps: Parts, foundAt: bool, ch: char)
    requires HostShape(ps, foundAt)
    requires var t := ParseHostChar(HostStateOf(ps, foundAt), ch); !t.HostDead? && HostSlot(t) > HOST
    ensures HostAdded(ps, foundAt, ch)
  {}

  lemma HostForward(ps: Parts, foundAt: bool, ch: char)
    requires HostShape(ps, foundAt) && !ParseHostChar(HostStateOf(ps, foundAt), ch).HostDead?
    ensures HostAdded(ps, foundAt, ch)
    ensures Join(Add(ps, HostSlot(ParseHostChar(HostStateOf(ps, foundAt), ch)), ch)) == Join(ps) + [ch]
  {
    hide HostShape, HostStateOf, HostSlot, ParseHostChar;
    var k := HostSlot(ParseHostChar(HostStateOf(ps, foundAt), ch));
    if k <= HOST {
      HostForwardFront(ps, foundAt, ch);
    } else {
      HostForwardBack(ps, foundAt, ch);
    }
    JoinAdd(ps, k, ch);
  }

  lemma SomeHostPart(ps: Parts, foundAt: bool)
    requires HostShape(ps, foundAt) && Join(ps) != ""
    ensures ps[HostSlot(HostStateOf(ps, foundAt))] != ""
  {
    if forall i :: 0 <= i < 8 ==> ps[i] == "" {
      JoinUpTo(ps, 0);
    }
  }

  predicate HostUndone(ps: Parts, k: nat, foundAt: bool)
    requires k < 8 && ps[k] != ""
  {
    && HostShape(Pop(ps, k), foundAt) && EmptyAfter(Pop(ps, k), k)
    && Add(Pop(ps, k), k, ps[k][|ps[k]| - 1]) == ps
    && ParseHostChar(HostStateOf(Pop(ps, k), foundAt), ps[k][|ps[k]| - 1]) == HostStateOf(ps, foundAt)
  }

  lemma HostBackwardUserinfo(ps: Parts, foundAt: bool)
    requires HostShape(ps, foundAt) && HostSlot(HostStateOf(ps, foundAt)) == USERINFO && ps[USERINFO] != ""
    ensures HostUndone(ps, USERINFO, foundAt)
  {
    hide Add;
    PopAdd(ps, USERINFO);
  }

  lemma HostBackwardAt(ps: Parts, foundAt: bool)
    requires HostShape(ps, foundAt) && HostSlot(HostStateOf(ps, foundAt)) == AT && ps[AT] != ""
    ensures HostUndone(ps, AT, foundAt)
  {
    hide Add;
    PopAdd(ps, AT);
  }

  lemma HostBackwardOpen(ps: Parts, foundAt: bool)
    requires HostShape(ps, foundAt) && HostSlot(HostStateOf(ps, foundAt)) == OPEN && ps[OPEN] != ""
    ensures HostUndone(ps, OPEN, foundAt)
  {
    hide Add;
    PopAdd(ps, OPEN);
  }

  lemma HostBackwardHost(ps: Parts, foundAt: bool)
    requires HostShape(ps, foundAt) && HostSlot(HostStateOf(ps, foundAt)) == HOST && ps[HOST] != ""
    ensures HostUndone(ps, HOST, foundAt)
  {
    hide Add;
    PopAdd(ps, HOST);
  }

  lemma HostBackwardZone(ps: Parts, foundAt: bool)
    requires HostShape(ps, foundAt) && HostSlot(HostStateOf(ps, foundAt)) == ZONE && ps[ZONE] != ""
    ensures HostUndone(ps, ZONE, foundAt)
  {
    hide Add;
    PopAdd(ps, ZONE);
  }

  lemma HostBackwardClose(ps: Parts, foundAt: bool)
    requires HostShape(ps, foundAt) && HostSlot(HostStateOf(ps, foundAt)) == CLOSE && ps[CLOSE] != ""
    ensures HostUndone(ps, CLOSE, foundAt)
  {
    hide Add;
    PopAdd(ps, CLOSE);
  }

  lemma HostBackwardColon(ps: Parts, foundAt: bool)
    requires HostShape(ps, foundAt) && HostSlot(HostStateOf(ps, foundAt)) == COLON && ps[COLON] != ""
    ensures HostUndone(ps, COLON, foundAt)
  {
    hide Add;
    PopAdd(ps, COLON);
  }

  lemma HostBackwardPort(ps: Parts, foundAt: bool)
    requires HostShape(ps, foundAt) && HostSlot(HostStateOf(ps, foundAt)) == PORT && ps[PORT] != ""
    ensures HostUndone(ps, PORT, foundAt)
  {
    hide Add;
    PopAdd(ps, PORT);
  }

  lemma HostBackward(ps: Parts, foundAt: bool)
    requires HostShape(ps, foundAt) && Join(ps) != ""
    ensures var k := HostSlot(HostStateOf(ps, foundAt)); ps[k] != "" && HostUndone(ps, k, foundAt)
  {
    hide HostShape, HostUndone, ParseHostChar, HostStateOf, HostSlot;
    var k := HostSlot(HostStateOf(ps, foundAt));
    SomeHostPart(ps, foundAt);
    if k == USERINFO {
      HostBackwardUserinfo(ps, foundAt);
    } else if k == AT {
      HostBackwardAt(ps, foundAt);
    } else if k == OPEN {
      HostBackwardOpen(ps, foundAt);
    } else if k == HOST {
      HostBackwardHost(ps, foundAt);
    } else if k == ZONE {
      HostBackwardZone(ps, foundAt);
    } else if k == CLOSE {
      HostBackwardClose(ps, foundAt);
    } else if k == COLON {
      HostBackwardColon(ps, foundAt);
    } else {
      HostBackwardPort(ps, foundAt);
    }
  }

  lemma NothingHosted(foundAt: bool)
    ensures HostShape(NO_PARTS, foundAt) && Join(NO_PARTS) == ""
    ensures HostStateOf(NO_PARTS, foundAt) == if foundAt then UserinfoStart else HostStart
  {
    JoinUpTo(NO_PARTS, 0);
  }

  /** A surviving inner machine has split the text into the parts of a beginning of an authority. */
  lemma {:induction false} HostScanSound(text: string, foundAt: bool)
    requires !HostScan(text, foundAt).state.HostDead?
    ensures var h := HostScan(text, foundAt);
            HostShape(h.parts, foundAt) && Join(h.parts) == text && h.state == HostStateOf(h.parts, foundAt)
    ensures |text| > 0 ==>
              var h := HostScan(text[..|text| - 1], foundAt);
              !h.state.HostDead? && EmptyAfter(h.parts, HostSlot(HostScan(text, foundAt).state))
    decreases |text|
  {
    hide HostShape, HostStateOf, HostSlot, EmptyAfter, Add, Join;
    if |text| == 0 {
      NothingHosted(foundAt);
    } else {
      var n := |text| - 1;
      var h := HostScan(text[..n], foundAt);
      assert !h.state.HostDead?;
      hide ParseHostChar;
      HostScanSound(text[..n], foundAt);
      HostForward(h.parts, foundAt, text[n]);
      assert text[..n] + [text[n]] == text;
    }
  }

  /** The inner machine survives on every beginning of an authority and splits it into the given parts. */
  lemma {:induction false} HostScanComplete(ps: Parts, foundAt: bool)
    requires HostShape(ps, foundAt)
    ensures HostScan(Join(ps), foundAt) == HostScanned(HostStateOf(ps, foundAt), ps)
    decreases |Join(ps)|
  {
    if Join(ps) == "" {
      EmptyJoin(ps);
    } else {
      hide HostShape, HostStateOf, HostSlot, ParseHostChar;
      HostBackward(ps, foundAt);
      var k := HostSlot(HostStateOf(ps, foundAt));
      var qs, ch := Pop(ps, k), ps[k][|ps[k]| - 1];
      JoinAdd(qs, k, ch);
      assert Join(ps)[..|Join(ps)| - 1] == Join(qs);
      HostScanComplete(qs, foundAt);
    }
  }
}
