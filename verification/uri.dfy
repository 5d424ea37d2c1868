/** The URI object: made from a text by the URL parser, printed by `ToString`. */
module Uris {
  import opened HttpSyntax
  import opened HttpMachine
  import opened Numerals
  import opened UrlGrammar
  import opened UrlHost
  import opened UrlParsing
  import opened UrlBounds
  import opened Wrappers

  /** The fields of a URI. */
  datatype UriValue = UriValue(scheme: string, userinfo: string, host: string, path: string,
                               query: string, fragment: string, port: nat)
  {
    predicate IsPlainScheme() {
      scheme == "http" || scheme == "ws"
    }

    predicate IsSecureScheme() {
      scheme == "https" || scheme == "wss"
    }

    function GetPath(): string {
      if path == "" then "/" else path
    }

    function GetPort(): nat {
      if port != 0 then port
      else if IsPlainScheme() then 80
      else if IsSecureScheme() then 443
      else port
    }

    predicate IsDefaultPort() {
      if IsPlainScheme() then port == 80
      else if IsSecureScheme() then port == 443
      else false
    }

    function ToString(): string {
      scheme + "://" + userinfo + (if userinfo == "" then "" else "@") + host +
      (if IsDefaultPort() then "" else ":" + Numeral(10, GetPort())) + GetPath() +
      (if query == "" then "" else "?") + query + (if fragment == "" then "" else "#") + fragment
    }

    /** No getter tells the two apart. */
    predicate SameAs(v: UriValue) {
      && scheme == v.scheme && userinfo == v.userinfo && host == v.host && GetPath() == v.GetPath()
      && query == v.query && fragment == v.fragment && GetPort() == v.GetPort()
    }
  }

  function PortOf(scheme: string, digits: string): nat
    requires All(IsNum, digits)
  {
    if digits != "" then PortValue(digits)
    else if scheme == "http" || scheme == "ws" then 80
    else if scheme == "https" || scheme == "wss" then 443
    else 0
  }

  /** What a URL with these parts says. */
  function UriOf(ps: Parts, hs: Parts): UriValue
    requires All(IsNum, hs[PORT])
  {
    UriValue(ps[SCHEME], hs[USERINFO], hs[HOST] + hs[ZONE], ps[PATH], ps[QUERY], ps[FRAGMENT], PortOf(ps[SCHEME], hs[PORT]))
  }

  // ---------------------------------------------------------------- what the getters say

  /** What is recorded of component `f`; for one that is not there the string of the URI stays empty, as it was made. */
  function Recorded(url: string, f: Field): string {
    var ps, hs := TheParts(url, false), SeenParts(url, false);
    Cut(url, Start(ps, hs, f), |Component(ps, hs, f)|)
  }

  /** The digits at the beginning of a text. */
  function Digits(text: string): (d: string)
    ensures |d| <= |text| && d == text[..|d|] && All(IsNum, d)
  {
    if |text| == 0 || !IsNum(text[0]) then "" else [text[0]] + Digits(text[1..])
  }

  /** `std::stoi` on a text that begins neither with white space nor with a sign: nothing where it throws. */
  function Stoi(text: string): Option<nat>
    requires |text| > 0 && text[0] >= '0'
  {
    var d := Digits(text);
    if d == "" || PortValue(d) >= 0x8000_0000 then None else Some(PortValue(d))
  }

  /** On what the third pass has read it throws exactly if there is no digit in front, and never for the size. */
  lemma StoiOfPort(text: string)
    requires |text| > 0 && PortRead(text).Some?
    ensures text[0] >= '0' && (Stoi(text).None? <==> !IsNum(text[0]))
    ensures Stoi(text).Some? ==> Stoi(text).value < UINT16_RANGE
  {
    hide PortRead, PortValue;
    PortReadPrefix(text, 1);
    FirstOfPort(text[0]);
    assert text[..1] == [text[0]];
    var d := Digits(text);
    PortReadPrefix(text, |d|);
    PortReadIsValue(d);
  }

  lemma FirstOfPort(ch: char)
    ensures PortRead([ch]).Some? ==> ch >= '0'
  {
    assert [ch][..0] == "" && PortRead("") == Some(0) && [ch][0] == ch;
    assert PortRead([ch]).Some? ==> PortRead([ch]).value == ch as int - '0' as int;
  }

  lemma PortReadPrefix(text: string, n: nat)
    requires n <= |text| && PortRead(text).Some?
    ensures PortRead(text[..n]).Some?
  {
    if PortRead(text[..n]).None? {
      NoPortFrom(text, n);
    }
  }

  predicate HasPort(url: string) {
    SeenParts(url, false)[PORT] != ""
  }

  /** The port is read a second time, and that throws. */
  predicate Throws(url: string) {
    Accepted(url, false) && HasPort(url) && !IsNum((SeenPort(url, false) + " ")[0])
  }

  /** The value of the port, or the default of the scheme. */
  function PortRecorded(url: string): nat {
    if HasPort(url) then PortValue(Digits(SeenPort(url, false))) else PortOf(Recorded(url, SchemaField), "")
  }

  /** What the getters say of an accepted text. */
  function ReadOf(url: string): UriValue {
    UriValue(Recorded(url, SchemaField), Recorded(url, UserinfoField), Recorded(url, HostField), Recorded(url, PathField),
             Recorded(url, QueryField), Recorded(url, FragmentField), PortRecorded(url))
  }

  // ---------------------------------------------------------------- when that is right

  /** When nothing is cut they give the components of the URL. */
  lemma ReadExactly(url: string, ps: Parts, hs: Parts)
    requires Written(url, false, ps, hs) && Fits16(ps, hs)
    ensures Accepted(url, false) && !Throws(url) && ReadOf(url) == UriOf(ps, hs)
  {
    hide Written, Start, Accepted, SeenParts, TheParts, Fits16, Component, PortValue, PortRead, SeenPort, Cut;
    WrittenParts(url, false, ps, hs);
    FittingIsRight(url, false, ps, hs);
    FittingIsSeen(url, ps, hs);
    forall f: Field ensures Recorded(url, f) == Component(ps, hs, f) {
      RecordedComponent(url, ps, hs, f);
    }
    ComponentsAre(ps, hs);
    PortIsDigits(url, ps, hs);
  }

  lemma FittingIsSeen(url: string, ps: Parts, hs: Parts)
    requires Written(url, false, ps, hs) && Fits16(ps, hs)
    ensures SeenParts(url, false) == hs
  {
    hide Written, Accepted, SeenParts, Start, Component, Join, Offset;
    WrittenParts(url, false, ps, hs);
    assert FieldFits(ps, hs, PortField) && FieldFits(ps, hs, HostField);
    HostInAuthority(ps, hs);
    SeenWhole(url, false, ps, hs);
  }

  lemma RecordedComponent(url: string, ps: Parts, hs: Parts, f: Field)
    requires Written(url, false, ps, hs) && Fits16(ps, hs) && SeenParts(url, false) == hs
    ensures Recorded(url, f) == Component(ps, hs, f)
  {
    hide Written, Start, Component, SeenParts;
    WrittenParts(url, false, ps, hs);
    FieldsInOrder(url, false, ps, hs, f, f);
    assert FieldFits(ps, hs, f);
    U16Below(Start(ps, hs, f));
    if Component(ps, hs, f) != "" {
      SmallFits(Start(ps, hs, f));
      SmallFits(|Component(ps, hs, f)|);
    }
  }

  lemma ComponentsAre(ps: Parts, hs: Parts)
    ensures Component(ps, hs, SchemaField) == ps[SCHEME] && Component(ps, hs, UserinfoField) == hs[USERINFO]
    ensures Component(ps, hs, HostField) == hs[HOST] + hs[ZONE] && Component(ps, hs, PathField) == ps[PATH]
    ensures Component(ps, hs, QueryField) == ps[QUERY] && Component(ps, hs, FragmentField) == ps[FRAGMENT]
    ensures Component(ps, hs, PortField) == hs[PORT]
  {}

  lemma PortIsDigits(url: string, ps: Parts, hs: Parts)
    requires Written(url, false, ps, hs) && SeenParts(url, false) == hs && Recorded(url, PortField) == hs[PORT]
    ensures SeenPort(url, false) == hs[PORT] && !Throws(url)
    ensures Recorded(url, SchemaField) == ps[SCHEME] ==> PortRecorded(url) == PortOf(ps[SCHEME], hs[PORT])
  {
    hide Written, Accepted, SeenParts, PortValue, Join, Offset, Cut;
    WrittenParts(url, false, ps, hs);
    AllDigits(hs[PORT]);
  }

  lemma {:induction false} AllDigits(text: string)
    requires All(IsNum, text)
    ensures Digits(text) == text
    decreases |text|
  {
    if |text| > 0 {
      AllDigits(text[1..]);
    }
  }

  /** Path, query and fragment: a component of 2^16 characters or more is never given whole, and one that begins
      before 2^16 is exactly if it is shorter. */
  lemma GivenWhole(url: string, ps: Parts, hs: Parts, f: Field)
    requires Written(url, false, ps, hs) && (f.PathField? || f.QueryField? || f.FragmentField?)
    ensures Recorded(url, f) == ps[PartOf(f)] ==> |ps[PartOf(f)]| < UINT16_RANGE
    ensures Offset(ps, PartOf(f)) < UINT16_RANGE ==> (Recorded(url, f) == ps[PartOf(f)] <==> |ps[PartOf(f)]| < UINT16_RANGE)
  {
    hide Written, Join, Offset, SeenParts, Start, Component, UrlScan;
    WrittenParts(url, false, ps, hs);
    var k := PartOf(f);
    FieldInPart0(ps, SeenParts(url, false), f);
    PartIsSlice(ps, k);
    RecordedIsShort(url, f);
    U16Below(Offset(ps, k));
    U16Below(|ps[k]|);
    hide U16;
    if Offset(ps, k) < UINT16_RANGE {
      SmallFits(Offset(ps, k));
    }
  }

  lemma RecordedIsShort(url: string, f: Field)
    ensures |Recorded(url, f)| < UINT16_RANGE
  {}

  /** A path of a multiple of 2^16 characters is read as none. */
  lemma LongPathIsLost(url: string, ps: Parts, hs: Parts)
    requires Written(url, false, ps, hs) && |ps[PATH]| % UINT16_RANGE == 0
    ensures ReadOf(url).path == ""
  {
    hide Written, SeenParts, PortRecorded;
    WrittenParts(url, false, ps, hs);
  }

  /** A URL for which it throws: the port that is read lies in the scheme. */
  lemma MisreadPortThrows(scheme: string, host: string)
    requires scheme != "" && (forall i :: 0 <= i < |scheme| ==> scheme[i] == 'a') && host != "" && All(IsHostChar, host)
    requires var at := |scheme| + 4 + |host|; |scheme| + 3 < UINT16_RANGE <= at && |host| + 3 < UINT16_RANGE && U16(at) + 2 <= |scheme|
    ensures var url := scheme + "://" + host + ":80"; (exists ps, hs :: Written(url, false, ps, hs)) && Throws(url)
  {
    hide Written, Accepted, SeenParts, SeenPort;
    PortReadElsewhere(scheme, host);
    assert !IsNum("aa"[0]);
  }

  // ---------------------------------------------------------------- the object

  class Uri {
    var scheme: string
    var userinfo: string
    var host: string
    var path: string
    var query: string
    var fragment: string
    var port: nat

    function Value(): UriValue
      reads this
    {
      UriValue(scheme, userinfo, host, path, query, fragment, port)
    }

    constructor ()
      ensures Value() == UriValue("", "", "", "", "", "", 0)
    {
      scheme, userinfo, host, path, query, fragment, port := "", "", "", "", "", "", 0;
    }

    /** Gives null exactly for the texts that are not accepted, and throws exactly on a port without a digit in front;
        otherwise gives an object with what was recorded. */
    static method Create(url: string) returns (uri: Uri?, threw: bool)
      ensures threw == Throws(url) && (uri != null <==> Accepted(url, false) && !threw)
      ensures uri != null ==> fresh(uri) && uri.Value() == ReadOf(url)
    {
      hide Accepted, Describes, Component, PortValue, All, Start, Cut, PortRead, Recorded, SeenParts;
      uri, threw := null, false;
      var parser := new HttpUrl();
      var failed := parser.ParseUrl(url, false);
      if failed {
        return;
      }
      var fields, data := parser.fieldSet, parser.fieldData;
      forall f: Field ensures InBounds(url, fields, data, f) && Fetch(url, fields, data, f) == Recorded(url, f) {
        Fetches(url, fields, data, f);
      }
      PortFetched(url, fields, data);
      hide InBounds, Fetch, HasPort, SeenPort;
      uri := new Uri();
      uri.scheme := Fetch(url, fields, data, SchemaField);
      uri.userinfo := Fetch(url, fields, data, UserinfoField);
      uri.host := Fetch(url, fields, data, HostField);
      if PortField in fields {
        var port := Stoi(Fetch(url, fields, data, PortField));
        if port.None? {
          return null, true;
        }
        uri.port := U16(port.value);
      } else if uri.scheme == "http" || uri.scheme == "ws" {
        uri.port := 80;
      } else if uri.scheme == "https" || uri.scheme == "wss" {
        uri.port := 443;
      }
      uri.path := Fetch(url, fields, data, PathField);
      uri.query := Fetch(url, fields, data, QueryField);
      uri.fragment := Fetch(url, fields, data, FragmentField);
    }
  }

  predicate InBounds(url: string, fields: set<Field>, data: map<Field, Span>, f: Field) {
    f in fields ==> f in data && data[f].off + data[f].len <= |url|
  }

  /** The text of a field; a field that is not set leaves the string of the URI empty, as it was made. */
  function Fetch(url: string, fields: set<Field>, data: map<Field, Span>, f: Field): string
    requires InBounds(url, fields, data, f)
  {
    if f in fields then url[data[f].off..data[f].off + data[f].len] else ""
  }

  lemma Fetches(url: string, fields: set<Field>, data: map<Field, Span>, f: Field)
    requires Accepted(url, false) && Describes(fields, data, TheParts(url, false), SeenParts(url, false))
    ensures InBounds(url, fields, data, f) && Fetch(url, fields, data, f) == Recorded(url, f)
  {
    hide Accepted, Start, Component, SeenParts, TheParts;
    assert Described(fields, data, TheParts(url, false), SeenParts(url, false), f);
    RecordedInBounds(url, f);
  }

  lemma PortFetched(url: string, fields: set<Field>, data: map<Field, Span>)
    requires Accepted(url, false) && Describes(fields, data, TheParts(url, false), SeenParts(url, false))
    requires forall f: Field :: InBounds(url, fields, data, f) && Fetch(url, fields, data, f) == Recorded(url, f)
    ensures (PortField in fields <==> HasPort(url)) && (!HasPort(url) ==> !Throws(url))
    ensures PortField in fields ==>
              var text := Fetch(url, fields, data, PortField);
              && |text| > 0 && text[0] >= '0' && text == SeenPort(url, false)
              && (Stoi(text).None? <==> Throws(url))
              && (Stoi(text).Some? ==> U16(Stoi(text).value) == PortValue(Digits(text)) == PortRecorded(url))
  {
    assert Described(fields, data, TheParts(url, false), SeenParts(url, false), PortField);
    hide Start, SeenParts, TheParts, InBounds, PortValue, PortRead, Digits, Cut;
    var text := Fetch(url, fields, data, PortField);
    if PortField in fields {
      PortLength(url);
      StoiOfPort(text);
    }
  }

  /** The stretch of a component that is there lies inside the text. */
  lemma RecordedInBounds(url: string, f: Field)
    requires Accepted(url, false)
    ensures var ps, hs := TheParts(url, false), SeenParts(url, false);
            Component(ps, hs, f) != "" ==> U16(Start(ps, hs, f)) + U16(|Component(ps, hs, f)|) <= |url|
  {
    hide Join, Offset, U16, HostShape, HostStateOf, HostMayEnd, HostScan, UrlScan, UrlShape, UrlStateOf, PortRead, Cut;
    var ps, hs := TheParts(url, false), SeenParts(url, false);
    UrlScanSound(url, false);
    if IsOuter(f) && !f.HostField? {
      FieldInPart0(ps, hs, f);
      PartIsSlice(ps, PartOf(f));
      U16Below(Start(ps, hs, f));
      U16Below(|Component(ps, hs, f)|);
    } else if ps[AUTHORITY] != "" {
      var text, foundAt := SeenAuthority(url, false), '@' in ps[AUTHORITY];
      AliveAtEnd(HostScan(text, foundAt).state);
      HostScanSound(text, foundAt);
      SeenInBounds(url, false);
      InnerInBounds(ps, hs, f, text, |url|);
    }
  }

  lemma FieldInPart0(ps: Parts, hs: Parts, f: Field)
    requires IsOuter(f) && !f.HostField?
    ensures Start(ps, hs, f) == Offset(ps, PartOf(f)) && Component(ps, hs, f) == ps[PartOf(f)]
  {
    assert ps[..0] == [];
  }

  lemma InnerInBounds(ps: Parts, hs: Parts, f: Field, text: string, n: nat)
    requires (!IsOuter(f) || f.HostField?) && Join(hs) == text && U16(Offset(ps, AUTHORITY)) + |text| <= n
    ensures U16(Start(ps, hs, f)) + U16(|Component(ps, hs, f)|) <= n
  {
    assert hs[..0] == [] && Join([]) == "";
    hide Join, U16, Offset;
    FirstOffset(hs);
    HostBeforeZone(hs);
    PartIsSlice(hs, USERINFO);
    PartIsSlice(hs, PORT);
    var k := if f.UserinfoField? then USERINFO else if f.PortField? then PORT else HOST;
    U16Add(Offset(ps, AUTHORITY), Offset(hs, k));
    U16Below(U16(Offset(ps, AUTHORITY)) + Offset(hs, k));
    U16Below(|Component(ps, hs, f)|);
  }

  /** The port that is seen is shorter than 2^16, so that something is left of it. */
  lemma PortLength(url: string)
    requires Accepted(url, false) && HasPort(url)
    ensures |SeenPort(url, false)| > 0 && PortRead(SeenPort(url, false)).Some? && SeenPort(url, false) == Recorded(url, PortField)
  {
    hide Join, Offset, HostShape, HostStateOf, HostMayEnd, HostScan, UrlScan, PortRead, Start;
    var ps, hs := TheParts(url, false), SeenParts(url, false);
    var text, foundAt := SeenAuthority(url, false), '@' in ps[AUTHORITY];
    AliveAtEnd(HostScan(text, foundAt).state);
    HostScanSound(text, foundAt);
    PartIsSlice(hs, PORT);
    RecordedInBounds(url, PortField);
  }
}
