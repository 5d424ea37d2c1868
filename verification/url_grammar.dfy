/** What the two URL state machines accept. A text that is being scanned is kept as a list of parts whose
    concatenation it is, one part a component or a delimiter. `UrlShape` and `HostShape` say, without the
    machines, which lists of parts are beginnings of a URL and of an authority; `UrlScanSound` and
    `UrlScanComplete` here, and `HostScanSound` and `HostScanComplete` in UrlHost, say that the machines
    survive exactly on those, and split them in that way. */
module UrlGrammar {
  import opened HttpSyntax

  // ---------------------------------------------------------------- lists of parts

  type Parts = ps: seq<string> | |ps| == 8 witness ["", "", "", "", "", "", "", ""]

  const NO_PARTS: Parts := ["", "", "", "", "", "", "", ""]

  function Join(ps: seq<string>): string {
    if |ps| == 0 then "" else Join(ps[..|ps| - 1]) + ps[|ps| - 1]
  }

  /** Where part `k` begins. */
  function Offset(ps: seq<string>, k: nat): nat
    requires k <= |ps|
  {
    |Join(ps[..k])|
  }

  predicate EmptyAfter(ps: Parts, k: nat) {
    forall i :: k < i < 8 ==> ps[i] == ""
  }

  function Add(ps: Parts, k: nat, ch: char): Parts
    requires k < 8
  {
    ps[k := ps[k] + [ch]]
  }

  predicate All(p: char -> bool, s: string) {
    forall i :: 0 <= i < |s| ==> p(s[i])
  }

  lemma {:induction false} JoinUpTo(ps: seq<string>, k: nat)
    requires k <= |ps| && forall i :: k <= i < |ps| ==> ps[i] == ""
    ensures Join(ps) == Join(ps[..k])
    decreases |ps|
  {
    if k < |ps| {
      assert ps[..|ps| - 1][..k] == ps[..k];
      JoinUpTo(ps[..|ps| - 1], k);
    } else {
      assert ps[..k] == ps;
    }
  }

  lemma JoinAt(ps: seq<string>, k: nat)
    requires k < |ps|
    ensures Join(ps[..k + 1]) == Join(ps[..k]) + ps[k]
  {
    assert ps[..k + 1][..k] == ps[..k];
  }

  lemma JoinNone()
    ensures Join([]) == "" && forall s: string :: "" + s == s
  {}

  lemma JoinEight(ps: Parts)
    ensures Join(ps) == ps[0] + ps[1] + ps[2] + ps[3] + ps[4] + ps[5] + ps[6] + ps[7]
  {
    hide Join;
    assert ps[..8] == ps && ps[..0] == [];
    JoinNone();
    JoinAt(ps, 0);
    JoinAt(ps, 1);
    JoinAt(ps, 2);
    JoinAt(ps, 3);
    JoinAt(ps, 4);
    JoinAt(ps, 5);
    JoinAt(ps, 6);
    JoinAt(ps, 7);
  }

  lemma JoinAdd(ps: Parts, k: nat, ch: char)
    requires k < 8 && EmptyAfter(ps, k)
    ensures EmptyAfter(Add(ps, k, ch), k)
    ensures Join(Add(ps, k, ch)) == Join(ps) + [ch]
    ensures forall i :: 0 <= i <= k ==> Offset(Add(ps, k, ch), i) == Offset(ps, i)
    ensures ps[k] == "" ==> Offset(ps, k) == |Join(ps)|
  {
    var qs := Add(ps, k, ch);
    forall i | 0 <= i <= k ensures qs[..i] == ps[..i] {}
    JoinUpTo(ps, k + 1);
    JoinUpTo(qs, k + 1);
    JoinAt(ps, k);
    JoinAt(qs, k);
  }

  lemma {:induction false} OffsetsGrow(ps: seq<string>, j: nat, k: nat)
    requires j <= k <= |ps|
    ensures Offset(ps, j) <= Offset(ps, k) <= |Join(ps)|
    ensures j < k ==> Offset(ps, j) + |ps[j]| <= Offset(ps, k)
    ensures Join(ps)[Offset(ps, j)..Offset(ps, k)] == Join(ps[j..k])
    decreases |ps| - j
  {
    assert ps[..|ps|] == ps;
    if j < |ps| {
      OffsetsTotal(ps, k);
      OffsetsBetween(ps, j, k);
    } else {
      assert ps[j..k] == [];
    }
  }

  lemma {:induction false} OffsetsTotal(ps: seq<string>, k: nat)
    requires k <= |ps|
    ensures Join(ps) == Join(ps[..k]) + Join(ps[k..])
    decreases |ps|
  {
    if k < |ps| {
      var qs := ps[..|ps| - 1];
      OffsetsTotal(qs, k);
      assert qs[..k] == ps[..k];
      assert ps[k..][..|ps| - k - 1] == qs[k..];
    } else {
      assert ps[..k] == ps && ps[k..] == [];
    }
  }

  lemma OffsetsBetween(ps: seq<string>, j: nat, k: nat)
    requires j <= k <= |ps| && j < |ps|
    ensures Offset(ps, j) <= Offset(ps, k) <= |Join(ps)|
    ensures j < k ==> Offset(ps, j) + |ps[j]| <= Offset(ps, k)
    ensures Join(ps)[Offset(ps, j)..Offset(ps, k)] == Join(ps[j..k])
  {
    OffsetsTotal(ps, k);
    OffsetsTotal(ps[..k], j);
    assert ps[..k][..j] == ps[..j] && ps[..k][j..] == ps[j..k];
    if j < k {
      OffsetsTotal(ps[..k], j + 1);
      assert ps[..k][..j + 1] == ps[..j + 1];
      JoinAt(ps, j);
    }
  }

  // ---------------------------------------------------------------- the outer machine

  // The parts of a URL: scheme, "://", authority, path, "?", query, "#"s, fragment.
  const SCHEME := 0
  const DELIMITER := 1
  const AUTHORITY := 2
  const PATH := 3
  const QUESTION := 4
  const QUERY := 5
  const HASHES := 6
  const FRAGMENT := 7

  predicate IsServerChar(c: char) {
    IsUserinfoChar(c) || c == '@' || c == '[' || c == ']'
  }

  predicate IsQueryChar(c: char) {
    IsUrlChar(c) || c == '?'
  }

  predicate IsFragmentChar(c: char) {
    IsUrlChar(c) || c == '?' || c == '#'
  }

  predicate NoDoubleAt(s: string) {
    forall i :: 0 < i < |s| ==> !(s[i - 1] == '@' && s[i] == '@')
  }

  predicate UrlShape(ps: Parts, connect: bool) {
    && UrlClasses(ps)
    && UrlOrder(ps, connect)
  }

  predicate UrlClasses(ps: Parts) {
    && All(IsAlpha, ps[SCHEME])
    && (ps[DELIMITER] == "" || ps[DELIMITER] == ":" || ps[DELIMITER] == ":/" || ps[DELIMITER] == "://")
    && All(IsServerChar, ps[AUTHORITY]) && NoDoubleAt(ps[AUTHORITY])
    && All(IsUrlChar, ps[PATH]) && (ps[PATH] != "" ==> ps[PATH][0] == '/' || ps[PATH][0] == '*')
    && (ps[QUESTION] == "" || ps[QUESTION] == "?")
    && All(IsQueryChar, ps[QUERY])
    && All(c => c == '#', ps[HASHES])
    && All(IsFragmentChar, ps[FRAGMENT]) && (ps[FRAGMENT] != "" ==> ps[FRAGMENT][0] != '#')
  }

  predicate UrlOrder(ps: Parts, connect: bool) {
    && (connect ==> ps[SCHEME] == "")
    && (ps[DELIMITER] != "" ==> ps[SCHEME] != "")
    && (ps[AUTHORITY] != "" ==> connect || ps[DELIMITER] == "://")
    && (ps[PATH] != "" && ps[PATH][0] == '*' ==> !connect && ps[SCHEME] == "")
    && (ps[PATH] != "" && ps[SCHEME] != "" ==> ps[DELIMITER] == "://")
    && (ps[QUESTION] != "" ==> ps[PATH] != "" || connect || ps[DELIMITER] == "://")
    && (ps[QUERY] != "" ==> ps[QUESTION] != "")
    && (ps[HASHES] != "" ==> ps[PATH] != "" || ps[QUESTION] != "")
    && (ps[FRAGMENT] != "" ==> ps[HASHES] != "")
  }

  /** The last non-empty part decides the state. */
  function UrlStateOf(ps: Parts, connect: bool): (s: State)
    ensures !s.Dead?
  {
    if ps[FRAGMENT] != "" then ReqFragment
    else if ps[HASHES] != "" then ReqFragmentStart
    else if ps[QUERY] != "" then ReqQueryString
    else if ps[QUESTION] != "" then ReqQueryStringStart
    else if ps[PATH] != "" then ReqPath
    else if ps[AUTHORITY] != "" then
      (if ps[AUTHORITY][|ps[AUTHORITY]| - 1] == '@' then ReqServerWithAt else ReqServer)
    else if |ps[DELIMITER]| == 1 then ReqSchemaSlash
    else if |ps[DELIMITER]| == 2 then ReqSchemaSlashSlash
    else if ps[DELIMITER] != "" then ReqServerStart
    else if ps[SCHEME] != "" then ReqSchema
    else if connect then ReqServerStart
    else ReqSpacesBeforeUrl
  }

  /** The part that the character which led to state `s` belongs to. */
  function UrlSlot(s: State): (k: nat)
    ensures k < 8
  {
    if s.ReqFragment? then FRAGMENT
    else if s.ReqFragmentStart? then HASHES
    else if s.ReqQueryString? then QUERY
    else if s.ReqQueryStringStart? then QUESTION
    else if s.ReqPath? then PATH
    else if s.ReqServer? || s.ReqServerWithAt? then AUTHORITY
    else if s.ReqSchemaSlash? || s.ReqSchemaSlashSlash? || s.ReqServerStart? then DELIMITER
    else SCHEME
  }

  datatype UrlScanned = UrlScanned(state: State, parts: Parts)

  function UrlStep(u: UrlScanned, ch: char): UrlScanned {
    var t := ParseUrlChar(u.state, ch);
    UrlScanned(t, Add(u.parts, UrlSlot(t), ch))
  }

  /** The outer machine run over `text`, with each character put where its state says. */
  function UrlScan(text: string, connect: bool): UrlScanned
    decreases |text|
  {
    if |text| == 0 then UrlScanned(if connect then ReqServerStart else ReqSpacesBeforeUrl, NO_PARTS)
    else UrlStep(UrlScan(text[..|text| - 1], connect), text[|text| - 1])
  }

  lemma UrlForwardScheme(ps: Parts, connect: bool, ch: char)
    requires UrlShape(ps, connect)
    requires var t := ParseUrlChar(UrlStateOf(ps, connect), ch); !t.Dead? && UrlSlot(t) == SCHEME
    ensures UrlAdded(ps, connect, ch)
  {}

  lemma UrlForwardDelimiter(ps: Parts, connect: bool, ch: char)
    requires UrlShape(ps, connect)
    requires var t := ParseUrlChar(UrlStateOf(ps, connect), ch); !t.Dead? && UrlSlot(t) == DELIMITER
    ensures UrlAdded(ps, connect, ch)
  {}

  lemma ServerSnoc(s: string, ch: char)
    requires All(IsServerChar, s) && NoDoubleAt(s) && IsServerChar(ch)
    requires s != "" && s[|s| - 1] == '@' ==> ch != '@'
    ensures All(IsServerChar, s + [ch]) && NoDoubleAt(s + [ch])
  {}

  lemma UrlForwardAuthority(ps: Parts, connect: bool, ch: char)
    requires UrlShape(ps, connect)
    requires var t := ParseUrlChar(UrlStateOf(ps, connect), ch); !t.Dead? && UrlSlot(t) == AUTHORITY
    ensures UrlAdded(ps, connect, ch)
  {
    hide All, NoDoubleAt, IsUrlChar, IsQueryChar, IsFragmentChar;
    assert ps[AUTHORITY] != "" ==> UrlStateOf(ps, connect) == if ps[AUTHORITY][|ps[AUTHORITY]| - 1] == '@'
        then ReqServerWithAt else ReqServer;
    ServerSnoc(ps[AUTHORITY], ch);
  }

  lemma UrlForwardPath(ps: Parts, connect: bool, ch: char)
    requires UrlShape(ps, connect)
    requires var t := ParseUrlChar(UrlStateOf(ps, connect), ch); !t.Dead? && UrlSlot(t) == PATH
    ensures UrlAdded(ps, connect, ch)
  {}

  lemma UrlForwardQuestion(ps: Parts, connect: bool, ch: char)
    requires UrlShape(ps, connect)
    requires var t := ParseUrlChar(UrlStateOf(ps, connect), ch); !t.Dead? && UrlSlot(t) == QUESTION
    ensures UrlAdded(ps, connect, ch)
  {}

  lemma UrlForwardQuery(ps: Parts, connect: bool, ch: char)
    requires UrlShape(ps, connect)
    requires var t := ParseUrlChar(UrlStateOf(ps, connect), ch); !t.Dead? && UrlSlot(t) == QUERY
    ensures UrlAdded(ps, connect, ch)
  {}

  lemma UrlForwardHashes(ps: Parts, connect: bool, ch: char)
    requires UrlShape(ps, connect)
    requires var t := ParseUrlChar(UrlStateOf(ps, connect), ch); !t.Dead? && UrlSlot(t) == HASHES
    ensures UrlAdded(ps, connect, ch)
  {}

  lemma UrlForwardFragment(ps: Parts, connect: bool, ch: char)
    requires UrlShape(ps, connect)
    requires var t := ParseUrlChar(UrlStateOf(ps, connect), ch); !t.Dead? && UrlSlot(t) == FRAGMENT
    ensures UrlAdded(ps, connect, ch)
  {}

  predicate UrlAdded(ps: Parts, connect: bool, ch: char) {
    var t := ParseUrlChar(UrlStateOf(ps, connect), ch);
    var qs := Add(ps, UrlSlot(t), ch);
    EmptyAfter(ps, UrlSlot(t)) && UrlShape(qs, connect) && UrlStateOf(qs, connect) == t
  }

  lemma UrlForward(ps: Parts, connect: bool, ch: char)
    requires UrlShape(ps, connect) && !ParseUrlChar(UrlStateOf(ps, connect), ch).Dead?
    ensures UrlAdded(ps, connect, ch)
    ensures Join(Add(ps, UrlSlot(ParseUrlChar(UrlStateOf(ps, connect), ch)), ch)) == Join(ps) + [ch]
  {
    hide UrlShape, UrlStateOf, UrlSlot, ParseUrlChar;
    var k := UrlSlot(ParseUrlChar(UrlStateOf(ps, connect), ch));
    if k == SCHEME {
      UrlForwardScheme(ps, connect, ch);
    } else if k == DELIMITER {
      UrlForwardDelimiter(ps, connect, ch);
    } else if k == AUTHORITY {
      UrlForwardAuthority(ps, connect, ch);
    } else if k == PATH {
      UrlForwardPath(ps, connect, ch);
    } else if k == QUESTION {
      UrlForwardQuestion(ps, connect, ch);
    } else if k == QUERY {
      UrlForwardQuery(ps, connect, ch);
    } else if k == HASHES {
      UrlForwardHashes(ps, connect, ch);
    } else {
      UrlForwardFragment(ps, connect, ch);
    }
    JoinAdd(ps, k, ch);
  }

  lemma SomePart(ps: Parts, connect: bool)
    requires UrlShape(ps, connect) && Join(ps) != ""
    ensures ps[UrlSlot(UrlStateOf(ps, connect))] != ""
  {
    if forall i :: 0 <= i < 8 ==> ps[i] == "" {
      JoinUpTo(ps, 0);
    }
  }

  lemma EmptyJoin(ps: Parts)
    requires Join(ps) == ""
    ensures ps == NO_PARTS
  {
    forall i | 0 <= i < 8 ensures ps[i] == "" {
      OffsetsGrow(ps, i, 8);
    }
  }

  /** `ps` without the last character of part `k`. */
  function Pop(ps: Parts, k: nat): Parts
    requires k < 8 && ps[k] != ""
  {
    ps[k := ps[k][..|ps[k]| - 1]]
  }

  lemma PopAdd(ps: Parts, k: nat)
    requires k < 8 && ps[k] != ""
    ensures Add(Pop(ps, k), k, ps[k][|ps[k]| - 1]) == ps
  {
    assert ps[k][..|ps[k]| - 1] + [ps[k][|ps[k]| - 1]] == ps[k];
  }

  predicate Undone(ps: Parts, k: nat, connect: bool)
    requires k < 8 && ps[k] != ""
  {
    && UrlShape(Pop(ps, k), connect) && EmptyAfter(Pop(ps, k), k)
    && Add(Pop(ps, k), k, ps[k][|ps[k]| - 1]) == ps
    && ParseUrlChar(UrlStateOf(Pop(ps, k), connect), ps[k][|ps[k]| - 1]) == UrlStateOf(ps, connect)
  }

  lemma UrlBackwardScheme(ps: Parts, connect: bool)
    requires UrlShape(ps, connect) && UrlSlot(UrlStateOf(ps, connect)) == SCHEME && ps[SCHEME] != ""
    ensures Undone(ps, SCHEME, connect)
  {
    hide Add;
    PopAdd(ps, SCHEME);
  }

  lemma UrlBackwardDelimiter(ps: Parts, connect: bool)
    requires UrlShape(ps, connect) && UrlSlot(UrlStateOf(ps, connect)) == DELIMITER && ps[DELIMITER] != ""
    ensures Undone(ps, DELIMITER, connect)
  {
    hide Add;
    PopAdd(ps, DELIMITER);
  }

  lemma UrlBackwardAuthority(ps: Parts, connect: bool)
    requires UrlShape(ps, connect) && UrlSlot(UrlStateOf(ps, connect)) == AUTHORITY && ps[AUTHORITY] != ""
    ensures Undone(ps, AUTHORITY, connect)
  {
    hide Add;
    PopAdd(ps, AUTHORITY);
  }

  lemma UrlBackwardPath(ps: Parts, connect: bool)
    requires UrlShape(ps, connect) && UrlSlot(UrlStateOf(ps, connect)) == PATH && ps[PATH] != ""
    ensures Undone(ps, PATH, connect)
  {
    hide Add;
    PopAdd(ps, PATH);
  }

  lemma UrlBackwardQuestion(ps: Parts, connect: bool)
    requires UrlShape(ps, connect) && UrlSlot(UrlStateOf(ps, connect)) == QUESTION && ps[QUESTION] != ""
    ensures Undone(ps, QUESTION, connect)
  {
    hide Add;
    PopAdd(ps, QUESTION);
  }

  lemma UrlBackwardQuery(ps: Parts, connect: bool)
    requires UrlShape(ps, connect) && UrlSlot(UrlStateOf(ps, connect)) == QUERY && ps[QUERY] != ""
    ensures Undone(ps, QUERY, connect)
  {
    hide Add;
    PopAdd(ps, QUERY);
  }

  lemma UrlBackwardHashes(ps: Parts, connect: bool)
    requires UrlShape(ps, connect) && UrlSlot(UrlStateOf(ps, connect)) == HASHES && ps[HASHES] != ""
    ensures Undone(ps, HASHES, connect)
  {
    hide Add;
    PopAdd(ps, HASHES);
  }

  lemma UrlBackwardFragment(ps: Parts, connect: bool)
    requires UrlShape(ps, connect) && UrlSlot(UrlStateOf(ps, connect)) == FRAGMENT && ps[FRAGMENT] != ""
    ensures Undone(ps, FRAGMENT, connect)
  {
    hide Add;
    PopAdd(ps, FRAGMENT);
  }

  lemma UrlBackward(ps: Parts, connect: bool)
    requires UrlShape(ps, connect) && Join(ps) != ""
    ensures var k := UrlSlot(UrlStateOf(ps, connect)); ps[k] != "" && Undone(ps, k, connect)
  {
    hide UrlShape, Undone, ParseUrlChar, UrlStateOf, UrlSlot;
    var k := UrlSlot(UrlStateOf(ps, connect));
    SomePart(ps, connect);
    if k == SCHEME {
      UrlBackwardScheme(ps, connect);
    } else if k == DELIMITER {
      UrlBackwardDelimiter(ps, connect);
    } else if k == AUTHORITY {
      UrlBackwardAuthority(ps, connect);
    } else if k == PATH {
      UrlBackwardPath(ps, connect);
    } else if k == QUESTION {
      UrlBackwardQuestion(ps, connect);
    } else if k == QUERY {
      UrlBackwardQuery(ps, connect);
    } else if k == HASHES {
      UrlBackwardHashes(ps, connect);
    } else {
      UrlBackwardFragment(ps, connect);
    }
  }

  lemma NothingScanned(connect: bool)
    ensures UrlShape(NO_PARTS, connect) && Join(NO_PARTS) == ""
    ensures UrlStateOf(NO_PARTS, connect) == if connect then ReqServerStart else ReqSpacesBeforeUrl
  {
    JoinUpTo(NO_PARTS, 0);
  }

  /** A surviving outer machine has split the text into the parts of a beginning of a URL. */
  lemma {:induction false} UrlScanSound(text: string, connect: bool)
    requires !UrlScan(text, connect).state.Dead?
    ensures var u := UrlScan(text, connect);
            UrlShape(u.parts, connect) && Join(u.parts) == text && u.state == UrlStateOf(u.parts, connect)
    ensures |text| > 0 ==>
              var u := UrlScan(text[..|text| - 1], connect);
              !u.state.Dead? && EmptyAfter(u.parts, UrlSlot(UrlScan(text, connect).state))
    decreases |text|
  {
    hide UrlShape, UrlStateOf, UrlSlot, EmptyAfter, Add, Join;
    if |text| == 0 {
      NothingScanned(connect);
    } else {
      var n := |text| - 1;
      var u := UrlScan(text[..n], connect);
      assert !u.state.Dead?;
      hide ParseUrlChar;
      UrlScanSound(text[..n], connect);
      UrlForward(u.parts, connect, text[n]);
      assert text[..n] + [text[n]] == text;
    }
  }

  /** The outer machine survives on every beginning of a URL and splits it into the given parts. */
  lemma {:induction false} UrlScanComplete(ps: Parts, connect: bool)
    requires UrlShape(ps, connect)
    ensures UrlScan(Join(ps), connect) == UrlScanned(UrlStateOf(ps, connect), ps)
    decreases |Join(ps)|
  {
    if Join(ps) == "" {
      EmptyJoin(ps);
    } else {
      hide UrlShape, UrlStateOf, UrlSlot, ParseUrlChar;
      UrlBackward(ps, connect);
      var k := UrlSlot(UrlStateOf(ps, connect));
      var qs, ch := Pop(ps, k), ps[k][|ps[k]| - 1];
      JoinAdd(qs, k, ch);
      assert Join(ps)[..|Join(ps)| - 1] == Join(qs);
      UrlScanComplete(qs, connect);
    }
  }
}
