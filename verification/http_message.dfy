/** Requests on the wire, and what the parser reports for them. */
module HttpMessages {
  import opened HttpSyntax
  import opened Numerals
  import opened HttpMachine
  import opened HttpLog
  import opened HttpBulk
  import opened HttpWords

  /** `d` is `c` after `n` more bytes, without error, with the callbacks `es`. */
  predicate Moved(c: Config, d: Config, n: nat, es: seq<Event>) {
    && Live(d) && d.used == c.used + n && d.log == PushAll(c.log, es)
    && d.p.kind == c.p.kind && d.p.lenient == c.p.lenient && d.p.reply == c.p.reply
  }

  lemma MovedThen(c: Config, d: Config, e: Config, m: nat, n: nat, es: seq<Event>, fs: seq<Event>)
    requires Moved(c, d, m, es) && Moved(d, e, n, fs)
    ensures Moved(c, e, m + n, es + fs)
  {
    PushAllAppend(c.log, es, fs);
  }

  /** What the header lines do not touch. */
  predicate SameMessage(p: Parser, q: Parser) {
    q.verb == p.verb && q.httpMajor == p.httpMajor && q.httpMinor == p.httpMinor && q.upgrade == p.upgrade &&
    q.statusCode == p.statusCode
  }

  predicate SameFraming(p: Parser, q: Parser) {
    q.flags == p.flags && q.contentLength == p.contentLength
  }

  /** A byte that only changes the parser. */
  lemma QuietByte(c: Config, ch: char, p: Parser)
    requires Live(c) && ParsingHeader(c.p.state) && c.p.nread < MAX_HEADER_SIZE && p.errno.Ok?
    requires Dispatch(c.p.(nread := c.p.nread + 1), ch) == Micro(p, [], Break)
    ensures Step(c, ch) == Config(p, c.log, c.used + 1, false)
  {
    hide Dispatch;
    StepQuiet(c, p, ch);
  }

  /** A byte that is reported. */
  lemma DataByte(c: Config, ch: char, p: Parser, k: DataKind)
    requires Live(c) && ParsingHeader(c.p.state) && c.p.nread < MAX_HEADER_SIZE && p.errno.Ok?
    requires Dispatch(c.p.(nread := c.p.nread + 1), ch) == Micro(p, [Data(k, [ch])], Break)
    ensures Step(c, ch) == Config(p, Push(c.log, Data(k, [ch])), c.used + 1, false)
  {
    hide Dispatch;
    StepOnePass(c, p, ch, Data(k, [ch]));
  }

  lemma RunOne(c: Config, s: string)
    requires |s| > 0
    ensures Run(c, s) == Run(Step(c, s[0]), s[1..])
  {
    hide Step;
  }

  lemma RunTwo(c: Config, a: char, b: char)
    ensures Run(c, [a, b]) == Step(Step(c, a), b)
  {
    hide Step;
    RunOne(c, [a, b]);
    assert [a, b][1..] == [b];
    RunOne(Step(c, a), [b]);
    assert [b][1..] == "";
  }

  const CRLF := "\r\n"

  // ---------------------------------------------------------------- the URL

  /** The URL machine after `u`; `Dead` once it has refused a character. */
  function UrlState(s: State, u: string): State
    decreases |u|
  {
    if |u| == 0 then s else ParseUrlChar(UrlState(s, u[..|u| - 1]), u[|u| - 1])
  }

  /** Where the URL machine starts: the target of CONNECT is an authority. */
  function UrlStart(verb: Method): State {
    if verb.CONNECT? then ReqServerStart else ReqSpacesBeforeUrl
  }

  predicate IsUrl(verb: Method, u: string) {
    |u| > 0 && UrlMayEnd(UrlState(UrlStart(verb), u))
  }

  lemma UrlPhase(p: Parser, ch: char)
    requires InUrl(p.state) || p.state.ReqSpacesBeforeUrl?
    ensures PhaseOf(p.state).InUrlPart? && Dispatch(p, ch) == DispatchUrl(p, ch)
  {
    hide DispatchUrl;
  }

  lemma UrlCharPass(p: Parser, ch: char)
    requires InUrl(p.state) && !ParseUrlChar(p.state, ch).Dead?
    ensures Dispatch(p, ch) == Micro(p.(state := ParseUrlChar(p.state, ch)), [Data(Url, [ch])], Break)
  {
    hide Dispatch, PhaseOf;
    UrlPhase(p, ch);
    NoDelimiter(p.state, ch);
    hide ParseUrlChar;
  }

  lemma NoDelimiter(s: State, ch: char)
    requires !ParseUrlChar(s, ch).Dead?
    ensures ch != ' ' && ch != CR && ch != LF
  {}

  lemma UrlCharStep(c: Config, ch: char)
    requires Live(c) && InUrl(c.p.state) && c.p.nread < MAX_HEADER_SIZE && !ParseUrlChar(c.p.state, ch).Dead?
    ensures Step(c, ch) == Config(c.p.(state := ParseUrlChar(c.p.state, ch), nread := c.p.nread + 1),
                                  Push(c.log, Data(Url, [ch])), c.used + 1, false)
  {
    hide Dispatch, ParseUrlChar;
    var q := c.p.(nread := c.p.nread + 1);
    UrlCharPass(q, ch);
    DataByte(c, ch, q.(state := ParseUrlChar(c.p.state, ch)), Url);
  }

  lemma UrlFirstStep(c: Config, ch: char)
    requires Live(c) && c.p.state.ReqSpacesBeforeUrl? && c.p.nread < MAX_HEADER_SIZE && !ParseUrlChar(UrlStart(c.p.verb), ch).Dead?
    ensures Step(c, ch) == Config(c.p.(state := ParseUrlChar(UrlStart(c.p.verb), ch), nread := c.p.nread + 1),
                                  Push(c.log, Data(Url, [ch])), c.used + 1, false)
  {
    var q := c.p.(nread := c.p.nread + 1);
    assert Dispatch(q, ch) == DispatchUrl(q, ch);
    hide Dispatch;
    DataByte(c, ch, q.(state := ParseUrlChar(UrlStart(c.p.verb), ch)), Url);
  }

  lemma UrlStateAlive(s: State, u: string, ch: char)
    requires InUrl(ParseUrlChar(UrlState(s, u), ch)) && |u| > 0
    ensures InUrl(UrlState(s, u))
  {}

  lemma {:induction false} RunUrl(c: Config, u: string)
    requires Live(c) && c.p.state.ReqSpacesBeforeUrl?
    requires |u| > 0 && InUrl(UrlState(UrlStart(c.p.verb), u)) && c.p.nread + |u| <= MAX_HEADER_SIZE
    ensures Run(c, u) == Config(c.p.(state := UrlState(UrlStart(c.p.verb), u), nread := c.p.nread + |u|),
                                Push(c.log, Data(Url, u)), c.used + |u|, false)
    decreases |u|
  {
    hide Step, Push, ParseUrlChar, UrlStart;
    var n := |u| - 1;
    assert u == u[..n] + [u[n]];
    RunSnoc(c, u[..n], u[n]);
    if n == 0 {
      assert u[..0] == "" && u == [u[0]];
      UrlFirstStep(c, u[0]);
    } else {
      UrlStateAlive(UrlStart(c.p.verb), u[..n], u[n]);
      RunUrl(c, u[..n]);
      UrlCharStep(Run(c, u[..n]), u[n]);
      PushJoins(c.log, Url, u[..n], [u[n]]);
    }
  }

  // ---------------------------------------------------------------- the rest of the request line

  type Digit = d: nat | d <= 9

  /** The digits of a version. */
  function VersionDigits(major: Digit, minor: Digit): (s: string)
    ensures |s| == 3
  {
    [DigitChar(major), '.', DigitChar(minor)]
  }

  /** The bytes after the URL. */
  function Version(major: Digit, minor: Digit): (s: string)
    ensures |s| == 11
  {
    [' '] + ("HTTP/" + (VersionDigits(major, minor) + CRLF))
  }

  lemma FixedStep(c: Config, ch: char)
    requires Live(c) && c.p.nread < MAX_HEADER_SIZE && ParsingHeader(c.p.state)
    requires FixedByte(c.p.state).Some? && FixedByte(c.p.state).value.byte == ch
    ensures Step(c, ch) == Config(c.p.(state := FixedByte(c.p.state).value.next, nread := c.p.nread + 1), c.log, c.used + 1, false)
  {
    var q := c.p.(nread := c.p.nread + 1);
    assert Dispatch(q, ch) == Expect(q, ch);
    QuietByte(c, ch, q.(state := FixedByte(c.p.state).value.next));
  }

  /** In state `s` the byte `ch`, and no other, leads on, to state `t`. */
  predicate Fixes(s: State, ch: char, t: State) {
    FixedByte(s).Some? && FixedByte(s).value.byte == ch && FixedByte(s).value.next == t && ParsingHeader(s)
  }

  lemma FixedStepTo(c: Config, ch: char, t: State)
    requires Live(c) && c.p.nread < MAX_HEADER_SIZE && Fixes(c.p.state, ch, t)
    ensures Step(c, ch) == Config(c.p.(state := t, nread := c.p.nread + 1), c.log, c.used + 1, false)
  {
    hide Step;
    FixedStep(c, ch);
  }

  lemma WordFixes()
    ensures Fixes(ReqHttpH, 'T', ReqHttpHT) && Fixes(ReqHttpHT, 'T', ReqHttpHTT) && Fixes(ReqHttpHTT, 'P', ReqHttpHTTP)
    ensures Fixes(ReqHttpHTTP, '/', ReqHttpMajor)
  {}

  lemma DigitFixes()
    ensures Fixes(ReqHttpDot, '.', ReqHttpMinor) && Fixes(ReqLineAlmostDone, LF, HeaderFieldStart)
  {}

  lemma VersionStep(c: Config, ch: char, p: Parser)
    requires Live(c) && c.p.nread < MAX_HEADER_SIZE && PhaseOf(c.p.state).InVersion? && p.errno.Ok?
    requires DispatchVersion(c.p.(nread := c.p.nread + 1), ch) == Micro(p, [], Break)
    ensures Step(c, ch) == Config(p, c.log, c.used + 1, false)
  {
    hide DispatchVersion;
    var q := c.p.(nread := c.p.nread + 1);
    assert Dispatch(q, ch) == DispatchVersion(q, ch);
    QuietByte(c, ch, p);
  }

  lemma UrlEndStep(c: Config)
    requires Live(c) && UrlMayEnd(c.p.state) && c.p.nread < MAX_HEADER_SIZE
    ensures Step(c, ' ') == Config(c.p.(state := ReqHttpStart, nread := c.p.nread + 1), c.log, c.used + 1, false)
  {
    var q := c.p.(nread := c.p.nread + 1);
    assert Dispatch(q, ' ') == DispatchUrl(q, ' ');
    QuietByte(c, ' ', q.(state := ReqHttpStart));
  }

  lemma HttpStartStep(c: Config)
    requires Live(c) && c.p.nread < MAX_HEADER_SIZE && c.p.state.ReqHttpStart?
    ensures Step(c, 'H') == Config(c.p.(state := ReqHttpH, nread := c.p.nread + 1), c.log, c.used + 1, false)
  {
    VersionStep(c, 'H', c.p.(state := ReqHttpH, nread := c.p.nread + 1));
  }

  lemma MajorDigitStep(c: Config, ch: char)
    requires Live(c) && c.p.nread < MAX_HEADER_SIZE && IsNum(ch) && c.p.state.ReqHttpMajor?
    ensures Step(c, ch) == Config(c.p.(state := ReqHttpDot, httpMajor := DigitValue(ch), nread := c.p.nread + 1), c.log, c.used + 1, false)
  {
    hide Step, DigitValue;
    VersionStep(c, ch, c.p.(state := ReqHttpDot, httpMajor := DigitValue(ch), nread := c.p.nread + 1));
  }

  lemma MinorDigitStep(c: Config, ch: char)
    requires Live(c) && c.p.nread < MAX_HEADER_SIZE && IsNum(ch) && c.p.state.ReqHttpMinor?
    ensures Step(c, ch) == Config(c.p.(state := ReqHttpEnd, httpMinor := DigitValue(ch), nread := c.p.nread + 1), c.log, c.used + 1, false)
  {
    hide Step, DigitValue;
    VersionStep(c, ch, c.p.(state := ReqHttpEnd, httpMinor := DigitValue(ch), nread := c.p.nread + 1));
  }

  lemma VersionEndStep(c: Config)
    requires Live(c) && c.p.nread < MAX_HEADER_SIZE && c.p.state.ReqHttpEnd?
    ensures Step(c, CR) == Config(c.p.(state := ReqLineAlmostDone, nread := c.p.nread + 1), c.log, c.used + 1, false)
  {
    VersionStep(c, CR, c.p.(state := ReqLineAlmostDone, nread := c.p.nread + 1));
  }

  lemma RunHttpWord(c: Config)
    requires Live(c) && c.p.state.ReqHttpStart? && c.p.nread + 5 <= MAX_HEADER_SIZE
    ensures Run(c, "HTTP/") == Config(c.p.(state := ReqHttpMajor, nread := c.p.nread + 5), c.log, c.used + 5, false)
  {
    hide Step, Run, Fixes;
    WordFixes();
    HttpStartStep(c);
    var c1 := Step(c, 'H');
    FixedStepTo(c1, 'T', ReqHttpHT);
    var c2 := Step(c1, 'T');
    FixedStepTo(c2, 'T', ReqHttpHTT);
    var c3 := Step(c2, 'T');
    FixedStepTo(c3, 'P', ReqHttpHTTP);
    FixedStepTo(Step(c3, 'P'), '/', ReqHttpMajor);
    RunFive(c, "HTTP/");
  }

  lemma RunVersionDigits(c: Config, major: Digit, minor: Digit)
    requires Live(c) && c.p.state.ReqHttpMajor? && c.p.nread + 5 <= MAX_HEADER_SIZE
    ensures Run(c, VersionDigits(major, minor) + CRLF) ==
            Config(c.p.(state := HeaderFieldStart, httpMajor := major, httpMinor := minor, nread := c.p.nread + 5),
                c.log, c.used + 5, false)
  {
    hide Step, Run, DigitValue, Fixes;
    DigitFixes();
    var a, b := DigitChar(major), DigitChar(minor);
    MajorDigitStep(c, a);
    var c1 := Step(c, a);
    FixedStepTo(c1, '.', ReqHttpMinor);
    var c2 := Step(c1, '.');
    MinorDigitStep(c2, b);
    var c3 := Step(c2, b);
    VersionEndStep(c3);
    FixedStepTo(Step(c3, CR), LF, HeaderFieldStart);
    RunFive(c, VersionDigits(major, minor) + CRLF);
  }

  lemma RunVersion(c: Config, major: Digit, minor: Digit)
    requires Live(c) && UrlMayEnd(c.p.state) && c.p.nread + 11 <= MAX_HEADER_SIZE
    ensures Run(c, Version(major, minor)) ==
            Config(c.p.(state := HeaderFieldStart, httpMajor := major, httpMinor := minor, nread := c.p.nread + 11),
                c.log, c.used + 11, false)
  {
    hide Step, Run, DigitChar;
    UrlEndStep(c);
    var d := Step(c, ' ');
    RunOne(c, Version(major, minor));
    var rest := VersionDigits(major, minor) + CRLF;
    assert Version(major, minor)[1..] == "HTTP/" + rest;
    RunAppend(d, "HTTP/", rest);
    RunHttpWord(d);
    RunVersionDigits(Run(d, "HTTP/"), major, minor);
  }

  lemma RunFive(c: Config, s: string)
    requires |s| == 5
    ensures Run(c, s) == Step(Step(Step(Step(Step(c, s[0]), s[1]), s[2]), s[3]), s[4])
  {
    hide Step, Run;
    var c1 := Step(c, s[0]);
    var c2 := Step(c1, s[1]);
    var c3 := Step(c2, s[2]);
    var c4 := Step(c3, s[3]);
    RunOne(c, s);
    RunOne(c1, s[1..]);
    assert s[1..][1..] == s[2..];
    RunOne(c2, s[2..]);
    assert s[2..][1..] == s[3..];
    RunOne(c3, s[3..]);
    assert s[3..][1..] == s[4..];
    RunOne(c4, s[4..]);
    assert s[4..][1..] == "";
    RunEmpty(Step(c4, s[4]));
  }

  lemma RunEmpty(c: Config)
    ensures Run(c, "") == c
  {}

  // ---------------------------------------------------------------- header lines

  /** A header value passes through the value matcher without error and leaves it in `r`. */
  predicate Scans(v: Value, s: string, r: Value)
    decreases |s|
  {
    if |s| == 0 then v == r else NextValue(v, s[0]).errno.Ok? && Scans(NextValue(v, s[0]), s[1..], r)
  }

  lemma ScansAppend(v: Value, s: string, m: Value, t: string, r: Value)
    requires Scans(v, s, m) && Scans(m, t, r)
    ensures Scans(v, s + t, r)
    decreases |s|
  {
    hide NextValue;
    if |s| == 0 {
      assert s + t == t;
    } else {
      assert (s + t)[1..] == s[1..] + t;
      ScansAppend(NextValue(v, s[0]), s[1..], m, t, r);
    }
  }

  predicate ValueChars(s: string) {
    forall i :: 0 <= i < |s| ==> s[i] != CR && s[i] != LF && IsHeaderChar(s[i])
  }

  lemma ValueCharStep(c: Config, ch: char)
    requires Live(c) && c.p.state.HeaderValue? && c.p.nread < MAX_HEADER_SIZE
    requires ch != CR && ch != LF && IsHeaderChar(ch) && NextValue(ValueOf(c.p), ch).errno.Ok?
    ensures Step(c, ch) == Config(WithValue(c.p, NextValue(ValueOf(c.p), ch)).(nread := c.p.nread + 1),
                                  Push(c.log, Data(HeaderValueData, [ch])), c.used + 1, false)
  {
    hide NextValue;
    var q := c.p.(nread := c.p.nread + 1);
    ValueDispatch(q, ch);
    DataByte(c, ch, ValueByte(q, ch), HeaderValueData);
  }

  lemma {:induction false} RunValue(c: Config, s: string, r: Value)
    requires Live(c) && c.p.state.HeaderValue? && ValueChars(s) && c.p.nread + |s| <= MAX_HEADER_SIZE
    requires Scans(ValueOf(c.p), s, r)
    ensures Run(c, s) == Config(WithValue(c.p, r).(nread := c.p.nread + |s|),
                                if |s| == 0 then c.log else Push(c.log, Data(HeaderValueData, s)), c.used + |s|, false)
    decreases |s|
  {
    hide NextValue, Step, Push;
    if |s| > 0 {
      ValueCharStep(c, s[0]);
      RunOne(c, s);
      RunValue(Step(c, s[0]), s[1..], r);
      assert s == [s[0]] + s[1..];
      if |s| == 1 {
        assert s == [s[0]];
      } else {
        PushJoins(c.log, HeaderValueData, [s[0]], s[1..]);
      }
    }
  }

  /** A header value that neither begins with white space nor is empty. */
  predicate IsValue(s: string) {
    |s| > 0 && ValueChars(s) && s[0] != ' ' && s[0] != '\t'
  }

  predicate IsName(s: string) {
    |s| > 0 && AllTokens(s)
  }

  lemma ColonStep(c: Config)
    requires Live(c) && c.p.state.HeaderField? && c.p.nread < MAX_HEADER_SIZE
    ensures Step(c, ':') == Config(c.p.(state := HeaderValueDiscardWs, nread := c.p.nread + 1), c.log, c.used + 1, false)
  {
    var q := c.p.(nread := c.p.nread + 1);
    FieldDispatch(q, ':');
    QuietByte(c, ':', q.(state := HeaderValueDiscardWs));
  }

  lemma ValueSpaceStep(c: Config)
    requires Live(c) && c.p.state.HeaderValueDiscardWs? && c.p.nread < MAX_HEADER_SIZE
    ensures Step(c, ' ') == Config(c.p.(nread := c.p.nread + 1), c.log, c.used + 1, false)
  {
    var q := c.p.(nread := c.p.nread + 1);
    assert Dispatch(q, ' ') == DispatchHeaderValue(q, ' ');
    QuietByte(c, ' ', q);
  }

  lemma ValueFirstStep(c: Config, ch: char)
    requires Live(c) && c.p.state.HeaderValueDiscardWs? && c.p.nread < MAX_HEADER_SIZE
    requires ch != ' ' && ch != '\t' && ch != CR && ch != LF && StartValue(ValueOf(c.p), ch).errno.Ok?
    ensures Step(c, ch) == Config(WithValue(c.p, StartValue(ValueOf(c.p), ch)).(state := HeaderValue, nread := c.p.nread + 1),
                                  Push(c.log, Data(HeaderValueData, [ch])), c.used + 1, false)
  {
    hide StartValue;
    var q := c.p.(nread := c.p.nread + 1);
    assert Dispatch(q, ch) == DispatchHeaderValue(q, ch);
    DataByte(c, ch, ValueStart(q, ch), HeaderValueData);
  }

  lemma ValueEndStep(c: Config)
    requires Live(c) && c.p.state.HeaderValue? && c.p.nread < MAX_HEADER_SIZE
    ensures Step(c, CR) == Config(c.p.(state := HeaderAlmostDone, nread := c.p.nread + 1), c.log, c.used + 1, false)
  {
    var q := c.p.(nread := c.p.nread + 1);
    ValueDispatch(q, CR);
    QuietByte(c, CR, q.(state := HeaderAlmostDone));
  }

  /** The matcher when it has read the first character of the value of header `name`. */
  function AfterFirst(p: Parser, name: string, ch: char): Value
    requires AllTokens(name)
  {
    StartValue(Value(NameState(LowerName(name)), 0, p.flags, p.contentLength, Ok), ch)
  }

  lemma StartValueIgnoresIndex(v: Value, i: nat, ch: char)
    ensures StartValue(v, ch) == StartValue(v.(index := i), ch)
  {}

  lemma RunNameColon(c: Config, name: string)
    requires Live(c) && c.p.state.HeaderFieldStart? && IsName(name) && c.p.nread + |name| + 2 <= MAX_HEADER_SIZE
    ensures var d := Run(c, name + ": ");
            d == Config(c.p.(state := HeaderValueDiscardWs, headerState := NameState(LowerName(name)), index := d.p.index,
                             nread := c.p.nread + |name| + 2),
                        Push(c.log, Data(HeaderFieldData, name)), c.used + |name| + 2, false)
  {
    hide Step, Push, NameState, Run;
    RunName(c, name);
    var d := Run(c, name);
    ColonStep(d);
    var e := Step(d, ':');
    ValueSpaceStep(e);
    RunAppend(c, name, ": ");
    RunOne(d, ": ");
    assert ": "[1..] == " ";
    RunOne(e, " ");
    assert " "[1..] == "";
    RunEmpty(Step(e, ' '));
  }

  lemma RunLineEnd(c: Config)
    requires Live(c) && c.p.state.HeaderValue? && c.p.nread + 2 <= MAX_HEADER_SIZE
    ensures Run(c, "\r\n") == Config(c.p.(state := HeaderValueLws, nread := c.p.nread + 2), c.log, c.used + 2, false)
  {
    hide Step, Run;
    ValueEndStep(c);
    var d := Step(c, CR);
    FixedStep(d, LF);
    RunOne(c, "\r\n");
    assert "\r\n"[1..] == "\n";
    RunOne(d, "\n");
    assert "\n"[1..] == "";
    RunEmpty(Step(d, LF));
  }

  function HeaderLine(name: string, value: string): string {
    (name + ": ") + (value + "\r\n")
  }

  /** One header line: both callbacks are made once, and the matcher has read the whole value. */
  lemma RunHeaderLine(c: Config, name: string, value: string, r: Value)
    requires Live(c) && c.p.state.HeaderFieldStart? && IsName(name) && IsValue(value)
    requires c.p.nread + |HeaderLine(name, value)| <= MAX_HEADER_SIZE
    requires r.errno.Ok? && AfterFirst(c.p, name, value[0]).errno.Ok? && Scans(AfterFirst(c.p, name, value[0]), value[1..], r)
    ensures Run(c, HeaderLine(name, value)) ==
            Config(WithValue(c.p, r).(state := HeaderValueLws, nread := c.p.nread + |HeaderLine(name, value)|),
                   PushAll(c.log, [Data(HeaderFieldData, name), Data(HeaderValueData, value)]),
                   c.used + |HeaderLine(name, value)|, false)
  {
    hide Step, Push, NameState, Run, StartValue, Scans;
    RunAppend(c, name + ": ", value + "\r\n");
    RunNameColon(c, name);
    var d := Run(c, name + ": ");
    StartValueIgnoresIndex(Value(NameState(LowerName(name)), 0, c.p.flags, c.p.contentLength, Ok), d.p.index, value[0]);
    RunValueLine(d, value, r);
    var es := [Data(HeaderFieldData, name), Data(HeaderValueData, value)];
    assert es == [es[0]] + [es[1]];
    PushAllAppend(c.log, [es[0]], [es[1]]);
    PushOne(c.log, es[0]);
    PushOne(d.log, es[1]);
  }

  lemma RunValueLine(c: Config, value: string, r: Value)
    requires Live(c) && c.p.state.HeaderValueDiscardWs? && IsValue(value) && c.p.nread + |value| + 2 <= MAX_HEADER_SIZE
    requires StartValue(ValueOf(c.p), value[0]).errno.Ok? && Scans(StartValue(ValueOf(c.p), value[0]), value[1..], r)
    requires r.errno.Ok?
    ensures Run(c, value + "\r\n") ==
            Config(WithValue(c.p, r).(state := HeaderValueLws, nread := c.p.nread + |value| + 2),
                   Push(c.log, Data(HeaderValueData, value)), c.used + |value| + 2, false)
  {
    hide Step, Push, Run, StartValue, Scans;
    RunAppend(c, value, "\r\n");
    RunOne(c, value);
    ValueFirstStep(c, value[0]);
    var d := Step(c, value[0]);
    RunValue(d, value[1..], r);
    assert value == [value[0]] + value[1..];
    if |value| == 1 {
      assert value == [value[0]];
    } else {
      PushJoins(c.log, HeaderValueData, [value[0]], value[1..]);
    }
    RunLineEnd(Run(c, value));
  }
}
