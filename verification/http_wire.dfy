/** What else the wire may hold: line ends of one character, line ends between messages, request lines of HTTP/0.9 and of
    Icecast, and parsers that do not know yet whether they will see requests or responses. */
module HttpWire {
  import opened HttpSyntax
  import opened HttpMachine
  import opened HttpInvariant
  import opened HttpLog
  import opened HttpBulk
  import opened HttpWords
  import opened HttpMessages
  import opened HttpFields
  import opened HttpFraming

  // ---------------------------------------------------------------- line ends

  /** The states in which a line of a head may end. */
  predicate MayEndLine(s: State) {
    s.ReqHttpEnd? || s.ResStatus? || s.HeaderFieldStart? || s.HeaderValueDiscardWs? || s.HeaderValue? || UrlMayEnd(s)
  }

  /** What LF does to a parser is what it would do after a CR. */
  predicate EndsAlike(p: Parser)
    requires p.errno.Ok?
  {
    var m := Exec(p, CR);
    && m.next.Break? && m.p.errno.Ok?
    && var r := Exec(m.p, LF); Exec(p, LF) == Micro(r.p, m.events + r.events, r.next)
  }

  lemma FixedLf(p: Parser, s: State, t: State)
    requires p.errno.Ok? && p.state == s && FixedByte(s).Some? && FixedByte(s).value.byte == LF && FixedByte(s).value.next == t
    ensures Exec(p, LF) == Micro(p.(state := t), [], Break)
  {
    assert Dispatch(p, LF) == Expect(p, LF);
    hide Dispatch;
    ExecDone(p, LF);
  }

  lemma AlikeBy(p: Parser, q: Parser, r: Parser)
    requires p.errno.Ok? && q.errno.Ok? && Dispatch(p, CR) == Micro(q, [], Break) && Dispatch(p, LF) == Micro(r, [], Break)
    requires Exec(q, LF) == Micro(r, [], Break)
    ensures EndsAlike(p)
  {
    hide Dispatch;
    ExecDone(p, CR);
    ExecDone(p, LF);
  }

  lemma UrlPasses(p: Parser)
    requires UrlMayEnd(p.state)
    ensures Dispatch(p, CR) == Micro(p.(httpMajor := 0, httpMinor := 9, state := ReqLineAlmostDone), [], Break)
    ensures Dispatch(p, LF) == Micro(p.(httpMajor := 0, httpMinor := 9, state := HeaderFieldStart), [], Break)
  {
    assert Dispatch(p, CR) == DispatchUrl(p, CR) && Dispatch(p, LF) == DispatchUrl(p, LF);
  }

  lemma UrlEndsAlike(p: Parser)
    requires p.errno.Ok? && UrlMayEnd(p.state)
    ensures EndsAlike(p)
  {
    hide Dispatch, Exec, EndsAlike;
    UrlPasses(p);
    var q := p.(httpMajor := 0, httpMinor := 9, state := ReqLineAlmostDone);
    FixedLf(q, ReqLineAlmostDone, HeaderFieldStart);
    AlikeBy(p, q, q.(state := HeaderFieldStart));
  }

  lemma VersionPasses(p: Parser)
    requires p.state.ReqHttpEnd?
    ensures Dispatch(p, CR) == Micro(p.(state := ReqLineAlmostDone), [], Break)
    ensures Dispatch(p, LF) == Micro(p.(state := HeaderFieldStart), [], Break)
  {
    assert Dispatch(p, CR) == DispatchVersion(p, CR) && Dispatch(p, LF) == DispatchVersion(p, LF);
  }

  lemma VersionEndsAlike(p: Parser)
    requires p.errno.Ok? && p.state.ReqHttpEnd?
    ensures EndsAlike(p)
  {
    hide Dispatch, Exec, EndsAlike;
    VersionPasses(p);
    var q := p.(state := ReqLineAlmostDone);
    FixedLf(q, ReqLineAlmostDone, HeaderFieldStart);
    AlikeBy(p, q, q.(state := HeaderFieldStart));
  }

  lemma ReasonPasses(p: Parser)
    requires p.state.ResStatus?
    ensures Dispatch(p, CR) == Micro(p.(state := ResLineAlmostDone), [], Break)
    ensures Dispatch(p, LF) == Micro(p.(state := HeaderFieldStart), [], Break)
  {
    assert Dispatch(p, CR) == DispatchStatus(p, CR) && Dispatch(p, LF) == DispatchStatus(p, LF);
  }

  lemma ReasonEndsAlike(p: Parser)
    requires p.errno.Ok? && p.state.ResStatus?
    ensures EndsAlike(p)
  {
    hide Dispatch, Exec, EndsAlike;
    ReasonPasses(p);
    var q := p.(state := ResLineAlmostDone);
    FixedLf(q, ResLineAlmostDone, HeaderFieldStart);
    AlikeBy(p, q, q.(state := HeaderFieldStart));
  }

  lemma BlankPasses(p: Parser)
    requires p.state.HeaderValueDiscardWs?
    ensures Dispatch(p, CR) == Micro(p.(state := HeaderValueDiscardWsAlmostDone), [], Break)
    ensures Dispatch(p, LF) == Micro(p.(state := HeaderValueDiscardLws), [], Break)
  {
    assert Dispatch(p, CR) == DispatchHeaderValue(p, CR) && Dispatch(p, LF) == DispatchHeaderValue(p, LF);
  }

  lemma BlankEndsAlike(p: Parser)
    requires p.errno.Ok? && p.state.HeaderValueDiscardWs?
    ensures EndsAlike(p)
  {
    hide Dispatch, Exec, EndsAlike;
    BlankPasses(p);
    var q := p.(state := HeaderValueDiscardWsAlmostDone);
    FixedLf(q, HeaderValueDiscardWsAlmostDone, HeaderValueDiscardLws);
    AlikeBy(p, q, q.(state := HeaderValueDiscardLws));
  }

  lemma AgainAlike(p: Parser, q: Parser)
    requires p.errno.Ok? && q.errno.Ok? && Dispatch(p, CR) == Micro(q, [], Break) && Dispatch(p, LF) == Micro(q, [], Again)
    ensures EndsAlike(p)
  {
    hide Dispatch, Exec;
    ExecDone(p, CR);
    ExecAgain(p, LF);
    var r := Exec(q, LF);
    assert [] + r.events == r.events;
  }

  lemma ValuePasses(p: Parser)
    requires p.state.HeaderValue?
    ensures Dispatch(p, CR) == Micro(p.(state := HeaderAlmostDone), [], Break)
    ensures Dispatch(p, LF) == Micro(p.(state := HeaderAlmostDone), [], Again)
  {
    ValueDispatch(p, CR);
    ValueDispatch(p, LF);
  }

  lemma StartPasses(p: Parser)
    requires p.state.HeaderFieldStart?
    ensures Dispatch(p, CR) == Micro(p.(state := HeadersAlmostDone), [], Break)
    ensures Dispatch(p, LF) == Micro(p.(state := HeadersAlmostDone), [], Again)
  {}

  /** Wherever a line of a head may end, LF alone ends it as CR and LF do. */
  lemma LineFeedAlone(p: Parser)
    requires p.errno.Ok? && MayEndLine(p.state)
    ensures EndsAlike(p)
  {
    hide Dispatch, Exec, EndsAlike;
    if UrlMayEnd(p.state) {
      UrlEndsAlike(p);
    } else if p.state.ReqHttpEnd? {
      VersionEndsAlike(p);
    } else if p.state.ResStatus? {
      ReasonEndsAlike(p);
    } else if p.state.HeaderValueDiscardWs? {
      BlankEndsAlike(p);
    } else if p.state.HeaderValue? {
      ValuePasses(p);
      AgainAlike(p, p.(state := HeaderAlmostDone));
    } else {
      StartPasses(p);
      AgainAlike(p, p.(state := HeadersAlmostDone));
    }
  }

  // ---------------------------------------------------------------- blanks

  /** The states that pass over spaces, and the one that passes over tabs as well. */
  predicate SkipsSpaces(s: State) {
    s.ReqSpacesBeforeUrl? || s.ReqHttpStart? || s.ResFirstStatusCode? || s.HeaderValueDiscardWs?
  }

  lemma BlankSkipped(p: Parser, ch: char)
    requires SkipsSpaces(p.state) && (ch == ' ' || (ch == '\t' && p.state.HeaderValueDiscardWs?))
    ensures Dispatch(p, ch) == Micro(p, [], Break)
  {}

  /** Spaces before a target, a version or a status code, and spaces and tabs before a value, are passed over. */
  lemma {:induction false} BlanksSkipped(c: Config, s: string)
    requires Live(c) && SkipsSpaces(c.p.state) && c.p.nread + |s| <= MAX_HEADER_SIZE
    requires forall i :: 0 <= i < |s| ==> s[i] == ' ' || (s[i] == '\t' && c.p.state.HeaderValueDiscardWs?)
    ensures Run(c, s) == Config(c.p.(nread := c.p.nread + |s|), c.log, c.used + |s|, false)
    decreases |s|
  {
    hide Step, Run, Dispatch;
    if |s| == 0 {
      RunEmpty(c);
    } else {
      RunOne(c, s);
      BlankSkipped(Count(c.p), s[0]);
      QuietByte(c, s[0], Count(c.p));
      BlanksSkipped(Step(c, s[0]), s[1..]);
    }
  }

  lemma LateValuePass(p: Parser, ch: char)
    requires p.state.HeaderValueDiscardLws? && (ch == ' ' || ch == '\t')
    ensures Dispatch(p, ch) == Micro(p.(state := HeaderValueDiscardWs), [], Break)
  {}

  /** A value may begin on the line after its name, behind a blank. */
  lemma LateValue(c: Config, ch: char)
    requires Live(c) && c.p.state.HeaderValueDiscardLws? && (ch == ' ' || ch == '\t') && c.p.nread < MAX_HEADER_SIZE
    ensures Step(c, ch) == Config(c.p.(state := HeaderValueDiscardWs, nread := c.p.nread + 1), c.log, c.used + 1, false)
  {
    hide Step, Dispatch;
    LateValuePass(Count(c.p), ch);
    QuietByte(c, ch, Count(c.p).(state := HeaderValueDiscardWs));
  }

  /** What the matcher still knows of a value when a line continues it: a length, which may go on with spaces only, and
      that a Connection list is before a token. */
  function Remembered(h: HeaderState): HeaderState {
    if h.ContentLengthNum? || h.ContentLengthWs? then ContentLengthWs
    else if h.MatchingConnectionTokenStart? then h
    else General
  }

  function Continued(p: Parser): Parser {
    p.(state := HeaderValueStart, headerState := if p.headerState.ContentLengthNum? then ContentLengthWs else p.headerState)
  }

  lemma ContinuedPass(p: Parser, ch: char)
    requires p.state.HeaderValueLws? && (ch == ' ' || ch == '\t')
    ensures Dispatch(p, ch) == Micro(Continued(p), [], Again)
  {
    assert Dispatch(p, ch) == DispatchEndOfValue(p, ch);
  }

  lemma ContinuesPasses(p: Parser, ch: char)
    requires p.state.HeaderValueLws? && IsValueState(p.headerState) && (ch == ' ' || ch == '\t') && p.errno.Ok?
    ensures Dispatch(p, ch).next.Again? && Dispatch(p, ch).events == []
    ensures var q := Dispatch(p, ch).p;
            Dispatch(q, ch) == Micro(p.(state := HeaderValue, headerState := Remembered(p.headerState), index := 0),
                                     [Data(HeaderValueData, [ch])], Break)
  {
    hide Dispatch;
    ContinuedPass(p, ch);
    ContinuedStart(Continued(p), ch);
  }

  lemma ContinuedStart(q: Parser, ch: char)
    requires q.state.HeaderValueStart?
    ensures Dispatch(q, ch) == Taken(ValueStart(q, ch), ch)
  {
    assert Dispatch(q, ch) == DispatchHeaderValue(q, ch);
  }

  /** A line that continues a value is reported with it; but what the value said is forgotten, be it "chunked" or a word of
      a Connection list. */
  lemma FoldingForgets(c: Config, ch: char)
    requires Live(c) && c.p.state.HeaderValueLws? && IsValueState(c.p.headerState) && (ch == ' ' || ch == '\t')
    requires c.p.nread < MAX_HEADER_SIZE
    ensures Step(c, ch) == Config(c.p.(state := HeaderValue, headerState := Remembered(c.p.headerState), index := 0, nread := c.p.nread + 1),
                                  Push(c.log, Data(HeaderValueData, [ch])), c.used + 1, false)
  {
    hide Dispatch, Exec, Push, Remembered, IsValueState;
    var p := Count(c.p);
    ContinuesPasses(p, ch);
    var q := Dispatch(p, ch).p;
    ExecAgain(p, ch);
    ExecDone(q, ch);
    StepExec(c, ch);
    var es := [Data(HeaderValueData, [ch])];
    assert [] + es == es;
    PushOne(c.log, es[0]);
  }

  // ---------------------------------------------------------------- between messages

  predicate Awaiting(s: State) {
    s.StartReq? || s.StartRes? || s.StartReqOrRes?
  }

  lemma LineEndSkipped(p: Parser, ch: char)
    requires Awaiting(p.state) && (ch == CR || ch == LF)
    ensures Dispatch(p, ch) == Micro(p, [], Break)
  {}

  /** Line ends before a message are skipped, as far as header bytes may go. */
  lemma {:induction false} LineEndsBefore(c: Config, s: string)
    requires Live(c) && Awaiting(c.p.state) && c.p.nread + |s| <= MAX_HEADER_SIZE && forall i :: 0 <= i < |s| ==> s[i] == CR || s[i] == LF
    ensures Run(c, s) == Config(c.p.(nread := c.p.nread + |s|), c.log, c.used + |s|, false)
    decreases |s|
  {
    hide Step, Run, Dispatch;
    if |s| == 0 {
      RunEmpty(c);
    } else {
      RunOne(c, s);
      LineEndSkipped(c.p.(nread := c.p.nread + 1), s[0]);
      QuietByte(c, s[0], c.p.(nread := c.p.nread + 1));
      LineEndsBefore(Step(c, s[0]), s[1..]);
    }
  }

  /** A head may have 80 kilobytes; the byte after that is refused, whatever it is. */
  lemma HeadLimit(c: Config, ch: char)
    requires Live(c) && ParsingHeader(c.p.state) && c.p.nread == 81920
    ensures Step(c, ch).p.errno.HeaderOverflow? && Step(c, ch).used == c.used
  {}

  // ---------------------------------------------------------------- parsers for both

  lemma EitherPasses(p: Parser, ch: char)
    requires p.state.StartReqOrRes? && ch != CR && ch != LF
    ensures if ch == 'H' then Dispatch(p, ch) == Micro(ResetMessage(p).(state := ResOrRespH), [MessageBegin], Break)
            else Dispatch(p, ch) == Micro(ResetMessage(p).(kind := Request, state := StartReq), [], Again)
  {}

  lemma RequestPass(p: Parser, ch: char)
    requires p.state.StartReq?
    ensures Dispatch(p, ch) == StartRequest(p, ch)
  {}

  /** Any first letter but H begins a request. */
  lemma OtherLetterIsRequest(c: Config, ch: char)
    requires Live(c) && c.p.state.StartReqOrRes? && ch != CR && ch != LF && ch != 'H' && c.p.nread < MAX_HEADER_SIZE
    ensures Step(c, ch) == Step(c.(p := c.p.(kind := Request, state := StartReq)), ch)
  {
    hide Dispatch, Exec, Step, StartRequest;
    var p := Count(c.p);
    EitherPasses(p, ch);
    ExecAgain(p, ch);
    var d := c.(p := c.p.(kind := Request, state := StartReq));
    StepExec(c, ch);
    StepExec(d, ch);
    SameStart(Count(d.p), ch);
    var rest := Exec(Dispatch(p, ch).p, ch);
    assert [] + rest.events == rest.events;
  }

  lemma SameStart(p: Parser, ch: char)
    requires p.state.StartReq? && p.errno.Ok? && ch != CR && ch != LF
    ensures Exec(ResetMessage(p), ch) == Exec(p, ch)
  {
    RequestPass(p, ch);
    RequestPass(ResetMessage(p), ch);
    hide Dispatch;
    ExecDone(p, ch);
    ExecDone(ResetMessage(p), ch);
  }

  lemma AfterHPasses(p: Parser)
    requires p.state.ResOrRespH?
    ensures Dispatch(p, 'T') == Micro(p.(kind := Response, state := ResHT), [], Break)
    ensures Dispatch(p, 'E') == Micro(p.(kind := Request, verb := HEAD, index := 2, state := ReqMethod), [], Break)
  {}

  lemma HPasses(p: Parser)
    ensures p.state.StartReq? ==>
              Dispatch(p, 'H') == Micro(ResetMessage(p).(verb := HEAD, index := 1, state := ReqMethod), [MessageBegin], Break)
    ensures p.state.StartRes? ==> Dispatch(p, 'H') == Micro(ResetMessage(p).(state := ResH), [MessageBegin], Break)
    ensures p.state.ResH? ==> Dispatch(p, 'T') == Micro(p.(state := ResHT), [], Break)
    ensures p.state.ReqMethod? && p.verb.HEAD? && p.index == 1 ==> Dispatch(p, 'E') == Micro(p.(index := 2), [], Break)
  {
    if p.state.StartReq? {
      assert Dispatch(p, 'H') == StartRequest(p, 'H');
    } else if p.state.ReqMethod? {
      assert Dispatch(p, 'E') == RequestMethod(p, 'E');
    }
  }

  lemma TwoBytes(c: Config, a: char, p: Parser, b: char, q: Parser)
    requires Live(c) && ParsingHeader(c.p.state) && ParsingHeader(p.state) && p.errno.Ok? && q.errno.Ok? && c.p.nread + 2 <= MAX_HEADER_SIZE
    requires p.nread == c.p.nread + 1 && Dispatch(c.p.(nread := c.p.nread + 1), a) == Micro(p, [MessageBegin], Break)
    requires Dispatch(p.(nread := p.nread + 1), b) == Micro(q, [], Break)
    ensures Run(c, [a, b]) == Config(q, Push(c.log, MessageBegin), c.used + 2, false)
  {
    hide Dispatch, Step, Run, Push;
    StepOnePass(c, p, a, MessageBegin);
    QuietByte(Step(c, a), b, q);
    RunTwo(c, a, b);
  }

  /** A parser that has read the first two letters of a response, or of HEAD. */
  function InResponse(p: Parser): Parser {
    ResetMessage(p).(kind := Response, state := ResHT, nread := p.nread + 2)
  }

  function InHead(p: Parser): Parser {
    ResetMessage(p).(kind := Request, verb := HEAD, index := 2, state := ReqMethod, nread := p.nread + 2)
  }

  lemma EitherReads(c: Config)
    requires Live(c) && c.p.state.StartReqOrRes? && c.p.nread + 2 <= MAX_HEADER_SIZE
    ensures Run(c, ['H', 'T']) == Config(InResponse(c.p), Push(c.log, MessageBegin), c.used + 2, false)
    ensures Run(c, ['H', 'E']) == Config(InHead(c.p), Push(c.log, MessageBegin), c.used + 2, false)
  {
    hide Dispatch, Run, Push;
    var p := ResetMessage(Count(c.p)).(state := ResOrRespH);
    EitherPasses(Count(c.p), 'H');
    AfterHPasses(p.(nread := p.nread + 1));
    TwoBytes(c, 'H', p, 'T', InResponse(c.p));
    TwoBytes(c, 'H', p, 'E', InHead(c.p));
  }

  lemma ResponseReads(c: Config)
    requires Live(c) && c.p.state.StartRes? && c.p.kind.Response? && c.p.nread + 2 <= MAX_HEADER_SIZE
    ensures Run(c, ['H', 'T']) == Config(InResponse(c.p), Push(c.log, MessageBegin), c.used + 2, false)
  {
    hide Dispatch, Run, Push;
    var p := ResetMessage(Count(c.p)).(state := ResH);
    HPasses(Count(c.p));
    HPasses(p.(nread := p.nread + 1));
    TwoBytes(c, 'H', p, 'T', InResponse(c.p));
  }

  lemma RequestReads(c: Config)
    requires Live(c) && c.p.state.StartReq? && c.p.kind.Request? && c.p.nread + 2 <= MAX_HEADER_SIZE
    ensures Run(c, ['H', 'E']) == Config(InHead(c.p), Push(c.log, MessageBegin), c.used + 2, false)
  {
    hide Dispatch, Run, Push;
    var p := ResetMessage(Count(c.p)).(verb := HEAD, index := 1, state := ReqMethod);
    HPasses(Count(c.p));
    HPasses(p.(nread := p.nread + 1));
    TwoBytes(c, 'H', p, 'E', InHead(c.p));
  }

  /** After H the second letter tells: HT begins a response, HE a request, and both are read as by a parser that knew. */
  lemma SecondLetterTells(c: Config)
    requires Live(c) && c.p.state.StartReqOrRes? && c.p.nread + 2 <= MAX_HEADER_SIZE
    ensures Run(c, ['H', 'T']) == Run(c.(p := c.p.(kind := Response, state := StartRes)), ['H', 'T'])
    ensures Run(c, ['H', 'E']) == Run(c.(p := c.p.(kind := Request, state := StartReq)), ['H', 'E'])
    ensures Live(Run(c, ['H', 'T'])) && Live(Run(c, ['H', 'E']))
  {
    hide Run, Push;
    EitherReads(c);
    ResponseReads(c.(p := c.p.(kind := Response, state := StartRes)));
    RequestReads(c.(p := c.p.(kind := Request, state := StartReq)));
  }

  // ---------------------------------------------------------------- request lines of other kinds

  /** A request line without a version counts as one of version 0.9. */
  lemma NoVersion(c: Config)
    requires Live(c) && UrlMayEnd(c.p.state) && c.p.nread + 2 <= MAX_HEADER_SIZE
    ensures Run(c, CRLF) == Config(c.p.(httpMajor := 0, httpMinor := 9, state := HeaderFieldStart, nread := c.p.nread + 2),
                                   c.log, c.used + 2, false)
  {
    UrlEndsInHeader(c.p.state);
    hide Dispatch, Run, Step, UrlMayEnd, ParsingHeader;
    var p := Count(c.p);
    UrlPasses(p);
    var q := p.(httpMajor := 0, httpMinor := 9, state := ReqLineAlmostDone);
    QuietByte(c, CR, q);
    DigitFixes();
    FixedStepTo(Step(c, CR), LF, HeaderFieldStart);
    assert CRLF == [CR, LF];
    RunTwo(c, CR, LF);
  }

  lemma UrlEndsInHeader(s: State)
    ensures UrlMayEnd(s) ==> ParsingHeader(s)
  {}

  lemma SlashPasses(p: Parser)
    requires p.state.ReqHttpStart?
    ensures Dispatch(p, 'I') == if p.verb.SOURCE? then Micro(p.(state := ReqHttpI), [], Break) else Fail(p, InvalidConstant)
    ensures Dispatch(p, 'H') == Micro(p.(state := ReqHttpH), [], Break)
  {
    assert Dispatch(p, 'I') == DispatchVersion(p, 'I') && Dispatch(p, 'H') == DispatchVersion(p, 'H');
  }

  lemma IceFixes()
    ensures Fixes(ReqHttpI, 'C', ReqHttpIC) && Fixes(ReqHttpIC, 'E', ReqHttpHTTP)
  {}

  /** The word ICE stands for HTTP after the method SOURCE, and after no other. */
  lemma IceIsForSource(c: Config)
    requires Live(c) && c.p.state.ReqHttpStart? && c.p.nread + 3 <= MAX_HEADER_SIZE
    ensures if c.p.verb.SOURCE?
            then Run(c, "ICE") == Config(c.p.(state := ReqHttpHTTP, nread := c.p.nread + 3), c.log, c.used + 3, false)
            else Run(c, "ICE").p.errno.InvalidConstant?
  {
    hide Dispatch, Run, Step;
    SlashPasses(Count(c.p));
    IceFixes();
    RunOne(c, "ICE");
    assert "ICE"[1..] == "CE" && "CE"[1..] == "E" && "E"[1..] == "";
    if c.p.verb.SOURCE? {
      QuietByte(c, 'I', Count(c.p).(state := ReqHttpI));
      var d := Step(c, 'I');
      FixedStepTo(d, 'C', ReqHttpIC);
      FixedStepTo(Step(d, 'C'), 'E', ReqHttpHTTP);
      RunOne(d, "CE");
      RunOne(Step(d, 'C'), "E");
      RunEmpty(Step(Step(d, 'C'), 'E'));
    } else {
      ExecDone(Count(c.p), 'I');
      StepExec(c, 'I');
      RunDead(Step(c, 'I'), "CE");
    }
  }
}
