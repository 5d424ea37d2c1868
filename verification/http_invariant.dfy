/** What every reachable state of the HTTP parser satisfies, and with it the assertions of
    `http_parser_execute`. */
module HttpInvariant {
  import opened HttpSyntax
  import opened HttpMachine

  /** The header states `s_header_field` handles; the others hit `assert(0)` there. */
  predicate IsFieldState(h: HeaderState) {
    h.General? || h.C? || h.CO? || h.CON? || h.MatchingConnection? || h.MatchingProxyConnection? ||
    h.MatchingContentLength? || h.MatchingTransferEncoding? || h.MatchingUpgrade? || h.Connection? ||
    h.ContentLength? || h.TransferEncoding? || h.Upgrade?
  }

  /** The header states `s_header_value` expects; `Connection` and `TransferEncoding` hit `assert(0)` there. */
  predicate IsValueState(h: HeaderState) {
    h.General? || h.ContentLengthNum? || h.ContentLengthWs? || h.MatchingTransferEncodingChunked? ||
    h.MatchingConnectionTokenStart? || h.MatchingConnectionKeepAlive? || h.MatchingConnectionClose? ||
    h.MatchingConnectionUpgrade? || h.MatchingConnectionToken? || h.TransferEncodingChunked? ||
    h.ConnectionKeepAlive? || h.ConnectionClose? || h.ConnectionUpgrade?
  }

  /** How far `index` may have advanced in each matcher: it never reaches the end of the word. */
  function IndexBound(h: HeaderState): (n: nat)
    ensures n < 127
  {
    if h.C? || h.MatchingConnectionTokenStart? then 0
    else if h.CO? then 1
    else if h.CON? then 2
    else if h.MatchingConnection? then |"connection"| - 2
    else if h.MatchingProxyConnection? then |"proxy-connection"| - 2
    else if h.MatchingContentLength? then |"content-length"| - 2
    else if h.MatchingTransferEncoding? then |"transfer-encoding"| - 2
    else if h.MatchingUpgrade? || h.MatchingConnectionUpgrade? then |"upgrade"| - 2
    else if h.MatchingTransferEncodingChunked? then |"chunked"| - 2
    else if h.MatchingConnectionKeepAlive? then |"keep-alive"| - 2
    else if h.MatchingConnectionClose? then |"close"| - 2
    else |"transfer-encoding"| - 1
  }

  predicate AfterName(s: State) {
    s.HeaderField? || s.HeaderValueDiscardWs? || s.HeaderValueDiscardWsAlmostDone? || s.HeaderValueDiscardLws?
  }

  predicate AfterValue(s: State) {
    s.HeaderValue? || s.HeaderAlmostDone? || s.HeaderValueLws? || s.HeaderValueStart?
  }

  predicate HeaderInv(p: Parser) {
    && (AfterName(p.state) ==> IsFieldState(p.headerState))
    && (AfterValue(p.state) ==> IsValueState(p.headerState))
    && (p.state.HeaderField? || p.state.HeaderValue? ==> p.index <= IndexBound(p.headerState))
    && (AfterValue(p.state) && (p.headerState.ContentLengthNum? || p.headerState.ContentLengthWs?)
        ==> p.flags.contentLength)
  }

  predicate LengthInv(p: Parser) {
    && p.contentLength <= UINT64_MAX
    && (p.flags.contentLength ==> p.contentLength < UINT64_MAX)
    && (p.state.ChunkSize? || p.state.ChunkParameters? || p.state.ChunkSizeAlmostDone? ==> p.contentLength < UINT64_MAX)
    && (p.state.ChunkData? || p.state.BodyIdentity? ==> 0 < p.contentLength < UINT64_MAX)
    && (p.state.ChunkDataAlmostDone? ==> p.contentLength == 0)
  }

  predicate InChunkedBody(s: State) {
    s.ChunkSizeStart? || s.ChunkSize? || s.ChunkParameters? || s.ChunkSizeAlmostDone? || s.ChunkData? ||
    s.ChunkDataAlmostDone? || s.ChunkDataDone?
  }

  /** Holds before and after every pass through the switch that reports no error. */
  predicate Inv(p: Parser) {
    && HeaderInv(p)
    && LengthInv(p)
    && (InChunkedBody(p.state) || p.flags.trailing ==> p.flags.chunked)
    && (p.state.ReqMethod? ==> 1 <= p.index <= |MethodName(p.verb)|)
    && p.statusCode <= 999
    && p.httpMajor <= 9 && p.httpMinor <= 9
    && p.index < 128
  }

  /** Holds between two bytes as well. */
  predicate Reachable(p: Parser) {
    Inv(p) && p.nread <= MAX_HEADER_SIZE && (p.state.ChunkSizeStart? ==> p.nread == 0) && (p.state.HeaderValue? ==> p.nread > 0)
  }

  /** The assertions inside the switch, evaluated when the switch is entered. */
  predicate AssertionsHold(p: Parser) {
    && (p.state.HeaderField? ==> IsFieldState(p.headerState))
    && (p.state.HeaderValue? ==> !p.headerState.Connection? && !p.headerState.TransferEncoding?)
    && (p.state.BodyIdentity? || p.state.ChunkData? ==> p.contentLength != 0 && p.contentLength != UINT64_MAX)
    && (p.state.ChunkSizeStart? ==> p.nread == 1)
    && (InChunkedBody(p.state) && !p.state.ChunkSizeStart? ==> p.flags.chunked)
    && (p.state.ChunkSizeStart? ==> p.flags.chunked)
    && (p.state.ChunkDataAlmostDone? ==> p.contentLength == 0)
  }

  predicate Good(p: Parser) {
    p.errno.Ok? ==> Inv(p)
  }

  lemma FieldByteInv(h: HeaderState, index: nat, ch: char)
    requires IsToken(ch) && IsFieldState(h) && index <= IndexBound(h)
    ensures var (h', i) := FieldByte(h, index, ch); IsFieldState(h') && i <= IndexBound(h')
  {}

  lemma ValueStartInv(p: Parser, ch: char)
    requires Inv(p) && p.errno.Ok?
    requires p.state.HeaderValueDiscardWs? || p.state.HeaderValueStart?
    ensures Good(ValueStart(p, ch))
  {
    hide IndexBound, Lower;
  }

  lemma NextValueState(v: Value, ch: char)
    requires v.errno.Ok? && IsValueState(v.h)
    ensures var r := NextValue(v, ch);
            r.errno.Ok? ==> (IsValueState(r.h) &&
                             (r.h.ContentLengthNum? || r.h.ContentLengthWs? ==> v.h.ContentLengthNum? || v.h.ContentLengthWs?))
  {}

  /** The values in the middle of a fixed word. */
  predicate InWord(h: HeaderState) {
    h.MatchingTransferEncodingChunked? || h.MatchingConnectionKeepAlive? || h.MatchingConnectionClose? || h.MatchingConnectionUpgrade?
  }

  lemma WordIndex(v: Value, ch: char)
    requires v.errno.Ok? && InWord(v.h) && v.index <= IndexBound(v.h)
    ensures var r := NextValue(v, ch); r.index <= IndexBound(r.h)
  {
    hide Lower, MatchWord;
    if v.h.MatchingTransferEncodingChunked? || v.h.MatchingConnectionKeepAlive? {
      assert |"chunked"| == 7 && |"keep-alive"| == 10;
    } else {
      assert |"close"| == 5 && |"upgrade"| == 7;
    }
  }

  lemma OtherIndex(v: Value, ch: char)
    requires v.errno.Ok? && IsValueState(v.h) && !InWord(v.h) && v.index <= IndexBound(v.h)
    ensures var r := NextValue(v, ch); r.errno.Ok? ==> r.index <= IndexBound(r.h)
  {
    hide ContentLengthDigit, Lower, IsToken, MatchWord, FinishHeader;
  }

  lemma NextValueIndex(v: Value, ch: char)
    requires v.errno.Ok? && IsValueState(v.h) && v.index <= IndexBound(v.h)
    ensures var r := NextValue(v, ch); r.errno.Ok? ==> r.index <= IndexBound(r.h)
  {
    hide NextValue, IndexBound, IsValueState;
    if InWord(v.h) {
      WordIndex(v, ch);
    } else {
      OtherIndex(v, ch);
    }
  }

  lemma NextValueLength(v: Value, ch: char)
    requires v.errno.Ok? && v.length <= UINT64_MAX && !v.h.ContentLength?
    ensures var r := NextValue(v, ch); r.errno.Ok? ==> r.length == v.length || (r.length < UINT64_MAX && v.h.ContentLengthNum?)
  {}

  lemma ValueByteInv(p: Parser, ch: char)
    requires Inv(p) && p.errno.Ok? && p.state.HeaderValue?
    ensures Good(ValueByte(p, ch))
  {
    hide NextValue, IsFieldState, IndexBound;
    NextValueState(ValueOf(p), ch);
    NextValueIndex(ValueOf(p), ch);
    NextValueLength(ValueOf(p), ch);
  }

  // ---------------------------------------------------------------- ordinary states

  /** The states about which the invariant says nothing of their own. */
  predicate Ordinary(s: State) {
    !AfterName(s) && !AfterValue(s) && !InChunkedBody(s) && !s.ReqMethod? && !s.BodyIdentity?
  }

  lemma OrdinaryInv(p: Parser, q: Parser)
    requires Inv(p) && q.flags == p.flags && q.contentLength == p.contentLength
    requires q.statusCode <= 999 || q.statusCode == p.statusCode
    requires (q.httpMajor <= 9 || q.httpMajor == p.httpMajor) && (q.httpMinor <= 9 || q.httpMinor == p.httpMinor)
    requires q.index < 128 || q.index == p.index
    ensures Ordinary(q.state) ==> Inv(q)
  {}

  lemma AfterUrlIsOrdinary()
    ensures Ordinary(Dead) && Ordinary(ReqHttpStart) && Ordinary(ReqLineAlmostDone) && Ordinary(HeaderFieldStart) &&
        Ordinary(ReqSpacesBeforeUrl)
  {}

  lemma VersionIsOrdinary()
    ensures Ordinary(ReqHttpDot) && Ordinary(ReqHttpEnd) && Ordinary(ResHttpDot) && Ordinary(ResHttpEnd)
    ensures Ordinary(ReqHttpH) && Ordinary(ReqHttpI) && Ordinary(ReqHttpStart)
  {}

  lemma UrlIsOrdinary(s: State)
    ensures InUrl(s) ==> Ordinary(s)
  {}

  lemma HeaderNameKeepsInv(p: Parser, ch: char)
    requires Inv(p) && p.errno.Ok? && PhaseOf(p.state).InHeaderName?
    ensures Good(DispatchHeaderName(p, ch).p)
  {
    hide Advances, Reports, FieldByte;
    if p.state.HeaderField? && IsToken(ch) {
      FieldByteInv(p.headerState, p.index, ch);
    }
  }

  lemma HeaderValueKeepsInv(p: Parser, ch: char)
    requires Inv(p) && p.errno.Ok? && PhaseOf(p.state).InHeaderValue?
    ensures Good(DispatchHeaderValue(p, ch).p)
  {
    hide Advances, Reports, ValueStart, ValueByte, IndexBound, IsHeaderChar, IsValueState, IsFieldState, FinishHeader;
    if p.state.HeaderValue? {
      ValueByteInv(p, ch);
    } else {
      ValueStartInv(p, ch);
    }
  }

  lemma EndOfValueKeepsInv(p: Parser, ch: char)
    requires Inv(p) && p.errno.Ok? && PhaseOf(p.state).InEndOfValue?
    ensures Good(DispatchEndOfValue(p, ch).p)
  {
    hide Advances, Reports, ValueStart, ValueByte, IndexBound, IsHeaderChar, IsFieldState, FinishHeader;
  }

  lemma EndOfHeadersKeepsInv(p: Parser, ch: char)
    requires Inv(p) && p.errno.Ok? && p.state.HeadersAlmostDone?
    ensures Good(EndOfHeaders(p, ch).p)
  {
    hide Advances, Reports, IsFieldState, IsValueState, IndexBound, MethodName, FixedByte;
  }

  lemma HeadersDoneKeepsInv(p: Parser, ch: char)
    requires Inv(p) && p.errno.Ok? && p.state.HeadersDone?
    ensures Good(HeadersAreDone(p, ch).p)
  {
    hide Advances, Reports, IsFieldState, IsValueState, IndexBound, MethodName, FixedByte, ShouldKeepAlive;
  }

  lemma HeadersEndKeepsInv(p: Parser, ch: char)
    requires Inv(p) && p.errno.Ok?
    ensures p.state.HeadersAlmostDone? ==> Good(EndOfHeaders(p, ch).p)
    ensures p.state.HeadersDone? ==> Good(HeadersAreDone(p, ch).p)
  {
    hide *;
    if p.state.HeadersAlmostDone? {
      EndOfHeadersKeepsInv(p, ch);
    } else if p.state.HeadersDone? {
      HeadersDoneKeepsInv(p, ch);
    }
  }

  lemma ChunkSizeKeepsInv(p: Parser, ch: char)
    requires Inv(p) && p.errno.Ok? && (p.state.ChunkSizeStart? || p.state.ChunkSize? || p.state.ChunkParameters?)
    ensures Good(ChunkSizeLine(p, ch).p)
  {
    hide Advances, Reports, ChunkSizeDigit, ChunkDigit, IsChunkDigit, IsFieldState, IsValueState, IndexBound, MethodName, FixedByte;
  }

  lemma ChunkRestKeepsInv(p: Parser, ch: char)
    requires Inv(p) && p.errno.Ok? && (p.state.ChunkSizeAlmostDone? || p.state.ChunkData? || p.state.ChunkDataDone?)
    ensures Good(ChunkRest(p, ch).p)
  {
    hide Advances, Reports, IsFieldState, IsValueState, IndexBound, MethodName, FixedByte;
  }

  lemma ChunkKeepsInv(p: Parser, ch: char)
    requires Inv(p) && p.errno.Ok? && PhaseOf(p.state).InChunk?
    ensures Good(DispatchChunk(p, ch).p)
  {
    hide Inv, Good, Advances, Reports, ChunkSizeLine, ChunkRest;
    if p.state.ChunkSizeStart? || p.state.ChunkSize? || p.state.ChunkParameters? {
      ChunkSizeKeepsInv(p, ch);
    } else {
      ChunkRestKeepsInv(p, ch);
    }
  }

  lemma RestKeepsInv(p: Parser, ch: char)
    requires Inv(p) && p.errno.Ok? && PhaseOf(p.state).InRest?
    ensures Good(DispatchRest(p, ch).p)
  {
    hide Advances, Reports;
  }

  lemma StatusCodeKeepsInv(p: Parser, ch: char)
    requires Inv(p) && p.errno.Ok? && (p.state.ResFirstStatusCode? || p.state.ResStatusCode?)
    ensures Good(StatusCode(p, ch).p)
  {
    hide Advances, Reports, DigitValue, IsFieldState, IsValueState, IndexBound, MethodName, FixedByte;
  }

  lemma ReasonKeepsInv(p: Parser, ch: char)
    requires Inv(p) && p.errno.Ok? && (p.state.ResStatusStart? || p.state.ResStatus?)
    ensures Good(ReasonPhrase(p, ch).p)
  {
    hide Advances, Reports, IsFieldState, IsValueState, IndexBound, MethodName, FixedByte;
  }

  lemma StatusKeepsInv(p: Parser, ch: char)
    requires Inv(p) && p.errno.Ok? && PhaseOf(p.state).InStatus?
    ensures Good(DispatchStatus(p, ch).p)
  {
    hide Inv, Good, Advances, Reports, StatusCode, ReasonPhrase;
    if p.state.ResFirstStatusCode? || p.state.ResStatusCode? {
      StatusCodeKeepsInv(p, ch);
    } else {
      ReasonKeepsInv(p, ch);
    }
  }

  lemma MethodByteInv(m: Method, index: nat, ch: char)
    requires 1 <= index <= |MethodName(m)|
    ensures MethodByte(m, index, ch).Some? ==> index < |MethodName(MethodByte(m, index, ch).value)|
  {
    hide Advances, Reports;
  }

  lemma RequestMethodKeepsInv(p: Parser, ch: char)
    requires Inv(p) && p.errno.Ok? && p.state.ReqMethod?
    ensures Good(RequestMethod(p, ch).p)
  {
    hide Advances, Reports, MethodByte, IsFieldState, IsValueState, IndexBound;
    MethodByteInv(p.verb, p.index, ch);
  }

  lemma StartRequestKeepsInv(p: Parser, ch: char)
    requires Inv(p) && p.errno.Ok? && p.state.StartReq?
    ensures Good(StartRequest(p, ch).p)
  {
    hide Advances, Reports, FirstLetter, IsFirstLetter, IsAlpha, IsFieldState, IsValueState, IndexBound, FixedByte;
  }

  lemma FirstByteKeepsInv(p: Parser, ch: char)
    requires Inv(p) && p.errno.Ok?
    ensures p.state.StartRes? ==> Good(StartResponse(p, ch).p)
    ensures p.state.StartReqOrRes? ==> Good(StartEither(p, ch).p)
    ensures p.state.ResOrRespH? ==> Good(AfterH(p, ch).p)
  {
    hide Advances, Reports, IsFieldState, IsValueState, IndexBound, FixedByte;
  }

  lemma StartKeepsInv(p: Parser, ch: char)
    requires Inv(p) && p.errno.Ok? && PhaseOf(p.state).InStart?
    ensures Good(DispatchStart(p, ch).p)
  {
    hide Inv, Good, Advances, Reports, StartRequest, RequestMethod, StartResponse, StartEither, AfterH;
    if p.state.ReqMethod? {
      RequestMethodKeepsInv(p, ch);
    } else if p.state.StartReq? {
      StartRequestKeepsInv(p, ch);
    } else {
      FirstByteKeepsInv(p, ch);
    }
  }

  lemma UrlKeepsInv(p: Parser, ch: char)
    requires Inv(p) && p.errno.Ok? && PhaseOf(p.state).InUrlPart?
    ensures Good(DispatchUrl(p, ch).p)
  {
    hide Inv, Advances, Reports, ParseUrlChar, Ordinary, PhaseOf;
    ParseUrlCharStaysInUrl(p.state, ch);
    ParseUrlCharStaysInUrl(ReqServerStart, ch);
    AfterUrlIsOrdinary();
    var q := DispatchUrl(p, ch).p;
    UrlIsOrdinary(q.state);
    OrdinaryInv(p, q);
  }

  lemma VersionKeepsInv(p: Parser, ch: char)
    requires Inv(p) && p.errno.Ok? && PhaseOf(p.state).InVersion?
    ensures Good(DispatchVersion(p, ch).p)
  {
    hide Inv, Advances, Reports, IsNum, DigitValue, Ordinary;
    AfterUrlIsOrdinary();
    VersionIsOrdinary();
    OrdinaryInv(p, DispatchVersion(p, ch).p);
  }

  lemma FixedKeepsInv(p: Parser, ch: char)
    requires Inv(p) && p.errno.Ok? && PhaseOf(p.state).InFixed?
    ensures Good(Expect(p, ch).p)
  {
    hide Advances, Reports, IsFieldState, IsValueState, IndexBound;
  }

  lemma DispatchKeepsInv(p: Parser, ch: char)
    requires Inv(p) && p.errno.Ok?
    ensures Good(Dispatch(p, ch).p)
  {
    hide Inv, Expect, DispatchVersion, DispatchStatus, DispatchStart, DispatchUrl,
         DispatchHeaderName, DispatchHeaderValue, DispatchEndOfValue, EndOfHeaders, HeadersAreDone, DispatchChunk, DispatchRest;
    match PhaseOf(p.state)
    case InFixed => FixedKeepsInv(p, ch);
    case InStatus => StatusKeepsInv(p, ch);
    case InStart => StartKeepsInv(p, ch);
    case InUrlPart => UrlKeepsInv(p, ch);
    case InVersion => VersionKeepsInv(p, ch);
    case InHeaderName => HeaderNameKeepsInv(p, ch);
    case InHeaderValue => HeaderValueKeepsInv(p, ch);
    case InEndOfValue => EndOfValueKeepsInv(p, ch);
    case InHeadersEnd => HeadersEndKeepsInv(p, ch);
    case InChunk => ChunkKeepsInv(p, ch);
    case InRest => RestKeepsInv(p, ch);
  }

  /** Every pass over one byte finds the assertions of its case true. */
  predicate EveryPassAsserts(p: Parser, ch: char)
    requires p.errno.Ok?
    decreases Rank(p.state)
  {
    AssertionsHold(p) && (Dispatch(p, ch).next.Again? ==> EveryPassAsserts(Dispatch(p, ch).p, ch))
  }

  lemma {:induction false} ExecKeepsInv(p: Parser, ch: char)
    requires Inv(p) && p.errno.Ok?
    requires p.state.ChunkSizeStart? ==> p.nread == 1
    ensures var q := Exec(p, ch).p;
            q.errno.Ok? ==> Inv(q) && q.nread <= p.nread && (q.state.ChunkSizeStart? ==> q.nread == 0)
    ensures EveryPassAsserts(p, ch)
    decreases Rank(p.state)
  {
    hide Dispatch, IsFieldState, IsValueState;
    DispatchKeepsInv(p, ch);
    AssertionsFromInv(p);
    if Dispatch(p, ch).next.Again? {
      ExecKeepsInv(Dispatch(p, ch).p, ch);
    }
  }

  /** The byte being read is counted if it belongs to a header. */
  predicate Counted(p: Parser) {
    p.nread > 0 || !ParsingHeader(p.state)
  }

  lemma DispatchCounts(p: Parser, ch: char)
    requires p.errno.Ok? && Counted(p)
    ensures var m := Dispatch(p, ch); (m.p.state.HeaderValue? ==> m.p.nread > 0) && (m.next.Again? ==> Counted(m.p))
  {
    hide Dispatch;
    assert Advances(p, Dispatch(p, ch));
  }

  lemma {:induction false} ExecCounts(p: Parser, ch: char)
    requires p.errno.Ok? && Counted(p)
    ensures Exec(p, ch).p.state.HeaderValue? ==> Exec(p, ch).p.nread > 0
    decreases Rank(p.state)
  {
    hide Dispatch, Counted;
    DispatchCounts(p, ch);
    if Dispatch(p, ch).next.Again? {
      ExecCounts(Dispatch(p, ch).p, ch);
    }
  }

  lemma AssertionsFromInv(p: Parser)
    requires Inv(p) && (p.state.ChunkSizeStart? ==> p.nread == 1)
    ensures AssertionsHold(p)
  {}

  lemma CountKeepsInv(p: Parser)
    requires Reachable(p)
    ensures Inv(Count(p)) && (p.state.ChunkSizeStart? ==> Count(p).nread == 1)
  {}

  lemma StepKeepsReachable(c: Config, ch: char)
    requires Live(c) ==> Reachable(c.p)
    ensures Live(Step(c, ch)) ==> Reachable(Step(c, ch).p)
    ensures Live(c) && Count(c.p).errno.Ok? ==> EveryPassAsserts(Count(c.p), ch)
  {
    hide Exec, EveryPassAsserts, HeaderInv, LengthInv;
    if Live(c) && Count(c.p).errno.Ok? {
      CountKeepsInv(c.p);
      ExecKeepsInv(Count(c.p), ch);
      ExecCounts(Count(c.p), ch);
    }
  }

  lemma {:induction false} RunKeepsReachable(c: Config, s: string)
    requires Live(c) ==> Reachable(c.p)
    ensures Live(Run(c, s)) ==> Reachable(Run(c, s).p)
    decreases |s|
  {
    hide Step;
    if |s| > 0 {
      StepKeepsReachable(c, s[0]);
      RunKeepsReachable(Step(c, s[0]), s[1..]);
    }
  }

  lemma InitReachable(kind: Kind, lenient: bool, reply: HeadersReply)
    ensures Reachable(Init(kind, lenient, reply))
  {}

  /** Whatever bytes a fresh parser is fed, the switch never meets a false assertion, never reads
      past a method name or a header word, and never wraps `index`. */
  lemma AssertionsAlwaysHold(kind: Kind, lenient: bool, reply: HeadersReply, s: string, ch: char)
    ensures var c := Run(Config(Init(kind, lenient, reply), [], 0, false), s);
            Live(c) ==> Reachable(c.p) && (Count(c.p).errno.Ok? ==> EveryPassAsserts(Count(c.p), ch))
  {
    var c0 := Config(Init(kind, lenient, reply), [], 0, false);
    InitReachable(kind, lenient, reply);
    RunKeepsReachable(c0, s);
    StepKeepsReachable(Run(c0, s), ch);
  }
}
