/** Header bytes that were counted before a message begins: the trailer of one message counts towards the head of the
    next. Exactly which lists of messages, each of which fits alone, are told apart. */
module HttpCarried {
  import opened HttpSyntax
  import opened HttpMachine
  import opened HttpLog
  import opened HttpBulk
  import opened HttpWords
  import opened HttpMessages
  import opened HttpFields
  import opened HttpChunks
  import opened HttpFraming
  import opened HttpResponses
  import opened HttpValues
  import opened Numerals
  import opened HttpOverflow

  // ---------------------------------------------------------------- only the count depends on the count

  function Recounted(m: Micro, x: nat): Micro {
    m.(p := m.p.(nread := x))
  }

  /** The pass neither sets the count back nor looks at it. */
  predicate KeepsCount(p: Parser, m: Micro) {
    m.p.nread == p.nread > 0
  }

  lemma FixedPass(p: Parser, x: nat, ch: char)
    requires FixedByte(p.state).Some?
    ensures Expect(p.(nread := x), ch) == Recounted(Expect(p, ch), x)
  {
    hide FixedByte;
  }

  lemma MethodPass(p: Parser, x: nat, ch: char)
    requires p.state.ReqMethod?
    ensures RequestMethod(p.(nread := x), ch) == Recounted(RequestMethod(p, ch), x)
  {
    hide Advances, Reports, MethodByte, MethodName;
  }

  lemma FirstPass(p: Parser, x: nat, ch: char)
    ensures p.state.StartReq? ==> StartRequest(p.(nread := x), ch) == Recounted(StartRequest(p, ch), x)
    ensures p.state.StartRes? ==> StartResponse(p.(nread := x), ch) == Recounted(StartResponse(p, ch), x)
  {
    hide Advances, Reports;
  }

  lemma EitherPass(p: Parser, x: nat, ch: char)
    ensures p.state.StartReqOrRes? ==> StartEither(p.(nread := x), ch) == Recounted(StartEither(p, ch), x)
    ensures p.state.ResOrRespH? ==> AfterH(p.(nread := x), ch) == Recounted(AfterH(p, ch), x)
  {
    hide Advances, Reports;
  }

  lemma StartPass(p: Parser, x: nat, ch: char)
    requires PhaseOf(p.state).InStart?
    ensures DispatchStart(p.(nread := x), ch) == Recounted(DispatchStart(p, ch), x)
  {
    hide Advances, Reports, StartRequest, StartResponse, StartEither, AfterH, RequestMethod, FixedByte;
    FirstPass(p, x, ch);
    EitherPass(p, x, ch);
    if p.state.ReqMethod? {
      MethodPass(p, x, ch);
    }
  }

  lemma UrlPass(p: Parser, x: nat, ch: char)
    requires PhaseOf(p.state).InUrlPart?
    ensures DispatchUrl(p.(nread := x), ch) == Recounted(DispatchUrl(p, ch), x)
  {
    hide ParseUrlChar, Advances, Reports, PhaseOf, UrlMayEnd;
  }

  lemma VersionPass(p: Parser, x: nat, ch: char)
    requires PhaseOf(p.state).InVersion?
    ensures DispatchVersion(p.(nread := x), ch) == Recounted(DispatchVersion(p, ch), x)
  {
    hide Advances, Reports, PhaseOf;
  }

  lemma StatusPass(p: Parser, x: nat, ch: char)
    requires PhaseOf(p.state).InStatus?
    ensures DispatchStatus(p.(nread := x), ch) == Recounted(DispatchStatus(p, ch), x)
  {}

  lemma NamePass(p: Parser, x: nat, ch: char)
    requires PhaseOf(p.state).InHeaderName?
    ensures DispatchHeaderName(p.(nread := x), ch) == Recounted(DispatchHeaderName(p, ch), x)
  {
    hide FieldByte, FirstFieldByte, IsToken, Advances, Reports, PhaseOf;
  }

  lemma BeforePass(p: Parser, x: nat, ch: char)
    requires p.state.HeaderValueDiscardWs? || p.state.HeaderValueStart?
    ensures BeforeValue(p.(nread := x), ch) == Recounted(BeforeValue(p, ch), x)
  {
    hide StartValue, Advances, Reports;
  }

  lemma InsidePass(p: Parser, x: nat, ch: char)
    requires p.state.HeaderValue?
    ensures InsideValue(p.(nread := x), ch) == Recounted(InsideValue(p, ch), x)
  {
    hide NextValue, IsHeaderChar, Advances, Reports;
  }

  lemma ValuePass(p: Parser, x: nat, ch: char)
    requires PhaseOf(p.state).InHeaderValue?
    ensures DispatchHeaderValue(p.(nread := x), ch) == Recounted(DispatchHeaderValue(p, ch), x)
  {
    hide InsideValue, BeforeValue, Advances, Reports, FixedByte;
    if p.state.HeaderValue? {
      InsidePass(p, x, ch);
    } else {
      BeforePass(p, x, ch);
    }
  }

  lemma EndPass(p: Parser, x: nat, ch: char)
    requires PhaseOf(p.state).InEndOfValue?
    ensures DispatchEndOfValue(p.(nread := x), ch) == Recounted(DispatchEndOfValue(p, ch), x)
  {
    hide FinishHeader;
  }

  lemma HeadersAlmostPass(p: Parser, x: nat, ch: char)
    requires p.state.HeadersAlmostDone?
    ensures EndOfHeaders(p.(nread := x), ch) == Recounted(EndOfHeaders(p, ch), x)
  {
    hide Advances, Reports;
  }

  lemma HeadersDonePass(p: Parser, x: nat, ch: char)
    requires KeepsCount(p, HeadersAreDone(p, ch))
    ensures HeadersAreDone(p.(nread := x), ch) == Recounted(HeadersAreDone(p, ch), x)
  {
    hide Reports;
  }

  lemma HeadersEndPass(p: Parser, x: nat, ch: char)
    requires PhaseOf(p.state).InHeadersEnd? && KeepsCount(p, Dispatch(p, ch))
    ensures Dispatch(p.(nread := x), ch) == Recounted(Dispatch(p, ch), x)
  {
    hide Advances, Reports, EndOfHeaders, HeadersAreDone, FixedByte;
    if p.state.HeadersAlmostDone? {
      HeadersAlmostPass(p, x, ch);
    } else {
      HeadersDonePass(p, x, ch);
    }
  }

  lemma SizePass(p: Parser, x: nat, ch: char)
    requires p.state.ChunkSizeStart? || p.state.ChunkSize? || p.state.ChunkParameters?
    ensures ChunkSizeLine(p.(nread := x), ch) == Recounted(ChunkSizeLine(p, ch), x)
  {
    hide ChunkDigit, IsChunkDigit, Advances, Reports;
  }

  lemma ChunkRestPass(p: Parser, x: nat, ch: char)
    requires p.state.ChunkSizeAlmostDone? || p.state.ChunkData? || p.state.ChunkDataDone?
    requires KeepsCount(p, ChunkRest(p, ch))
    ensures ChunkRest(p.(nread := x), ch) == Recounted(ChunkRest(p, ch), x)
  {
    hide Advances, Reports;
  }

  lemma ChunkPass(p: Parser, x: nat, ch: char)
    requires PhaseOf(p.state).InChunk? && KeepsCount(p, DispatchChunk(p, ch))
    ensures DispatchChunk(p.(nread := x), ch) == Recounted(DispatchChunk(p, ch), x)
  {
    hide ChunkSizeLine, ChunkRest, Advances, Reports, FixedByte;
    if p.state.ChunkSizeStart? || p.state.ChunkSize? || p.state.ChunkParameters? {
      SizePass(p, x, ch);
    } else {
      ChunkRestPass(p, x, ch);
    }
  }

  lemma RestPass(p: Parser, x: nat, ch: char)
    requires PhaseOf(p.state).InRest?
    ensures DispatchRest(p.(nread := x), ch) == Recounted(DispatchRest(p, ch), x)
  {
    hide Advances, Reports, Rank;
  }

  lemma PassIgnoresCount(p: Parser, x: nat, ch: char)
    requires KeepsCount(p, Dispatch(p, ch))
    ensures Dispatch(p.(nread := x), ch) == Recounted(Dispatch(p, ch), x)
  {
    hide PhaseOf, Expect, DispatchStart, DispatchUrl, DispatchVersion, DispatchStatus, DispatchHeaderName, DispatchHeaderValue,
         DispatchEndOfValue, DispatchChunk, DispatchRest;
    match PhaseOf(p.state) {
      case InFixed => FixedPass(p, x, ch);
      case InStart => StartPass(p, x, ch);
      case InUrlPart => UrlPass(p, x, ch);
      case InVersion => VersionPass(p, x, ch);
      case InStatus => StatusPass(p, x, ch);
      case InHeaderName => NamePass(p, x, ch);
      case InHeaderValue => ValuePass(p, x, ch);
      case InEndOfValue => EndPass(p, x, ch);
      case InHeadersEnd => HeadersEndPass(p, x, ch);
      case InChunk => ChunkPass(p, x, ch);
      case InRest => RestPass(p, x, ch);
    }
  }

  /** What any number of passes does to the count. */
  lemma {:induction false} ExecCounts(p: Parser, ch: char)
    requires p.errno.Ok?
    ensures var m := Exec(p, ch); m.p.nread == p.nread || m.p.nread == 0
    decreases Rank(p.state)
  {
    hide Dispatch;
    if Dispatch(p, ch).next.Again? {
      ExecCounts(Dispatch(p, ch).p, ch);
    }
  }

  lemma {:induction false} ExecIgnoresCount(p: Parser, x: nat, ch: char)
    requires p.errno.Ok? && KeepsCount(p, Exec(p, ch))
    ensures Exec(p.(nread := x), ch) == Recounted(Exec(p, ch), x)
    decreases Rank(p.state)
  {
    hide Dispatch;
    var m := Dispatch(p, ch);
    if m.next.Again? {
      ExecCounts(m.p, ch);
      PassIgnoresCount(p, x, ch);
      ExecIgnoresCount(m.p, x, ch);
    } else {
      PassIgnoresCount(p, x, ch);
    }
  }

  function From(c: Config, x: nat): Config {
    c.(p := c.p.(nread := x))
  }

  lemma StepCounts(c: Config, ch: char)
    requires Live(c) && Live(Step(c, ch))
    ensures Step(c, ch).p.nread <= c.p.nread + 1
  {
    hide Exec;
    ExecCounts(Count(c.p), ch);
  }

  lemma StepShifts(c: Config, x: nat, ch: char)
    requires Live(c) && Live(Step(c, ch)) && Step(c, ch).p.nread == c.p.nread + 1 && x < MAX_HEADER_SIZE
    ensures ParsingHeader(c.p.state) && Step(From(c, x), ch) == From(Step(c, ch), x + 1)
  {
    hide Exec, ParsingHeader;
    ExecCounts(Count(c.p), ch);
    ExecIgnoresCount(Count(c.p), x + 1, ch);
  }

  lemma {:induction false} RunCounts(c: Config, s: string)
    requires Live(Run(c, s))
    ensures Live(c) && Run(c, s).p.nread <= c.p.nread + |s|
    decreases |s|
  {
    hide Step;
    if |s| > 0 {
      RunCounts(Step(c, s[0]), s[1..]);
      if Live(c) {
        StepCounts(c, s[0]);
      } else {
        RunDead(c, s);
      }
    }
  }

  /** Bytes that all count, read with more or fewer counted before: the same, or one is too many. */
  lemma {:induction false} RunShifts(c: Config, x: nat, s: string)
    requires Live(Run(c, s)) && Run(c, s).p.nread == c.p.nread + |s| && x <= MAX_HEADER_SIZE
    ensures if x + |s| <= MAX_HEADER_SIZE then Run(From(c, x), s) == From(Run(c, s), x + |s|)
            else Run(From(c, x), s).p.errno.HeaderOverflow?
    decreases |s|
  {
    hide Step;
    RunCounts(c, s);
    if |s| > 0 {
      var d := Step(c, s[0]);
      RunCounts(d, s[1..]);
      StepCounts(c, s[0]);
      if x < MAX_HEADER_SIZE {
        StepShifts(c, x, s[0]);
        RunShifts(d, x + 1, s[1..]);
      } else {
        StepShifts(c, 0, s[0]);
        StepTooMany(From(c, x), s[0]);
        RunDead(Step(From(c, x), s[0]), s[1..]);
      }
    }
  }

  // ---------------------------------------------------------------- heads that are too long

  /** All of a head but the last byte, read with nothing counted before. */
  predicate AlmostRead(c: Config, s: string) {
    var d := Run(From(c, 0), s); Live(d) && d.p.nread == |s| && ParsingHeader(d.p.state)
  }

  lemma TooMany(c: Config, s: string, rest: string)
    requires c.p.nread <= MAX_HEADER_SIZE < c.p.nread + |s| + 1 && AlmostRead(c, s) && |rest| > 0
    ensures Run(c, s + rest).p.errno.HeaderOverflow?
  {
    hide Run, Step, ParsingHeader;
    var n := c.p.nread;
    assert From(From(c, 0), n) == c;
    RunShifts(From(c, 0), n, s);
    RunAppend(c, s, rest);
    var d := Run(c, s);
    if n + |s| <= MAX_HEADER_SIZE {
      StepTooMany(d, rest[0]);
      RunOne(d, rest);
      RunDead(Step(d, rest[0]), rest[1..]);
    } else {
      RunDead(d, rest);
    }
  }

  /** The header lines and the first half of the empty line. */
  lemma RunLinesAndCr(c: Config, m: Message)
    requires FirstLineRead(c, |Fields(m)| + 2) && MessageFits(m)
    ensures var d := Run(c, Fields(m) + [CR]);
            Live(d) && d.p.nread == c.p.nread + |Fields(m)| + 1 && ParsingHeader(d.p.state)
  {
    hide Run, Step, Dispatch, PushAll, FinishHeader, Fields, FieldEvents, MessageFits, HeadFlags, FramingLength;
    RunFields(c, m);
    var d := Run(c, Fields(m));
    RunSnoc(c, Fields(m), CR);
    SettleStep(d, CR);
    var e := Settle(d);
    BlankLinePass(Count(e.p));
    QuietByte(e, CR, e.p.(state := HeadersAlmostDone, nread := e.p.nread + 1));
  }

  // ---------------------------------------------------------------- requests

  function HeadButOne(r: Req): string {
    RequestLine(r) + (Fields(r.message) + [CR])
  }

  lemma RequestAlmostRead(c: Config, r: Req)
    requires Ready(c) && Fits(0, r)
    ensures AlmostRead(c, HeadButOne(r)) && |HeadButOne(r)| == |RequestLine(r)| + |Fields(r.message)| + 1
  {
    hide Run, Push, PushAll, RequestLine, Fields, MessageFits, ParsingHeader;
    var c0 := From(c, 0);
    RunRequestLine(c0, r);
    var d := Run(c0, RequestLine(r));
    RunLinesAndCr(d, r.message);
    RunAppend(c0, RequestLine(r), Fields(r.message) + [CR]);
  }

  lemma EncodeIs(reply: HeadersReply, r: Req)
    ensures var rest := [LF] + Payload(RequestRole(r.verb, reply), r.message); |rest| > 0 && Encode(reply, r) == HeadButOne(r) + rest
  {
    hide RequestLine, Fields, Payload;
    assert CRLF == [CR] + [LF];
  }

  /** A request that fits alone, but not behind what already counts, is refused for too many header bytes. */
  lemma RequestRefused(c: Config, r: Req, more: string)
    requires Ready(c) && c.p.nread <= MAX_HEADER_SIZE && Fits(0, r) && !Fits(c.p.nread, r)
    ensures Run(c, Encode(c.p.reply, r) + more).p.errno.HeaderOverflow?
  {
    hide Run, RequestLine, Fields, MessageFits, Encode, HeadButOne, IsUrl, AlmostRead;
    RequestAlmostRead(c, r);
    EncodeIs(c.p.reply, r);
    var rest := [LF] + Payload(RequestRole(r.verb, c.p.reply), r.message);
    TooMany(c, HeadButOne(r), rest + more);
    assert HeadButOne(r) + rest + more == HeadButOne(r) + (rest + more);
  }

  predicate FitsAlone(reply: HeadersReply, r: Req) {
    Fits(0, r) && Stays(reply, r)
  }

  lemma CarriedIsCounted(role: Role, m: Message)
    requires MessageFits(m)
    ensures Carried(role, m) <= MAX_HEADER_SIZE
  {
    hide EndsWithHead, Lines;
  }

  /** Requests each of which fits alone and lets another one follow are told apart exactly if each fits behind the
      trailer of the one before. */
  lemma {:induction false} ToldApartExactly(c: Config, rs: seq<Req>)
    requires Ready(c) && c.p.nread <= MAX_HEADER_SIZE && forall i :: 0 <= i < |rs| ==> FitsAlone(c.p.reply, rs[i])
    ensures Live(Run(c, EncodeAll(c.p.reply, rs))) <==> AllFit(c.p.nread, c.p.reply, rs)
    ensures !AllFit(c.p.nread, c.p.reply, rs) ==> Run(c, EncodeAll(c.p.reply, rs)).p.errno.HeaderOverflow?
    decreases |rs|
  {
    hide Run, PushAll, Encode, Events, Fits, Persists, Switches, Carried;
    var reply := c.p.reply;
    if |rs| == 0 {
      RunEmpty(c);
    } else {
      var r := rs[0];
      var rest := EncodeAll(reply, rs[1..]);
      assert FitsAlone(reply, r);
      if Fits(c.p.nread, r) {
        RunAppend(c, Encode(reply, r), rest);
        RunRequest(c, r);
        FitsMessage(c.p.nread, r);
        CarriedIsCounted(RequestRole(r.verb, reply), r.message);
        ToldApartExactly(Run(c, Encode(reply, r)), rs[1..]);
      } else {
        RequestRefused(c, r, rest);
      }
    }
  }

  lemma FitsMessage(n: nat, r: Req)
    requires Fits(n, r)
    ensures MessageFits(r.message)
  {}

  function PostWithTrailer(value: string): Req {
    Req(POST, "/", Message(1, 1, [], Chunks("Transfer-Encoding", "chunked", [], Size("0", ""), [Header("x", value, [])]), []))
  }

  function GetWithLine(value: string): Req {
    Req(GET, "/", Message(1, 1, [Ordinary(Header("x", value, []))], NoBody, []))
  }

  lemma XLineIsPlain(value: string)
    requires IsValue(value)
    ensures IsPlain(Header("x", value, [])) && |Lines([Header("x", value, [])])| == |value| + 5
  {
    OrdinaryName();
    assert LowerName("x") == "x";
  }

  lemma NoLines()
    ensures Lines([]) == ""
  {}

  lemma SlashIsUrl(verb: Method)
    requires !verb.CONNECT?
    ensures IsUrl(verb, "/")
  {
    assert "/"[..0] == "" && UrlState(UrlStart(verb), "/") == ReqPath;
  }

  lemma PostFits(value: string)
    requires IsValue(value) && |value| <= 81000
    ensures FitsAlone(Continue, PostWithTrailer(value)) && Carried(RequestRole(POST, Continue), PostWithTrailer(value).message) == |value| + 7
  {
    hide IsPlain, IsValue, IsUrl, Lines, FramingLine, ContentFits;
    XLineIsPlain(value);
    SlashIsUrl(POST);
    NoLines();
    NoChunks([Header("x", value, [])]);
  }

  lemma NoChunks(trailer: seq<Header>)
    requires TrailerFits(trailer)
    ensures var content := Chunks("Transfer-Encoding", "chunked", [], Size("0", ""), trailer);
            ContentFits(content) && |FramingLine(content)| == 28
  {
    hide TrailerFits;
    assert LowerName("Transfer-Encoding") == "transfer-encoding";
    assert "chunked"[..7] == "chunked";
    NumeralIsSize(0);
    assert Numeral(16, 0) == "0";
  }

  lemma OneOrdinaryLine(h: Header)
    requires IsPlain(h)
    ensures LinesText([Ordinary(h)]) == Lines([h]) && LineFits(Ordinary(h)) && LinesText([]) == ""
    ensures forall flags :: LinesFlags(flags, [Ordinary(h)]) == flags && LinesFlags(flags, []) == flags
  {
    hide IsPlain, Line;
    assert [h][1..] == [] && Lines([]) == "" && [Ordinary(h)][1..] == [] && LinesText([]) == "";
    assert forall flags :: LinesFlags(flags, [Ordinary(h)][1..]) == flags;
  }

  lemma GetFits(value: string, n: nat)
    requires IsValue(value)
    ensures Fits(n, GetWithLine(value)) <==> n + |value| + 23 <= MAX_HEADER_SIZE
    ensures Stays(Continue, GetWithLine(value))
  {
    hide IsPlain, IsValue, IsUrl, Lines, LinesText, LinesFlags, LineFits;
    XLineIsPlain(value);
    OneOrdinaryLine(Header("x", value, []));
    SlashIsUrl(GET);
  }

  /** Two requests that fit alone and are not told apart: the trailer of the first leaves no room for the second. */
  lemma TrailerCrowdsOut(value: string)
    requires IsValue(value) && 40950 <= |value| <= 81000
    ensures var rs := [PostWithTrailer(value), GetWithLine(value)];
            && (forall i :: 0 <= i < 2 ==> FitsAlone(Continue, rs[i])) && !AllFit(0, Continue, rs)
            && Run(Config(Init(Request, false, Continue), [], 0, false), EncodeAll(Continue, rs)).p.errno.HeaderOverflow?
  {
    hide Run, IsValue, Fits, Stays, Carried, EncodeAll;
    var rs := [PostWithTrailer(value), GetWithLine(value)];
    PostFits(value);
    GetFits(value, 0);
    GetFits(value, |value| + 7);
    assert rs[1..] == [GetWithLine(value)];
    ToldApartExactly(Config(Init(Request, false, Continue), [], 0, false), rs);
  }

  // ---------------------------------------------------------------- responses

  function ResponseButOne(r: Resp): string {
    StatusLine(r) + (Fields(r.message) + [CR])
  }

  lemma ResponseAlmostRead(c: Config, r: Resp)
    requires Awaits(c) && HeadFits(0, r)
    ensures AlmostRead(c, ResponseButOne(r)) && |ResponseButOne(r)| == |StatusLine(r)| + |Fields(r.message)| + 1
  {
    hide Run, Push, PushAll, StatusLine, Fields, MessageFits, ParsingHeader, IsReason;
    var c0 := From(c, 0);
    RunStatusLine(c0, r);
    var d := Run(c0, StatusLine(r));
    RunLinesAndCr(d, r.message);
    RunAppend(c0, StatusLine(r), Fields(r.message) + [CR]);
  }

  lemma EncodeResponseIs(role: Role, r: Resp)
    ensures var rest := [LF] + Payload(role, r.message); |rest| > 0 && EncodeResponse(role, r) == ResponseButOne(r) + rest
  {
    hide StatusLine, Fields, Payload;
    assert CRLF == [CR] + [LF];
  }

  lemma ResponseRefused(c: Config, r: Resp, more: string)
    requires Awaits(c) && c.p.nread <= MAX_HEADER_SIZE && HeadFits(0, r) && !HeadFits(c.p.nread, r)
    ensures Run(c, EncodeResponse(ResponseRole(c.p.verb, r.code, c.p.reply), r) + more).p.errno.HeaderOverflow?
  {
    hide Run, StatusLine, Fields, MessageFits, EncodeResponse, ResponseButOne, IsReason, AlmostRead;
    var role := ResponseRole(c.p.verb, r.code, c.p.reply);
    ResponseAlmostRead(c, r);
    EncodeResponseIs(role, r);
    var rest := [LF] + Payload(role, r.message);
    TooMany(c, ResponseButOne(r), rest + more);
    assert ResponseButOne(r) + rest + more == ResponseButOne(r) + (rest + more);
  }

  predicate EndsAlone(verb: Method, reply: HeadersReply, r: Resp) {
    var role := ResponseRole(verb, r.code, reply);
    SaysItsEnd(0, role, r) && Persists(r.message) && !Switches(role, r.message)
  }

  /** The same for responses. */
  lemma {:induction false} ResponsesToldApartExactly(c: Config, rs: seq<Resp>)
    requires Awaits(c) && c.p.nread <= MAX_HEADER_SIZE && forall i :: 0 <= i < |rs| ==> EndsAlone(c.p.verb, c.p.reply, rs[i])
    ensures var s := EncodeResponses(c.p.verb, c.p.reply, rs); var fit := AllEnd(c.p.nread, c.p.verb, c.p.reply, rs);
            (Live(Run(c, s)) <==> fit) && (!fit ==> Run(c, s).p.errno.HeaderOverflow?)
    decreases |rs|
  {
    hide Run, PushAll, EncodeResponse, ResponseEvents, HeadFits, Persists, Switches, Carried, Delimited;
    if |rs| == 0 {
      RunEmpty(c);
    } else {
      var r := rs[0];
      var role := ResponseRole(c.p.verb, r.code, c.p.reply);
      var rest := EncodeResponses(c.p.verb, c.p.reply, rs[1..]);
      assert EndsAlone(c.p.verb, c.p.reply, r);
      if HeadFits(c.p.nread, r) {
        RunAppend(c, EncodeResponse(role, r), rest);
        RunResponse(c, r);
        HeadFitsMessage(c.p.nread, r);
        CarriedIsCounted(role, r.message);
        ResponsesToldApartExactly(Run(c, EncodeResponse(role, r)), rs[1..]);
      } else {
        ResponseRefused(c, r, rest);
      }
    }
  }

  lemma HeadFitsMessage(n: nat, r: Resp)
    requires HeadFits(n, r)
    ensures MessageFits(r.message)
  {}
}
