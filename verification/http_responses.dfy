/** Whole responses: an encoder, and the theorem that the parser inverts it, for any number of responses
    on one connection, the last of which may extend to the end of the connection. */
module HttpResponses {
  import opened HttpSyntax
  import opened Numerals
  import opened HttpMachine
  import opened HttpLog
  import opened HttpBulk
  import opened HttpMessages
  import opened HttpFields
  import opened HttpChunks
  import opened HttpFraming

  datatype Resp = Resp(code: nat, reason: string, message: Message)

  // ---------------------------------------------------------------- the version

  lemma FirstByteStep(c: Config)
    requires Live(c) && c.p.state.StartRes? && c.p.nread < MAX_HEADER_SIZE
    ensures Step(c, 'H') == Config(ResetMessage(c.p).(state := ResH, nread := c.p.nread + 1),
                                   Push(c.log, MessageBegin), c.used + 1, false)
  {
    var q := c.p.(nread := c.p.nread + 1);
    assert Dispatch(q, 'H') == DispatchStart(q, 'H');
    hide Dispatch;
    StepOnePass(c, ResetMessage(c.p).(state := ResH, nread := c.p.nread + 1), 'H', MessageBegin);
  }

  lemma ResetKeeps(p: Parser)
    ensures ResetMessage(p).nread == p.nread && ResetMessage(p).errno == p.errno
  {}

  lemma RunResponseWord(c: Config)
    requires Live(c) && c.p.state.StartRes? && c.p.nread + 5 <= MAX_HEADER_SIZE
    ensures Run(c, "HTTP/") == Config(ResetMessage(c.p).(state := ResHttpMajor, nread := c.p.nread + 5),
                                      Push(c.log, MessageBegin), c.used + 5, false)
  {
    hide Step, Run, Push, ResetMessage, PhaseOf, ParsingHeader;
    ResetKeeps(c.p);
    FirstByteStep(c);
    var c1 := Step(c, 'H');
    FixedStep(c1, 'T');
    var c2 := Step(c1, 'T');
    FixedStep(c2, 'T');
    var c3 := Step(c2, 'T');
    FixedStep(c3, 'P');
    FixedStep(Step(c3, 'P'), '/');
    RunFive(c, "HTTP/");
  }

  lemma MajorStep(c: Config, ch: char)
    requires Live(c) && c.p.nread < MAX_HEADER_SIZE && IsNum(ch) && c.p.state.ResHttpMajor?
    ensures Step(c, ch) == Config(c.p.(state := ResHttpDot, httpMajor := DigitValue(ch), nread := c.p.nread + 1), c.log, c.used + 1, false)
  {
    hide Step, DigitValue;
    VersionStep(c, ch, c.p.(state := ResHttpDot, httpMajor := DigitValue(ch), nread := c.p.nread + 1));
  }

  lemma MinorStep(c: Config, ch: char)
    requires Live(c) && c.p.nread < MAX_HEADER_SIZE && IsNum(ch) && c.p.state.ResHttpMinor?
    ensures Step(c, ch) == Config(c.p.(state := ResHttpEnd, httpMinor := DigitValue(ch), nread := c.p.nread + 1), c.log, c.used + 1, false)
  {
    hide Step, DigitValue;
    VersionStep(c, ch, c.p.(state := ResHttpEnd, httpMinor := DigitValue(ch), nread := c.p.nread + 1));
  }

  lemma RunFour(c: Config, s: string)
    requires |s| == 4
    ensures Run(c, s) == Step(Step(Step(Step(c, s[0]), s[1]), s[2]), s[3])
  {
    hide Step, Run;
    var d := Step(Step(c, s[0]), s[1]);
    assert s == [s[0], s[1]] + [s[2], s[3]];
    RunAppend(c, [s[0], s[1]], [s[2], s[3]]);
    RunTwo(c, s[0], s[1]);
    RunTwo(d, s[2], s[3]);
  }

  lemma RunResponseVersion(c: Config, major: Digit, minor: Digit)
    requires Live(c) && c.p.state.ResHttpMajor? && c.p.nread + 4 <= MAX_HEADER_SIZE
    ensures Run(c, VersionDigits(major, minor) + " ") ==
            Config(c.p.(state := ResFirstStatusCode, httpMajor := major, httpMinor := minor, nread := c.p.nread + 4),
                c.log, c.used + 4, false)
  {
    hide Step, Run, DigitValue;
    var a, b := DigitChar(major), DigitChar(minor);
    MajorStep(c, a);
    var c1 := Step(c, a);
    FixedStep(c1, '.');
    var c2 := Step(c1, '.');
    MinorStep(c2, b);
    FixedStep(Step(c2, b), ' ');
    RunFour(c, VersionDigits(major, minor) + " ");
  }

  // ---------------------------------------------------------------- the status

  lemma StatusStep(c: Config, ch: char, p: Parser)
    requires Live(c) && c.p.nread < MAX_HEADER_SIZE && PhaseOf(c.p.state).InStatus? && p.errno.Ok?
    requires DispatchStatus(c.p.(nread := c.p.nread + 1), ch) == Micro(p, [], Break)
    ensures Step(c, ch) == Config(p, c.log, c.used + 1, false)
  {
    hide DispatchStatus;
    var q := c.p.(nread := c.p.nread + 1);
    assert Dispatch(q, ch) == DispatchStatus(q, ch);
    QuietByte(c, ch, p);
  }

  lemma FirstCodeDigit(c: Config, ch: char)
    requires Live(c) && c.p.state.ResFirstStatusCode? && c.p.nread < MAX_HEADER_SIZE && IsNum(ch)
    ensures Step(c, ch) == Config(c.p.(state := ResStatusCode, statusCode := DigitValue(ch), nread := c.p.nread + 1),
                                  c.log, c.used + 1, false)
  {
    StatusStep(c, ch, c.p.(state := ResStatusCode, statusCode := DigitValue(ch), nread := c.p.nread + 1));
  }

  lemma NextCodeDigit(c: Config, ch: char)
    requires Live(c) && c.p.state.ResStatusCode? && c.p.nread < MAX_HEADER_SIZE && IsNum(ch)
    requires c.p.statusCode * 10 + DigitValue(ch) <= 999
    ensures Step(c, ch) == Config(c.p.(statusCode := c.p.statusCode * 10 + DigitValue(ch), nread := c.p.nread + 1),
                                  c.log, c.used + 1, false)
  {
    StatusStep(c, ch, c.p.(statusCode := c.p.statusCode * 10 + DigitValue(ch), nread := c.p.nread + 1));
  }

  /** A status code that was written is read back. */
  lemma {:induction false} RunCode(c: Config, n: nat)
    requires Live(c) && c.p.state.ResFirstStatusCode? && n <= 999 && c.p.nread + |Numeral(10, n)| <= MAX_HEADER_SIZE
    ensures Run(c, Numeral(10, n)) ==
            Config(c.p.(state := ResStatusCode, statusCode := n, nread := c.p.nread + |Numeral(10, n)|),
                   c.log, c.used + |Numeral(10, n)|, false)
    decreases n
  {
    hide Step;
    var s := Numeral(10, n);
    if n < 10 {
      FirstCodeDigit(c, s[0]);
      RunOne(c, s);
      assert s[1..] == "";
    } else {
      var high := Numeral(10, n / 10);
      RunCode(c, n / 10);
      RunSnoc(c, high, DigitChar(n % 10));
      NextCodeDigit(Run(c, high), DigitChar(n % 10));
    }
  }

  lemma CodeEnd(c: Config)
    requires Live(c) && c.p.state.ResStatusCode? && c.p.nread < MAX_HEADER_SIZE
    ensures Step(c, ' ') == Config(c.p.(state := ResStatusStart, nread := c.p.nread + 1), c.log, c.used + 1, false)
  {
    StatusStep(c, ' ', c.p.(state := ResStatusStart, nread := c.p.nread + 1));
  }

  predicate IsReason(s: string) {
    forall i :: 0 <= i < |s| ==> s[i] != CR && s[i] != LF
  }

  lemma ReasonByte(c: Config, ch: char)
    requires Live(c) && (c.p.state.ResStatusStart? || c.p.state.ResStatus?) && c.p.nread < MAX_HEADER_SIZE && ch != CR && ch != LF
    ensures Step(c, ch) == Config(c.p.(state := ResStatus, nread := c.p.nread + 1,
                                       index := if c.p.state.ResStatusStart? then 0 else c.p.index),
                                  Push(c.log, Data(Status, [ch])), c.used + 1, false)
  {
    var q := c.p.(nread := c.p.nread + 1);
    assert Dispatch(q, ch) == DispatchStatus(q, ch);
    DataByte(c, ch, q.(state := ResStatus, index := if c.p.state.ResStatusStart? then 0 else c.p.index), Status);
  }

  lemma {:induction false} RunReason(c: Config, s: string)
    requires Live(c) && c.p.state.ResStatusStart? && |s| > 0 && IsReason(s) && c.p.nread + |s| <= MAX_HEADER_SIZE
    ensures Run(c, s) == Config(c.p.(state := ResStatus, index := 0, nread := c.p.nread + |s|),
                                Push(c.log, Data(Status, s)), c.used + |s|, false)
    decreases |s|
  {
    hide Step, Push;
    var n := |s| - 1;
    assert s == s[..n] + [s[n]];
    RunSnoc(c, s[..n], s[n]);
    if n == 0 {
      assert s[..0] == "" && s == [s[0]];
      ReasonByte(c, s[0]);
    } else {
      RunReason(c, s[..n]);
      ReasonByte(Run(c, s[..n]), s[n]);
      PushJoins(c.log, Status, s[..n], [s[n]]);
    }
  }

  lemma ReasonEnd(c: Config)
    requires Live(c) && c.p.state.ResStatus? && c.p.nread < MAX_HEADER_SIZE
    ensures Step(c, CR) == Config(c.p.(state := ResLineAlmostDone, nread := c.p.nread + 1), c.log, c.used + 1, false)
  {
    StatusStep(c, CR, c.p.(state := ResLineAlmostDone, nread := c.p.nread + 1));
  }

  lemma NoReasonPasses(p: Parser)
    requires p.state.ResStatusStart? && p.errno.Ok?
    ensures Exec(p, CR) == Micro(p.(state := ResLineAlmostDone, index := 0), [Data(Status, "")], Break)
  {
    hide Dispatch;
    var m := p.(state := ResStatus, index := 0);
    NoReasonPass(p);
    ReasonEndPass(m);
    ExecAgain(p, CR);
    ExecDone(m, CR);
    assert [Data(Status, "")] + [] == [Data(Status, "")];
  }

  lemma NoReasonPass(p: Parser)
    requires p.state.ResStatusStart?
    ensures Dispatch(p, CR) == Micro(p.(state := ResStatus, index := 0), [Data(Status, "")], Again)
  {
    assert Dispatch(p, CR) == DispatchStatus(p, CR);
  }

  lemma ReasonEndPass(p: Parser)
    requires p.state.ResStatus?
    ensures Dispatch(p, CR) == Micro(p.(state := ResLineAlmostDone), [], Break)
  {
    assert Dispatch(p, CR) == DispatchStatus(p, CR);
  }

  /** An empty reason is reported too: the line end is looked at twice. */
  lemma NoReason(c: Config)
    requires Live(c) && c.p.state.ResStatusStart? && c.p.nread < MAX_HEADER_SIZE
    ensures Step(c, CR) == Config(c.p.(state := ResLineAlmostDone, index := 0, nread := c.p.nread + 1),
                                  Push(c.log, Data(Status, "")), c.used + 1, false)
  {
    hide Exec, Step, Push;
    NoReasonPasses(c.p.(nread := c.p.nread + 1));
    StepExec(c, CR);
    PushOne(c.log, Data(Status, ""));
  }

  lemma RunReasonLine(c: Config, s: string)
    requires Live(c) && c.p.state.ResStatusStart? && IsReason(s) && c.p.nread + |s| + 2 <= MAX_HEADER_SIZE
    ensures Run(c, s + CRLF) == Config(c.p.(state := HeaderFieldStart, index := 0, nread := c.p.nread + |s| + 2),
                                       Push(c.log, Data(Status, s)), c.used + |s| + 2, false)
  {
    hide Step, Run, Push;
    RunAppend(c, s, CRLF);
    if |s| == 0 {
      RunEmpty(c);
      NoReason(c);
    } else {
      RunReason(c, s);
      ReasonEnd(Run(c, s));
    }
    var d := Run(c, s);
    FixedStep(Step(d, CR), LF);
    assert CRLF == [CR, LF];
    RunTwo(d, CR, LF);
  }

  // ---------------------------------------------------------------- the status line

  /** A parser between two responses. */
  predicate Awaits(c: Config) {
    Live(c) && c.p.state.StartRes? && c.p.kind.Response? && !c.p.verb.CONNECT?
  }

  function StatusLine(r: Resp): string {
    ("HTTP/" + (VersionDigits(r.message.major, r.message.minor) + " ")) + ((Numeral(10, r.code) + " ") + (r.reason + CRLF))
  }

  function StatusEvents(r: Resp): seq<Event> {
    [MessageBegin, Data(Status, r.reason)]
  }

  /** Any version, any code of up to three digits, any reason, and any message. `n` bytes already count towards the
      limit. */
  predicate HeadFits(n: nat, r: Resp) {
    && r.code <= 999 && IsReason(r.reason) && MessageFits(r.message)
    && n + |StatusLine(r)| + |Fields(r.message)| + 2 <= MAX_HEADER_SIZE
  }

  lemma RunCodeAndReason(c: Config, r: Resp)
    requires Live(c) && c.p.state.ResFirstStatusCode? && r.code <= 999 && IsReason(r.reason)
    requires c.p.nread + |Numeral(10, r.code)| + |r.reason| + 3 <= MAX_HEADER_SIZE
    ensures var s := (Numeral(10, r.code) + " ") + (r.reason + CRLF);
            Run(c, s) == Config(c.p.(state := HeaderFieldStart, statusCode := r.code, index := 0, nread := c.p.nread + |s|),
                                Push(c.log, Data(Status, r.reason)), c.used + |s|, false)
  {
    hide Step, Run, Push, Numeral;
    RunAppend(c, Numeral(10, r.code) + " ", r.reason + CRLF);
    RunSnoc(c, Numeral(10, r.code), ' ');
    RunCode(c, r.code);
    CodeEnd(Run(c, Numeral(10, r.code)));
    RunReasonLine(Run(c, Numeral(10, r.code) + " "), r.reason);
  }

  lemma RunStatusLine(c: Config, r: Resp)
    requires Awaits(c) && HeadFits(c.p.nread, r)
    ensures var d := Run(c, StatusLine(r));
            && Moved(c, d, |StatusLine(r)|, StatusEvents(r)) && FirstLineRead(d, |Fields(r.message)| + 2)
            && d.p.nread == c.p.nread + |StatusLine(r)| && d.p.statusCode == r.code && d.p.verb == c.p.verb
            && d.p.httpMajor == r.message.major && d.p.httpMinor == r.message.minor
  {
    hide Run, Push, Numeral, Fields, MessageFits;
    var digits := VersionDigits(r.message.major, r.message.minor) + " ";
    var version := "HTTP/" + digits;
    var status := (Numeral(10, r.code) + " ") + (r.reason + CRLF);
    RunAppend(c, version, status);
    RunAppend(c, "HTTP/", digits);
    RunResponseWord(c);
    RunResponseVersion(Run(c, "HTTP/"), r.message.major, r.message.minor);
    var d := Run(c, version);
    RunCodeAndReason(d, r);
    assert StatusEvents(r) == [MessageBegin] + [Data(Status, r.reason)];
    PushAllAppend(c.log, [MessageBegin], [Data(Status, r.reason)]);
    PushOne(c.log, MessageBegin);
    PushOne(d.log, Data(Status, r.reason));
  }

  // ---------------------------------------------------------------- responses that end by themselves

  function ResponseRole(verb: Method, code: nat, reply: HeadersReply): Role {
    Role(Response, verb, code, reply)
  }

  /** The head says where the response ends. */
  predicate SaysItsEnd(n: nat, role: Role, r: Resp) {
    HeadFits(n, r) && Delimited(role, r.message) && role.code == r.code && role.kind.Response? && !role.verb.CONNECT?
  }

  function EncodeResponse(role: Role, r: Resp): string {
    StatusLine(r) + AfterFirstLine(role, r.message)
  }

  function ResponseEvents(role: Role, r: Resp): seq<Event> {
    StatusEvents(r) + EventsAfterFirst(role, r.message)
  }

  /** One response: its events, each once and in order, and then the parser awaits the next one, or refuses what
      follows, or has left the connection to another protocol, as the response says. */
  lemma RunResponse(c: Config, r: Resp)
    requires Awaits(c) && SaysItsEnd(c.p.nread, ResponseRole(c.p.verb, r.code, c.p.reply), r)
    ensures var role := ResponseRole(c.p.verb, r.code, c.p.reply); var d := Run(c, EncodeResponse(role, r));
            && d.p.errno.Ok? && d.used == c.used + |EncodeResponse(role, r)| && d.log == PushAll(c.log, ResponseEvents(role, r))
            && d.p.state == (if Persists(r.message) then StartRes else Dead) && d.exited == Switches(role, r.message)
            && d.p.kind.Response? && d.p.verb == c.p.verb && d.p.lenient == c.p.lenient && d.p.reply == c.p.reply
            && d.p.nread == Carried(role, r.message)
  {
    hide Run, PushAll, StatusLine, StatusEvents, Fields, AfterFirstLine, EventsAfterFirst, Switches, Persists, Carried,
        Delimited, MessageFits;
    var role := ResponseRole(c.p.verb, r.code, c.p.reply);
    RunStatusLine(c, r);
    var d := Run(c, StatusLine(r));
    var rest := AfterFirstLine(role, r.message);
    RunAppend(c, StatusLine(r), rest);
    RunAfterFirstLine(d, r.message);
    PushAllAppend(c.log, StatusEvents(r), EventsAfterFirst(role, r.message));
  }

  function EncodeResponses(verb: Method, reply: HeadersReply, rs: seq<Resp>): string {
    if |rs| == 0 then ""
    else EncodeResponse(ResponseRole(verb, rs[0].code, reply), rs[0]) + EncodeResponses(verb, reply, rs[1..])
  }

  /** Every response says where it ends and lets another one follow. */
  predicate AllEnd(n: nat, verb: Method, reply: HeadersReply, rs: seq<Resp>)
    decreases |rs|
  {
    |rs| > 0 ==>
      var role := ResponseRole(verb, rs[0].code, reply);
      SaysItsEnd(n, role, rs[0]) && Persists(rs[0].message) && !Switches(role, rs[0].message) &&
      AllEnd(Carried(role, rs[0].message), verb, reply, rs[1..])
  }

  /** What still counts towards the header limit after `rs`. */
  function CarriedAfter(n: nat, verb: Method, reply: HeadersReply, rs: seq<Resp>): nat {
    if |rs| == 0 then n else var r := rs[|rs| - 1]; Carried(ResponseRole(verb, r.code, reply), r.message)
  }

  function ResponsesEvents(verb: Method, reply: HeadersReply, rs: seq<Resp>): seq<Event> {
    if |rs| == 0 then []
    else ResponseEvents(ResponseRole(verb, rs[0].code, reply), rs[0]) + ResponsesEvents(verb, reply, rs[1..])
  }

  /** Any number of responses on one connection are told apart. */
  lemma {:induction false} RunResponses(c: Config, rs: seq<Resp>)
    requires Awaits(c) && AllEnd(c.p.nread, c.p.verb, c.p.reply, rs)
    ensures var verb, reply := c.p.verb, c.p.reply; var d := Run(c, EncodeResponses(verb, reply, rs));
            && Awaits(d) && Moved(c, d, |EncodeResponses(verb, reply, rs)|, ResponsesEvents(verb, reply, rs)) && d.p.verb == verb
            && d.p.nread == CarriedAfter(c.p.nread, verb, reply, rs)
    decreases |rs|
  {
    hide Run, PushAll, EncodeResponse, ResponseEvents, SaysItsEnd, Carried, Persists, Switches;
    if |rs| == 0 {
      RunEmpty(c);
      PushNone(c.log);
    } else {
      var r := rs[0];
      var role := ResponseRole(c.p.verb, r.code, c.p.reply);
      var rest := EncodeResponses(c.p.verb, c.p.reply, rs[1..]);
      RunAppend(c, EncodeResponse(role, r), rest);
      RunResponse(c, r);
      var d := Run(c, EncodeResponse(role, r));
      RunResponses(d, rs[1..]);
      MovedThen(c, d, Run(d, rest), |EncodeResponse(role, r)|, |rest|, ResponseEvents(role, r),
          ResponsesEvents(c.p.verb, c.p.reply, rs[1..]));
    }
  }

  // ---------------------------------------------------------------- the response that the end of the connection ends

  predicate EndsWithConnection(n: nat, r: Resp) {
    HeadFits(n, r) && r.message.content.NoBody? && !Bodyless(r.code)
  }

  function BodyEvents(data: string): seq<Event> {
    if |data| == 0 then [] else [Data(Body, data)]
  }

  function EncodeLast(r: Resp, data: string): string {
    StatusLine(r) + (Fields(r.message) + (CRLF + data))
  }

  function LastEvents(r: Resp, data: string): seq<Event> {
    StatusEvents(r) + (FieldEvents(r.message) + ([HeadersComplete] + BodyEvents(data)))
  }

  /** A parser that has read the lines of such a response. */
  predicate OpenHead(p: Parser, m: Message) {
    HeadRead(p, m) && p.kind.Response? && p.reply.Continue? && !p.verb.CONNECT? && m.content.NoBody? && !Bodyless(p.statusCode)
  }

  lemma OpenSwitchesNot(p: Parser, m: Message)
    requires OpenHead(p, m)
    ensures !Switches(RoleOf(p), m) && !p.flags.skipBody && !p.flags.chunked && p.contentLength == UINT64_MAX
  {
    hide LinesFlags;
    HeadFlagsAre(m);
  }

  lemma OpenHeadersDone(p: Parser, m: Message)
    requires OpenHead(p, m)
    ensures Dispatch(HeadersSeen(p, m), LF) == Micro(p.(nread := 0, upgrade := false, state := BodyIdentityEof), [], Break)
  {
    hide HeadFlags, Switches, Dispatch;
    OpenSwitchesNot(p, m);
    DoneIs(HeadersSeen(p, m));
  }

  lemma OpenHeadPasses(p: Parser, m: Message)
    requires OpenHead(p, m) && p.state.HeadersAlmostDone? && p.errno.Ok?
    ensures Exec(p, LF) == Micro(p.(nread := 0, upgrade := false, state := BodyIdentityEof), [HeadersComplete], Break)
  {
    hide Dispatch, Switches, HeadFlags;
    EndOfHeadersPass(p, m);
    OpenHeadersDone(p, m);
    ExecAgain(p, LF);
    ExecDone(HeadersSeen(p, m), LF);
  }

  lemma RunOpenHeadEnd(c: Config, m: Message)
    requires Live(c) && c.p.state.HeaderFieldStart? && OpenHead(c.p, m) && c.p.nread + 2 <= MAX_HEADER_SIZE
    ensures Run(c, CRLF) == Config(c.p.(nread := 0, upgrade := false, state := BodyIdentityEof),
                                   PushAll(c.log, [HeadersComplete]), c.used + 2, false)
  {
    hide PushAll, Exec, Run, HeadFlags, FramingLength, ContentFits;
    var p := BeforeBlankLineEnd(c.p);
    OpenHeadPasses(p, m);
    RunBlankLine(c, Exec(p, LF));
  }

  lemma OpenBodyByte(c: Config, ch: char)
    requires Live(c) && c.p.state.BodyIdentityEof?
    ensures Step(c, ch) == Config(c.p, Push(c.log, Data(Body, [ch])), c.used + 1, false)
  {
    assert Dispatch(c.p, ch) == DispatchRest(c.p, ch);
    hide Dispatch;
    StepOnePass(c, c.p, ch, Data(Body, [ch]));
  }

  lemma {:induction false} RunOpenBody(c: Config, s: string)
    requires Live(c) && c.p.state.BodyIdentityEof?
    ensures Run(c, s) == Config(c.p, PushAll(c.log, BodyEvents(s)), c.used + |s|, false)
    decreases |s|
  {
    hide Step, Push;
    if |s| > 0 {
      var n := |s| - 1;
      assert s == s[..n] + [s[n]];
      RunSnoc(c, s[..n], s[n]);
      RunOpenBody(c, s[..n]);
      OpenBodyByte(Run(c, s[..n]), s[n]);
      JoinLast(c.log, s[..n], s[n]);
      PushOne(c.log, Data(Body, s));
      if n > 0 {
        PushOne(c.log, Data(Body, s[..n]));
      }
    }
  }

  /** A response without framing goes on for as long as the connection: all further bytes are its body,
      and only the end of the connection completes it. */
  lemma RunLast(c: Config, r: Resp, data: string)
    requires Awaits(c) && c.p.reply.Continue? && EndsWithConnection(c.p.nread, r)
    ensures var d := Run(c, EncodeLast(r, data));
            && Moved(c, d, |EncodeLast(r, data)|, LastEvents(r, data)) && d.p.state.BodyIdentityEof?
            && Eof(d) == d.(log := Push(d.log, MessageComplete))
  {
    hide Run, PushAll, StatusLine, StatusEvents, FinishHeader, Fields, FieldEvents, BodyEvents, HeadFlags, FramingLength, MessageFits;
    RunStatusLine(c, r);
    var d := Run(c, StatusLine(r));
    RunAppend(c, StatusLine(r), Fields(r.message) + (CRLF + data));
    FitsContent(r.message);
    RunFields(d, r.message);
    var e := Run(d, Fields(r.message));
    RunAppend(d, Fields(r.message), CRLF + data);
    SettleRun(e, CRLF + data);
    var e' := Settle(e);
    RunAppend(e', CRLF, data);
    RunOpenHeadEnd(e', r.message);
    var f := Run(e', CRLF);
    RunOpenBody(f, data);
    var g := Run(f, data);
    MovedThen(e', f, g, 2, |data|, [HeadersComplete], BodyEvents(data));
    MovedThen(d, e', g, |Fields(r.message)|, 2 + |data|, FieldEvents(r.message), [HeadersComplete] + BodyEvents(data));
    MovedThen(c, d, g, |StatusLine(r)|, |Fields(r.message)| + 2 + |data|, StatusEvents(r),
              FieldEvents(r.message) + ([HeadersComplete] + BodyEvents(data)));
  }

  lemma FitsContent(m: Message)
    requires MessageFits(m)
    ensures ContentFits(m.content)
  {}
}
