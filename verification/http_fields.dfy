/** Header lines that do not steer the parser. */
module HttpFields {
  import opened HttpSyntax
  import opened HttpMachine
  import opened HttpLog
  import opened HttpBulk
  import opened HttpWords
  import opened HttpMessages

  /** A header line, and the lines that continue its value. */
  datatype Header = Header(name: string, value: string, folds: seq<string>)

  predicate IsSpecialName(name: string)
    requires AllTokens(name)
  {
    var w := LowerName(name);
    w == "connection" || w == "proxy-connection" || w == "content-length" || w == "transfer-encoding" || w == "upgrade"
  }

  /** A line that continues a value begins with a space or a tab. */
  predicate IsFold(s: string) {
    |s| > 0 && (s[0] == ' ' || s[0] == '\t') && ValueChars(s)
  }

  predicate IsPlain(h: Header) {
    IsName(h.name) && IsValue(h.value) && !IsSpecialName(h.name) && forall f <- h.folds :: IsFold(f)
  }

  function FoldLines(folds: seq<string>): string {
    if |folds| == 0 then "" else (folds[0] + CRLF) + FoldLines(folds[1..])
  }

  /** The value as it is reported: what continues it is joined to it, without the line ends. */
  function Unfolded(value: string, folds: seq<string>): string
    decreases |folds|
  {
    if |folds| == 0 then value else Unfolded(value + folds[0], folds[1..])
  }

  function Line(h: Header): string {
    HeaderLine(h.name, h.value) + FoldLines(h.folds)
  }

  function Lines(hs: seq<Header>): string {
    if |hs| == 0 then "" else Line(hs[0]) + Lines(hs[1..])
  }

  function LineEvents(hs: seq<Header>): seq<Event> {
    if |hs| == 0 then []
    else [Data(HeaderFieldData, hs[0].name), Data(HeaderValueData, Unfolded(hs[0].value, hs[0].folds))] + LineEvents(hs[1..])
  }

  // ---------------------------------------------------------------- the header block

  /** A parser at the beginning of a header line. */
  predicate AtLine(c: Config) {
    Live(c) && (c.p.state.HeaderFieldStart? || c.p.state.HeaderValueLws?)
  }

  /** The parser once it knows that the last line is not continued. */
  function Settle(c: Config): Config {
    if c.p.state.HeaderValueLws?
    then c.(p := c.p.(flags := FinishHeader(c.p.headerState, c.p.flags), state := HeaderFieldStart))
    else c
  }

  lemma LwsPass(p: Parser, ch: char)
    requires p.state.HeaderValueLws? && ch != ' ' && ch != '\t'
    ensures Dispatch(p, ch) == Micro(p.(flags := FinishHeader(p.headerState, p.flags), state := HeaderFieldStart), [], Again)
  {
    hide FinishHeader;
  }

  lemma SettleStep(c: Config, ch: char)
    requires AtLine(c) && ch != ' ' && ch != '\t' && c.p.nread < MAX_HEADER_SIZE
    ensures Step(c, ch) == Step(Settle(c), ch)
  {
    hide FinishHeader, Dispatch, Exec, Step;
    if c.p.state.HeaderValueLws? {
      var p := Count(c.p);
      LwsPass(p, ch);
      ExecAgain(p, ch);
      StepExec(c, ch);
      StepExec(Settle(c), ch);
      var rest := Exec(Dispatch(p, ch).p, ch);
      assert [] + rest.events == rest.events;
    }
  }

  lemma SettleRun(c: Config, s: string)
    requires AtLine(c) && |s| > 0 && s[0] != ' ' && s[0] != '\t' && c.p.nread < MAX_HEADER_SIZE
    ensures Run(c, s) == Run(Settle(c), s)
  {
    hide Step, Run;
    SettleStep(c, s[0]);
    RunOne(c, s);
    RunOne(Settle(c), s);
  }

  /** A line starts with a token character. */
  lemma LineStart(name: string, value: string)
    requires IsName(name)
    ensures var s := HeaderLine(name, value);
            |s| == |name| + |value| + 4 && s[0] == name[0] && s[0] != ' ' && s[0] != '\t'
  {}

  lemma LineBegins(h: Header)
    requires IsPlain(h)
    ensures |Line(h)| > 0 && Line(h)[0] != ' ' && Line(h)[0] != '\t'
  {
    hide IsPlain, FoldLines;
    PlainName(h);
    LineStart(h.name, h.value);
  }

  lemma PlainName(h: Header)
    requires IsPlain(h)
    ensures IsName(h.name)
  {}

  lemma PlainIsGeneral(p: Parser, h: Header)
    requires IsPlain(h)
    ensures AfterFirst(p, h.name, h.value[0]) == Value(General, 0, p.flags, p.contentLength, Ok)
  {}

  lemma {:induction false} ScansGeneral(v: Value, s: string)
    requires v.h.General? && v.errno.Ok?
    ensures Scans(v, s, v)
    decreases |s|
  {
    if |s| > 0 {
      ScansGeneral(v, s[1..]);
    }
  }

  /** What header lines without framing information leave as it was. */
  predicate HeadFrame(c: Config, d: Config, n: nat, es: seq<Event>) {
    && AtLine(d) && Moved(c, d, n, es) && d.p.nread == c.p.nread + n
    && SameMessage(c.p, d.p)
  }

  lemma FoldPasses(p: Parser, ch: char)
    requires p.state.HeaderValueLws? && p.headerState.General? && p.errno.Ok? && (ch == ' ' || ch == '\t')
    ensures Exec(p, ch) == Micro(p.(state := HeaderValue, index := 0), [Data(HeaderValueData, [ch])], Break)
  {
    var q := p.(state := HeaderValueStart);
    FoldFirstPass(p, ch);
    FoldSecondPass(q, ch);
    hide Dispatch, Exec;
    ExecAgain(p, ch);
    ExecDone(q, ch);
    assert [] + [Data(HeaderValueData, [ch])] == [Data(HeaderValueData, [ch])];
  }

  lemma ExecDone(p: Parser, ch: char)
    requires p.errno.Ok? && !Dispatch(p, ch).next.Again?
    ensures Exec(p, ch) == Dispatch(p, ch)
  {
    hide Dispatch;
  }

  lemma FoldFirstPass(p: Parser, ch: char)
    requires p.state.HeaderValueLws? && p.headerState.General? && (ch == ' ' || ch == '\t')
    ensures Dispatch(p, ch) == Micro(p.(state := HeaderValueStart), [], Again)
  {
    assert Dispatch(p, ch) == DispatchEndOfValue(p, ch);
  }

  lemma FoldSecondPass(p: Parser, ch: char)
    requires p.state.HeaderValueStart? && p.headerState.General? && p.errno.Ok?
    ensures Dispatch(p, ch) == Micro(p.(state := HeaderValue, index := 0), [Data(HeaderValueData, [ch])], Break)
  {
    assert Dispatch(p, ch) == DispatchHeaderValue(p, ch);
  }

  lemma FoldStart(c: Config, ch: char)
    requires Live(c) && c.p.state.HeaderValueLws? && c.p.headerState.General? && (ch == ' ' || ch == '\t') && c.p.nread < MAX_HEADER_SIZE
    ensures Step(c, ch) == Config(c.p.(state := HeaderValue, index := 0, nread := c.p.nread + 1),
                                  Push(c.log, Data(HeaderValueData, [ch])), c.used + 1, false)
  {
    hide Dispatch, Exec, Push;
    FoldPasses(Count(c.p), ch);
    StepExec(c, ch);
    PushOne(c.log, Data(HeaderValueData, [ch]));
  }

  /** One line that continues a value. */
  lemma RunFold(c: Config, f: string)
    requires Live(c) && c.p.state.HeaderValueLws? && c.p.headerState.General? && IsFold(f) && c.p.nread + |f| + 2 <= MAX_HEADER_SIZE
    ensures Run(c, f + CRLF) == Config(c.p.(index := 0, nread := c.p.nread + |f| + 2),
                                       Push(c.log, Data(HeaderValueData, f)), c.used + |f| + 2, false)
  {
    hide Run, Step, Push, Scans;
    FoldStart(c, f[0]);
    var d := Step(c, f[0]);
    RunOne(c, f);
    ScansGeneral(ValueOf(d.p), f[1..]);
    RunValue(d, f[1..], ValueOf(d.p));
    assert f == [f[0]] + f[1..];
    if |f| == 1 {
      assert f == [f[0]];
    } else {
      PushJoins(c.log, HeaderValueData, [f[0]], f[1..]);
    }
    var e := Run(c, f);
    RunAppend(c, f, CRLF);
    RunLineEnd(e);
  }

  lemma {:induction false} RunFolds(c: Config, log: seq<Event>, value: string, folds: seq<string>)
    requires Live(c) && c.p.state.HeaderValueLws? && c.p.headerState.General? && (forall f <- folds :: IsFold(f))
    requires c.log == Push(log, Data(HeaderValueData, value)) && c.p.nread + |FoldLines(folds)| <= MAX_HEADER_SIZE
    ensures var d := Run(c, FoldLines(folds));
            d == Config(c.p.(index := d.p.index, nread := c.p.nread + |FoldLines(folds)|),
                        Push(log, Data(HeaderValueData, Unfolded(value, folds))), c.used + |FoldLines(folds)|, false)
    decreases |folds|
  {
    hide Run, Push, IsFold;
    if |folds| == 0 {
      RunEmpty(c);
    } else {
      var f := folds[0];
      assert IsFold(f);
      RunFold(c, f);
      PushJoins(log, HeaderValueData, value, f);
      RunAppend(c, f + CRLF, FoldLines(folds[1..]));
      RunFolds(Run(c, f + CRLF), log, value + f, folds[1..]);
    }
  }

  lemma RunPlainLine(c: Config, h: Header)
    requires Live(c) && c.p.state.HeaderFieldStart? && IsPlain(h) && c.p.nread + |Line(h)| <= MAX_HEADER_SIZE
    ensures var d := Run(c, Line(h));
            HeadFrame(c, d, |Line(h)|, LineEvents([h])) && SameFraming(c.p, Settle(d).p)
  {
    hide Run, Scans, Push, PushAll, IsFold;
    var r := Value(General, 0, c.p.flags, c.p.contentLength, Ok);
    PlainIsGeneral(c.p, h);
    ScansGeneral(r, h.value[1..]);
    RunHeaderLine(c, h.name, h.value, r);
    RunAppend(c, HeaderLine(h.name, h.value), FoldLines(h.folds));
    var name, value := Data(HeaderFieldData, h.name), Data(HeaderValueData, h.value);
    TwoPushes(c.log, name, value);
    RunFolds(Run(c, HeaderLine(h.name, h.value)), Push(c.log, name), h.value, h.folds);
    TwoPushes(c.log, name, Data(HeaderValueData, Unfolded(h.value, h.folds)));
    assert LineEvents([h]) == [name, Data(HeaderValueData, Unfolded(h.value, h.folds))];
  }

  lemma TwoPushes(log: seq<Event>, a: Event, b: Event)
    ensures PushAll(log, [a, b]) == Push(Push(log, a), b)
  {
    hide Push;
    assert [a, b] == [a] + [b];
    PushAllAppend(log, [a], [b]);
    PushOne(log, a);
    PushOne(Push(log, a), b);
  }

  lemma {:induction false} RunLines(c: Config, hs: seq<Header>)
    requires AtLine(c) && (forall h <- hs :: IsPlain(h)) && c.p.nread + |Lines(hs)| <= MAX_HEADER_SIZE
    ensures var d := Run(c, Lines(hs));
            HeadFrame(c, d, |Lines(hs)|, LineEvents(hs)) && SameFraming(Settle(c).p, Settle(d).p)
    decreases |hs|
  {
    hide Run, PushAll, FinishHeader;
    if |hs| == 0 {
      RunEmpty(c);
      PushNone(c.log);
    } else {
      var h := hs[0];
      assert IsPlain(h);
      LineBegins(h);
      SettleRun(c, Line(h));
      RunPlainLine(Settle(c), h);
      var d := Run(c, Line(h));
      RunAppend(c, Line(h), Lines(hs[1..]));
      RunLines(d, hs[1..]);
      PushAllAppend(c.log, LineEvents([h]), LineEvents(hs[1..]));
      assert LineEvents([h]) + LineEvents(hs[1..]) == LineEvents(hs);
    }
  }

  // ---------------------------------------------------------------- empty values

  function EmptyLine(name: string): string {
    (name + ": ") + CRLF
  }

  lemma NoValuePass(p: Parser)
    requires p.state.HeaderValueDiscardWs?
    ensures Dispatch(p, CR) == Micro(p.(state := HeaderValueDiscardWsAlmostDone), [], Break)
  {
    assert Dispatch(p, CR) == DispatchHeaderValue(p, CR);
  }

  lemma EmptyValueEnds(c: Config)
    requires Live(c) && c.p.state.HeaderValueDiscardWs? && c.p.nread + 2 <= MAX_HEADER_SIZE
    ensures Run(c, CRLF) == Config(c.p.(state := HeaderValueDiscardLws, nread := c.p.nread + 2), c.log, c.used + 2, false)
  {
    hide Run, Step, Dispatch;
    var q := c.p.(nread := c.p.nread + 1);
    NoValuePass(q);
    QuietByte(c, CR, q.(state := HeaderValueDiscardWsAlmostDone));
    FixedStep(Step(c, CR), LF);
    assert CRLF == [CR, LF];
    RunTwo(c, CR, LF);
  }

  lemma EmptyPass(p: Parser, ch: char)
    requires p.state.HeaderValueDiscardLws? && ch != ' ' && ch != '\t'
    ensures Dispatch(p, ch) == if p.headerState.ContentLength? then Fail(p, InvalidContentLength)
                               else Micro(p.(flags := FinishHeader(p.headerState, p.flags), state := HeaderFieldStart),
                                          [Data(HeaderValueData, "")], Again)
  {
    assert Dispatch(p, ch) == DispatchEndOfValue(p, ch);
  }

  /** The first character of the next line, after an empty value. */
  lemma EmptyStep(c: Config, ch: char)
    requires Live(c) && c.p.state.HeaderValueDiscardLws? && ch != ' ' && ch != '\t' && c.p.nread < MAX_HEADER_SIZE
    ensures if c.p.headerState.ContentLength? then Step(c, ch).p.errno.InvalidContentLength?
            else Step(c, ch) == Step(Config(c.p.(flags := FinishHeader(c.p.headerState, c.p.flags), state := HeaderFieldStart),
                                            Push(c.log, Data(HeaderValueData, "")), c.used, false), ch)
  {
    hide FinishHeader, Dispatch, Exec, Step, Push;
    var p := Count(c.p);
    EmptyPass(p, ch);
    StepExec(c, ch);
    if c.p.headerState.ContentLength? {
      ExecDone(p, ch);
    } else {
      var d := Config(c.p.(flags := FinishHeader(c.p.headerState, c.p.flags), state := HeaderFieldStart),
                      Push(c.log, Data(HeaderValueData, "")), c.used, false);
      ExecAgain(p, ch);
      StepExec(d, ch);
      var rest := Exec(Dispatch(p, ch).p, ch);
      PushAllAppend(c.log, [Data(HeaderValueData, "")], rest.events);
      PushOne(c.log, Data(HeaderValueData, ""));
    }
  }

  lemma NameSetsNoFlag(name: string, flags: Flags)
    requires AllTokens(name)
    ensures FinishHeader(NameState(LowerName(name)), flags) == flags
    ensures NameState(LowerName(name)).ContentLength? <==> LowerName(name) == "content-length"
  {}

  /** A line with an empty value is reported with it and says nothing, be its name special or not, and what follows is
      read as if it were the next line; but an empty length is refused. */
  lemma EmptyValue(c: Config, name: string, s: string)
    requires Live(c) && c.p.state.HeaderFieldStart? && IsName(name) && c.p.nread + |EmptyLine(name)| < MAX_HEADER_SIZE
    requires |s| > 0 && s[0] != ' ' && s[0] != '\t'
    ensures if LowerName(name) == "content-length" then Run(c, EmptyLine(name) + s).p.errno.InvalidContentLength?
            else exists d :: && HeadFrame(c, d, |EmptyLine(name)|, [Data(HeaderFieldData, name), Data(HeaderValueData, "")])
                             && d.p.state.HeaderFieldStart? && SameFraming(c.p, d.p) && Run(c, EmptyLine(name) + s) == Run(d, s)
  {
    hide Run, Step, Push, PushAll, NameState, FinishHeader, LowerName;
    RunNameColon(c, name);
    var d := Run(c, name + ": ");
    EmptyValueEnds(d);
    var e := Run(d, CRLF);
    RunAppend(c, name + ": ", CRLF);
    RunAppend(c, EmptyLine(name), s);
    EmptyStep(e, s[0]);
    NameSetsNoFlag(name, e.p.flags);
    RunOne(e, s);
    if LowerName(name) == "content-length" {
      RunDead(Step(e, s[0]), s[1..]);
    } else {
      var f := Config(e.p.(state := HeaderFieldStart), Push(e.log, Data(HeaderValueData, "")), e.used, false);
      RunOne(f, s);
      TwoPushes(c.log, Data(HeaderFieldData, name), Data(HeaderValueData, ""));
      assert HeadFrame(c, f, |EmptyLine(name)|, [Data(HeaderFieldData, name), Data(HeaderValueData, "")]);
    }
  }

  // ---------------------------------------------------------------- the end of a head

  /** The line that ends header lines. */
  lemma BlankLinePass(p: Parser)
    requires p.state.HeaderFieldStart?
    ensures Dispatch(p, CR) == Micro(p.(state := HeadersAlmostDone), [], Break)
  {}

  /** The parser when it has read the first half of the blank line. */
  function BeforeBlankLineEnd(p: Parser): Parser {
    p.(state := HeadersAlmostDone, nread := p.nread + 2)
  }

  lemma RunBlankLine(c: Config, m: Micro)
    requires Live(c) && c.p.state.HeaderFieldStart? && c.p.nread + 2 <= MAX_HEADER_SIZE
    requires m == Exec(BeforeBlankLineEnd(c.p), LF) && m.p.errno.Ok?
    ensures Run(c, CRLF) == Config(m.p, PushAll(c.log, m.events), c.used + 2, m.next.Exit?)
  {
    hide PushAll, Dispatch, Exec, Step;
    var p := c.p.(state := HeadersAlmostDone, nread := c.p.nread + 1);
    BlankLinePass(c.p.(nread := c.p.nread + 1));
    QuietByte(c, CR, p);
    StepExec(Config(p, c.log, c.used + 1, false), LF);
    assert CRLF == [CR, LF];
    RunTwo(c, CR, LF);
  }
}
