/** Too many header bytes: streams for which it makes a difference how they are cut into pieces, and a bound
    below which it never does. */
module HttpOverflow {
  import opened HttpSyntax
  import opened HttpMachine
  import opened HttpInvariant
  import opened HttpLog
  import opened HttpBulk
  import opened HttpParsing
  import opened HttpWords
  import opened HttpMessages
  import opened HttpFields
  import opened HttpChunks
  import opened HttpFraming

  /** A stream no longer than what may still be counted never has too many header bytes, so that its division
      makes no difference. */
  lemma {:induction false} ShortStreams(c: Config, s: string)
    requires !c.p.errno.HeaderOverflow? && c.p.nread + |s| <= MAX_HEADER_SIZE
    ensures !Run(c, s).p.errno.HeaderOverflow?
    decreases |s|
  {
    hide Exec;
    if !Live(c) {
      RunDead(c, s);
    } else if |s| > 0 {
      ExecNeverOverflows(Count(c.p), s[0]);
      ShortStreams(Step(c, s[0]), s[1..]);
    }
  }

  function Repeat(ch: char, n: nat): (s: string)
    ensures |s| == n && forall i :: 0 <= i < n ==> s[i] == ch
  {
    seq(n, _ => ch)
  }

  const GET_LINE := Req(GET, "/", Message(1, 1, [], NoBody, []))

  lemma GetLineFits()
    ensures Fits(0, GET_LINE) && |RequestLine(GET_LINE)| == 16
  {
    assert "/"[..0] == "" && UrlState(UrlStart(GET), "/") == ReqPath;
    assert Fields(GET_LINE.message) == "";
    hide Version;
  }

  /** A machine that has read a request line. */
  lemma GetLineRead()
    ensures var c := Config(Init(Request, false, Continue), [], 0, false);
            var d := Run(c, RequestLine(GET_LINE));
            Live(d) && d.p.state.HeaderFieldStart? && d.p.nread == 16 && d.used == 16 && !d.p.lenient && |RequestLine(GET_LINE)| == 16
  {
    hide Run, RequestLine, Fits, PushAll;
    var c := Config(Init(Request, false, Continue), [], 0, false);
    GetLineFits();
    RunRequestLine(c, GET_LINE);
  }

  /** A machine that has read all it may and meets one more header byte. */
  lemma OneTooMany(c: Config, d: Config, s: string, t: string)
    requires d == Run(c, s) && Live(d) && ParsingHeader(d.p.state) && d.p.nread == MAX_HEADER_SIZE && |t| > 0
    ensures Run(c, s + t) == d.(p := d.p.(nread := MAX_HEADER_SIZE + 1, errno := HeaderOverflow))
  {
    hide Run, Step;
    RunAppend(c, s, t);
    StepTooMany(d, t[0]);
    RunOne(d, t);
    RunDead(Step(d, t[0]), t[1..]);
  }

  /** The last byte that may be read was read in the same name or value as the first one too many. */
  lemma WithinOne(c: Config, d: Config, s: string, x: char, t: string)
    requires c.used == 0 && d == Run(c, s + [x]) && Live(d) && d.used == |s| + 1 && |t| > 0
    requires InLoop(d.p.state) && d.p.nread == MAX_HEADER_SIZE && Run(c, s).p.state == d.p.state
    ensures var e := Run(c, s + [x] + t); var all := s + [x] + t;
            && e.p.errno.HeaderOverflow? && e.used == |s| + 1
            && (HttpParsing.Settled(c, e, all) <==> DivisionFree(true, FateOf(d.p, t[0]), |t| == 1))
  {
    hide Run, FateOf;
    OneTooMany(c, d, s + [x], t);
    FateIgnores(d.p, MAX_HEADER_SIZE + 1, HeaderOverflow, t[0]);
    var all := s + [x] + t;
    assert all[0..|s|] == s && all[|s| + 1] == t[0];
  }

  const ALLOWED := MAX_HEADER_SIZE - 16

  /** A header name that is two characters too long: cut before the first of them the parser stops there, in one
      piece it stops after both. */
  lemma LongName()
    ensures var s := RequestLine(GET_LINE) + Repeat('x', ALLOWED - 1) + "x" + "xx";
            !DivisionIsFree(Request, false, Continue, s)
  {
    hide Run, RequestLine, NameState, FateOf;
    var c := Config(Init(Request, false, Continue), [], 0, false);
    var line := RequestLine(GET_LINE);
    var name := Repeat('x', ALLOWED - 1);
    GetLineRead();
    var d := Run(c, line);
    RunAppend(c, line, name);
    RunName(d, name);
    RunName(d, name + "x");
    RunAppend(c, line, name + "x");
    assert line + name + "x" == line + (name + "x");
    var e := Run(c, line + name + "x");
    WithinOne(c, e, line + name, 'x', "xx");
    TokenGoesOn(e.p, 'x');
  }

  lemma TokenGoesOn(p: Parser, ch: char)
    requires p.state.HeaderField? && IsToken(ch)
    ensures FateOf(p, ch).GoesOn?
  {}

  /** A value of which the last character allowed and one more are read: with a character that no value may have
      in that place, one division finds too many header bytes and another the bad character. */
  lemma BadCharacter()
    ensures var s := RequestLine(GET_LINE) + "x: " + Repeat('y', ALLOWED - 4) + "y" + "\0";
            !DivisionIsFree(Request, false, Continue, s)
  {
    hide Run, RequestLine, NameState, FateOf, Push;
    var c := Config(Init(Request, false, Continue), [], 0, false);
    var line := RequestLine(GET_LINE);
    GetLineRead();
    var d := Run(c, line);
    RunAppend(c, line, "x: ");
    OrdinaryName();
    assert "x" + ": " == "x: ";
    RunNameColon(d, "x");
    var e := Run(c, line + "x: ");
    var value := Repeat('y', ALLOWED - 4);
    RunYs(e, value);
    RunYs(e, value + "y");
    RunAppend(c, line + "x: ", value);
    RunAppend(c, line + "x: ", value + "y");
    assert line + "x: " + value + "y" == line + "x: " + (value + "y");
    var f := Run(c, line + "x: " + value + "y");
    WithinOne(c, f, line + "x: " + value, 'y', "\0");
    NulErrs(f.p);
  }

  lemma OrdinaryName()
    ensures IsName("x") && NameState(LowerName("x")) == General
  {
    var low := LowerName("x");
    assert low == "x" && low[0] == 'x';
    assert "connection"[0] == 'c' && "content-length"[0] == 'c' && "proxy-connection"[0] == 'p';
    assert "transfer-encoding"[0] == 't' && "upgrade"[0] == 'u';
  }

  lemma RunYs(c: Config, s: string)
    requires Live(c) && c.p.state.HeaderValueDiscardWs? && c.p.headerState.General?
    requires |s| > 0 && (forall i :: 0 <= i < |s| ==> s[i] == 'y') && c.p.nread + |s| <= MAX_HEADER_SIZE
    ensures var d := Run(c, s);
            Live(d) && d.p.state.HeaderValue? && d.p.nread == c.p.nread + |s| && d.used == c.used + |s| && d.p.lenient == c.p.lenient
  {
    hide Run, Push, Step;
    GeneralStart(ValueOf(c.p), 'y');
    ValueFirstStep(c, 'y');
    var d := Step(c, s[0]);
    RunOne(c, s);
    ScansGeneral(ValueOf(d.p), s[1..]);
    RunValue(d, s[1..], ValueOf(d.p));
  }

  lemma GeneralStart(v: Value, ch: char)
    requires v.h.General? && v.errno.Ok?
    ensures StartValue(v, ch).errno.Ok? && StartValue(v, ch).h.General?
  {}

  lemma NulErrs(p: Parser)
    requires p.state.HeaderValue? && !p.lenient
    ensures FateOf(p, '\0') == Errs(InvalidHeaderToken)
  {}
}
