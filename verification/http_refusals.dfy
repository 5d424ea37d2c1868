/** Which bytes each state lets through, and what the others are refused for. */
module HttpRefusals {
  import opened HttpSyntax
  import opened HttpMachine
  import opened HttpBulk

  /** The outcome of a byte: no error if it is one of those expected. */
  function Verdict(expected: bool, e: Errno): Errno {
    if expected then Ok else e
  }

  function OutcomeOf(p: Parser, ch: char): Errno {
    Dispatch(p, ch).p.errno
  }

  lemma WordBytes(p: Parser, ch: char)
    requires p.errno.Ok?
    ensures p.state.ReqHttpH? || p.state.ReqHttpHT? || p.state.ResH? || p.state.ResHT? ==> OutcomeOf(p, ch) == Verdict(ch == 'T', Strict)
    ensures p.state.ReqHttpHTT? || p.state.ResHTT? ==> OutcomeOf(p, ch) == Verdict(ch == 'P', Strict)
    ensures p.state.ReqHttpI? ==> OutcomeOf(p, ch) == Verdict(ch == 'C', Strict)
    ensures p.state.ReqHttpIC? ==> OutcomeOf(p, ch) == Verdict(ch == 'E', Strict)
    ensures p.state.ReqHttpHTTP? || p.state.ResHTTP? ==> OutcomeOf(p, ch) == Verdict(ch == '/', Strict)
    ensures p.state.ReqHttpDot? || p.state.ResHttpDot? ==> OutcomeOf(p, ch) == Verdict(ch == '.', InvalidVersion)
    ensures p.state.ResHttpEnd? ==> OutcomeOf(p, ch) == Verdict(ch == ' ', InvalidVersion)
  {
    if FixedByte(p.state).Some? {
      assert Dispatch(p, ch) == Expect(p, ch);
    }
    hide Dispatch;
  }

  /** After a CR. */
  lemma LineEndBytes(p: Parser, ch: char)
    requires p.errno.Ok?
    ensures p.state.ReqLineAlmostDone? || p.state.HeaderAlmostDone? ==> OutcomeOf(p, ch) == Verdict(ch == LF, LfExpected)
    ensures p.state.ResLineAlmostDone? || p.state.HeaderValueDiscardWsAlmostDone? ==> OutcomeOf(p, ch) == Verdict(ch == LF, Strict)
    ensures p.state.ChunkDataAlmostDone? ==> OutcomeOf(p, ch) == Verdict(ch == CR, Strict)
  {
    if FixedByte(p.state).Some? {
      assert Dispatch(p, ch) == Expect(p, ch);
    }
    hide Dispatch;
  }

  lemma VersionBytes(p: Parser, ch: char)
    requires p.errno.Ok? && PhaseOf(p.state).InVersion?
    ensures OutcomeOf(p, ch) ==
            if p.state.ReqHttpStart? then Verdict(ch == ' ' || ch == 'H' || (ch == 'I' && p.verb.SOURCE?), InvalidConstant)
            else if p.state.ReqHttpEnd? then Verdict(ch == CR || ch == LF, InvalidVersion)
            else Verdict('0' <= ch <= '9', InvalidVersion)
  {
    assert Dispatch(p, ch) == DispatchVersion(p, ch);
    hide Dispatch, PhaseOf;
  }

  /** Before a message. */
  lemma FirstBytes(p: Parser, ch: char)
    requires p.errno.Ok?
    ensures p.state.StartReq? ==>
              OutcomeOf(p, ch) ==
              Verdict(ch == CR || ch == LF || 'A' <= ch <= 'D' || ch == 'G' || ch == 'H' || 'L' <= ch <= 'P' || 'R' <= ch <= 'U', InvalidMethod)
    ensures p.state.StartRes? ==> OutcomeOf(p, ch) == Verdict(ch == CR || ch == LF || ch == 'H', InvalidConstant)
    ensures p.state.ResOrRespH? ==> OutcomeOf(p, ch) == Verdict(ch == 'T' || ch == 'E', InvalidConstant)
  {
    if PhaseOf(p.state).InStart? {
      assert Dispatch(p, ch) == DispatchStart(p, ch);
    }
    hide Dispatch, PhaseOf;
  }

  /** After a message that ends the connection. */
  lemma LastBytes(p: Parser, ch: char)
    requires p.errno.Ok? && p.state.Dead?
    ensures OutcomeOf(p, ch) == Verdict(ch == CR || ch == LF, ClosedConnection)
  {}

  /** Before a target, and in it: a space or a line end where it may end, and what the URL machine lets through. */
  lemma TargetBytes(p: Parser, ch: char)
    requires p.errno.Ok? && (p.state.ReqSpacesBeforeUrl? || InUrl(p.state))
    ensures OutcomeOf(p, ch) ==
            if ch == ' ' && p.state.ReqSpacesBeforeUrl? then Ok
            else if ch == ' ' || ch == CR || ch == LF then Verdict(InUrl(p.state) && UrlMayEnd(p.state), InvalidUrl)
            else Verdict(!ParseUrlChar(if p.state.ReqSpacesBeforeUrl? && p.verb.CONNECT? then ReqServerStart else p.state, ch).Dead?, InvalidUrl)
  {
    assert Dispatch(p, ch) == DispatchUrl(p, ch);
    hide Dispatch;
    BlankKills(p.state, ch);
    hide ParseUrlChar;
  }

  lemma BlankKills(s: State, ch: char)
    ensures ch == ' ' || ch == CR || ch == LF ==> ParseUrlChar(s, ch).Dead? && ParseUrlChar(ReqServerStart, ch).Dead?
  {}

  /** In a status line; a code has three digits at most. */
  lemma StatusBytes(p: Parser, ch: char)
    requires p.errno.Ok?
    ensures p.state.ResFirstStatusCode? ==> OutcomeOf(p, ch) == Verdict('0' <= ch <= '9' || ch == ' ', InvalidStatus)
    ensures p.state.ResStatusCode? ==>
              OutcomeOf(p, ch) == Verdict(ch == ' ' || ch == CR || ch == LF || ('0' <= ch <= '9' && p.statusCode <= 99), InvalidStatus)
    ensures p.state.ResStatusStart? || p.state.ResStatus? ==> OutcomeOf(p, ch).Ok?
  {
    if PhaseOf(p.state).InStatus? {
      assert Dispatch(p, ch) == DispatchStatus(p, ch);
    }
    hide Dispatch;
  }

  /** In header lines. */
  lemma HeaderBytes(p: Parser, ch: char)
    requires p.errno.Ok?
    ensures p.state.HeaderFieldStart? ==> OutcomeOf(p, ch) == Verdict(ch == CR || ch == LF || IsToken(ch), InvalidHeaderToken)
    ensures p.state.HeaderField? ==> OutcomeOf(p, ch) == Verdict(ch == ':' || IsToken(ch), InvalidHeaderToken)
    ensures p.state.HeaderValue? && p.headerState.General? ==>
              OutcomeOf(p, ch) == Verdict(p.lenient || ch == '\t' || ch == CR || ch == LF || (' ' <= ch && ch as int != 127), InvalidHeaderToken)
  {
    if p.state.HeaderValue? {
      ValueDispatch(p, ch);
      if p.headerState.General? {
        GeneralTakes(p, ch);
      }
    } else if PhaseOf(p.state).InHeaderName? {
      assert Dispatch(p, ch) == DispatchHeaderName(p, ch);
    }
    hide Dispatch, InsideValue, IsToken, FieldByte, FirstFieldByte;
  }

  lemma GeneralTakes(p: Parser, ch: char)
    requires p.errno.Ok? && p.state.HeaderValue? && p.headerState.General?
    ensures InsideValue(p, ch).p.errno ==
            Verdict(p.lenient || ch == '\t' || ch == CR || ch == LF || (' ' <= ch && ch as int != 127), InvalidHeaderToken)
  {}

  /** At the end of a head. */
  lemma HeadEndBytes(p: Parser, ch: char)
    requires p.errno.Ok?
    ensures p.state.HeadersAlmostDone? && !(p.flags.chunked && p.flags.contentLength) ==> OutcomeOf(p, ch) == Verdict(ch == LF, Strict)
    ensures p.state.HeadersDone? ==> OutcomeOf(p, ch) == Verdict(ch == LF, Strict)
  {
    if p.state.HeadersAlmostDone? {
      assert Dispatch(p, ch) == EndOfHeaders(p, ch);
    } else if p.state.HeadersDone? {
      assert Dispatch(p, ch) == HeadersAreDone(p, ch);
    }
    hide Dispatch, ShouldKeepAlive, MessageNeedsEof;
  }

  /** Between chunks. */
  lemma ChunkBytes(p: Parser, ch: char)
    requires p.errno.Ok?
    ensures p.state.ChunkSizeStart? ==> OutcomeOf(p, ch) == Verdict(IsChunkDigit(ch), InvalidChunkSize)
    ensures p.state.ChunkParameters? ==> OutcomeOf(p, ch).Ok?
    ensures p.state.ChunkSizeAlmostDone? || p.state.ChunkDataDone? ==> OutcomeOf(p, ch) == Verdict(ch == LF, Strict)
  {
    if PhaseOf(p.state).InChunk? {
      assert Dispatch(p, ch) == DispatchChunk(p, ch);
    }
    hide Dispatch, IsChunkDigit, ChunkDigit;
  }
}
