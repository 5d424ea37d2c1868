/** The callbacks of a connection are bracketed: each message begins, and is complete before the next one begins. */
module HttpBrackets {
  import opened HttpSyntax
  import opened HttpMachine
  import opened HttpLog
  import opened HttpBulk

  /** Begun messages less completed ones. */
  function Balance(es: seq<Event>): int
    decreases |es|
  {
    if |es| == 0 then 0
    else Balance(es[..|es| - 1]) + Weight(es[|es| - 1])
  }

  function Weight(e: Event): int {
    if e.MessageBegin? then 1 else if e.MessageComplete? then -1 else 0
  }

  /** Begin and complete take turns, begin first. */
  predicate TakeTurns(log: seq<Event>) {
    forall k :: 0 <= k <= |log| ==> 0 <= Balance(log[..k]) <= 1
  }

  /** The parser is inside a message. */
  predicate Inside(s: State) {
    !(s.StartReq? || s.StartRes? || s.StartReqOrRes? || s.Dead?)
  }

  function Open(s: State): int {
    if Inside(s) then 1 else 0
  }

  /** A pass begins a message exactly when it enters one, and completes it exactly when it leaves it; one that fails makes
      no callback. */
  predicate Balanced(p: Parser, m: Micro) {
    if m.p.errno.Ok? then Balance(m.events) == Open(m.p.state) - Open(p.state) else m.events == []
  }

  lemma BalanceOne(e: Event)
    ensures Balance([e]) == Weight(e) && Balance([]) == 0
  {
    assert [e][..0] == [];
  }

  lemma Singles()
    ensures Balance([]) == 0 && Balance([MessageBegin]) == 1 && Balance([MessageComplete]) == -1
    ensures Balance([HeadersComplete]) == 0 && Balance([ChunkComplete]) == 0
    ensures forall n :: Balance([ChunkHeader(n)]) == 0
    ensures forall k, s :: Balance([Data(k, s)]) == 0
  {
    BalanceOne(MessageBegin);
    BalanceOne(MessageComplete);
    BalanceOne(HeadersComplete);
    BalanceOne(ChunkComplete);
    forall n ensures Balance([ChunkHeader(n)]) == 0 {
      BalanceOne(ChunkHeader(n));
    }
    forall k, s ensures Balance([Data(k, s)]) == 0 {
      BalanceOne(Data(k, s));
    }
  }

  lemma FixedBalanced(p: Parser, ch: char)
    requires FixedByte(p.state).Some? && p.errno.Ok?
    ensures Balanced(p, Expect(p, ch))
  {
    Singles();
    hide Balance;
  }

  lemma StartBalanced(p: Parser, ch: char)
    requires PhaseOf(p.state).InStart? && p.errno.Ok?
    ensures Balanced(p, DispatchStart(p, ch))
  {
    Singles();
    hide Balance, MethodByte, MethodName, FirstLetter, IsFirstLetter, IsAlpha;
  }

  lemma UrlBalanced(p: Parser, ch: char)
    requires PhaseOf(p.state).InUrlPart? && p.errno.Ok?
    ensures Balanced(p, DispatchUrl(p, ch))
  {
    Singles();
    ParseUrlCharStaysInUrl(p.state, ch);
    ParseUrlCharStaysInUrl(ReqServerStart, ch);
    hide Balance, ParseUrlChar;
  }

  lemma VersionBalanced(p: Parser, ch: char)
    requires PhaseOf(p.state).InVersion? && p.errno.Ok?
    ensures Balanced(p, DispatchVersion(p, ch))
  {
    Singles();
    hide Balance;
  }

  lemma StatusBalanced(p: Parser, ch: char)
    requires PhaseOf(p.state).InStatus? && p.errno.Ok?
    ensures Balanced(p, DispatchStatus(p, ch))
  {
    Singles();
    hide Balance;
  }

  lemma NameBalanced(p: Parser, ch: char)
    requires PhaseOf(p.state).InHeaderName? && p.errno.Ok?
    ensures Balanced(p, DispatchHeaderName(p, ch))
  {
    Singles();
    hide Balance, FieldByte, FirstFieldByte, IsToken, TokenLower;
  }

  lemma ValueBalanced(p: Parser, ch: char)
    requires PhaseOf(p.state).InHeaderValue? && p.errno.Ok?
    ensures Balanced(p, DispatchHeaderValue(p, ch))
  {
    Singles();
    hide Balance, StartValue, NextValue, IsHeaderChar;
  }

  lemma EndBalanced(p: Parser, ch: char)
    requires PhaseOf(p.state).InEndOfValue? && p.errno.Ok?
    ensures Balanced(p, DispatchEndOfValue(p, ch))
  {
    Singles();
    hide Balance, FinishHeader;
  }

  lemma AlmostBalanced(p: Parser, ch: char)
    requires p.state.HeadersAlmostDone? && p.errno.Ok?
    ensures Balanced(p, EndOfHeaders(p, ch))
  {
    Singles();
    hide Balance;
  }

  lemma DoneBalanced(p: Parser, ch: char)
    requires p.state.HeadersDone? && p.errno.Ok?
    ensures Balanced(p, HeadersAreDone(p, ch))
  {
    Singles();
    hide Balance, ShouldKeepAlive, MessageNeedsEof;
  }

  lemma ChunkBalanced(p: Parser, ch: char)
    requires PhaseOf(p.state).InChunk? && p.errno.Ok?
    ensures Balanced(p, DispatchChunk(p, ch))
  {
    Singles();
    hide Balance, ChunkSizeDigit, IsChunkDigit, ChunkDigit;
  }

  lemma RestBalanced(p: Parser, ch: char)
    requires PhaseOf(p.state).InRest? && p.errno.Ok?
    ensures Balanced(p, DispatchRest(p, ch))
  {
    Singles();
    hide Balance, ShouldKeepAlive;
  }

  lemma PassBalances(p: Parser, ch: char)
    requires p.errno.Ok?
    ensures Balanced(p, Dispatch(p, ch))
  {
    hide PhaseOf, Balanced, Expect, DispatchStart, DispatchUrl, DispatchVersion, DispatchStatus, DispatchHeaderName, DispatchHeaderValue,
         DispatchEndOfValue, EndOfHeaders, HeadersAreDone, DispatchChunk, DispatchRest;
    match PhaseOf(p.state) {
      case InFixed => FixedBalanced(p, ch);
      case InStart => StartBalanced(p, ch);
      case InUrlPart => UrlBalanced(p, ch);
      case InVersion => VersionBalanced(p, ch);
      case InStatus => StatusBalanced(p, ch);
      case InHeaderName => NameBalanced(p, ch);
      case InHeaderValue => ValueBalanced(p, ch);
      case InEndOfValue => EndBalanced(p, ch);
      case InHeadersEnd =>
        if p.state.HeadersAlmostDone? {
          AlmostBalanced(p, ch);
        } else {
          HeadersEndIs(p.state);
          DoneBalanced(p, ch);
        }
      case InChunk => ChunkBalanced(p, ch);
      case InRest => RestBalanced(p, ch);
    }
  }

  lemma HeadersEndIs(s: State)
    requires PhaseOf(s).InHeadersEnd? && !s.HeadersAlmostDone?
    ensures s.HeadersDone?
  {}

  // ---------------------------------------------------------------- over whole runs

  lemma SnocBalance(log: seq<Event>, e: Event)
    ensures Balance(log + [e]) == Balance(log) + Weight(e)
  {
    assert (log + [e])[..|log|] == log;
  }

  lemma PushBalance(log: seq<Event>, e: Event)
    ensures Balance(Push(log, e)) == Balance(log) + Weight(e)
  {
    SnocBalance(log, e);
    if |log| > 0 && log[|log| - 1].Data? && e.Data? {
      SnocBalance(log[..|log| - 1], Data(e.kind, log[|log| - 1].bytes + e.bytes));
    }
  }

  lemma PushTakesTurns(log: seq<Event>, e: Event)
    requires TakeTurns(log) && 0 <= Balance(log) + Weight(e) <= 1
    ensures TakeTurns(Push(log, e))
  {
    PushBalance(log, e);
    var r := Push(log, e);
    hide Balance;
    forall k | 0 <= k <= |r| ensures 0 <= Balance(r[..k]) <= 1 {
      if k == |r| {
        assert r[..k] == r;
      } else {
        assert r[..k] == log[..k];
      }
    }
  }

  lemma PassTakesTurns(p: Parser, ch: char, log: seq<Event>)
    requires p.errno.Ok? && TakeTurns(log) && Balance(log) == Open(p.state)
    ensures var m := Dispatch(p, ch); var r := PushAll(log, m.events);
            TakeTurns(r) && (m.p.errno.Ok? ==> Balance(r) == Open(m.p.state))
  {
    var m := Dispatch(p, ch);
    PassBalances(p, ch);
    hide Dispatch, Balance, Push;
    if |m.events| == 0 {
      assert m.events == [];
      Singles();
      PushNone(log);
    } else {
      var e := m.events[0];
      assert m.events == [e];
      BalanceOne(e);
      PushOne(log, e);
      PushBalance(log, e);
      PushTakesTurns(log, e);
    }
  }

  lemma {:induction false} ExecTakesTurns(p: Parser, ch: char, log: seq<Event>)
    requires p.errno.Ok? && TakeTurns(log) && Balance(log) == Open(p.state)
    ensures var m := Exec(p, ch); var r := PushAll(log, m.events);
            TakeTurns(r) && (m.p.errno.Ok? ==> Balance(r) == Open(m.p.state))
    decreases Rank(p.state)
  {
    hide Dispatch, Balance, TakeTurns;
    PassTakesTurns(p, ch, log);
    var m := Dispatch(p, ch);
    if m.next.Again? {
      var r := Exec(m.p, ch);
      ExecTakesTurns(m.p, ch, PushAll(log, m.events));
      PushAllAppend(log, m.events, r.events);
    }
  }

  predicate Bracketed(c: Config) {
    TakeTurns(c.log) && (c.p.errno.Ok? ==> Balance(c.log) == Open(c.p.state))
  }

  lemma {:induction false} RunKeepsBrackets(c: Config, s: string)
    requires Bracketed(c)
    ensures Bracketed(Run(c, s))
    decreases |s|
  {
    hide Exec, TakeTurns, Balance;
    if |s| > 0 {
      if Live(c) && Count(c.p).errno.Ok? {
        ExecTakesTurns(Count(c.p), s[0], c.log);
      }
      RunKeepsBrackets(Step(c, s[0]), s[1..]);
    }
  }

  /** Whatever is fed to a new parser: messages begin and are complete by turns, and as long as there is no error one has
      begun that is not complete exactly if the parser is inside a message. */
  lemma MessagesTakeTurns(kind: Kind, lenient: bool, reply: HeadersReply, s: string)
    ensures var d := Run(Config(Init(kind, lenient, reply), [], 0, false), s);
            TakeTurns(d.log) && (d.p.errno.Ok? ==> (Balance(d.log) == 1 <==> Inside(d.p.state)) && 0 <= Balance(d.log) <= 1)
  {
    hide Run;
    Singles();
    var c := Config(Init(kind, lenient, reply), [], 0, false);
    assert TakeTurns(c.log);
    RunKeepsBrackets(c, s);
    hide TakeTurns, Balance;
  }

  /** The end of the input is an error exactly if a message has begun that is not complete, but for one whose body is all
      that comes until then, and which is now complete. */
  lemma EndOfInput(kind: Kind, lenient: bool, reply: HeadersReply, s: string)
    ensures var d := Run(Config(Init(kind, lenient, reply), [], 0, false), s);
            Live(d) ==>
              if Balance(d.log) == 0 then Eof(d) == d
              else if d.p.state.BodyIdentityEof? then Live(Eof(d)) && Balance(Eof(d).log) == 0
              else Eof(d).p.errno.InvalidEofState? && Eof(d).log == d.log
  {
    hide Run, Push, TakeTurns, Balance;
    MessagesTakeTurns(kind, lenient, reply, s);
    var d := Run(Config(Init(kind, lenient, reply), [], 0, false), s);
    PushBalance(d.log, MessageComplete);
  }
}
