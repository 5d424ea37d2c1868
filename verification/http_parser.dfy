/** The parser object and `http_parser_execute` over one buffer, then over a sequence of buffers. */
module HttpParsing {
  import opened HttpSyntax
  import opened HttpMachine
  import opened HttpInvariant
  import opened HttpLog
  import opened HttpExecute
  import opened HttpBulk

  /** What one byte of the outer loop, with the bytes its inner loops swallow, leaves behind. */
  ghost predicate ByteDone(log0: seq<Event>, c: Config, from: nat, r: Local, exited: bool, data: string) {
    && from <= r.at < |data|
    && var d := Run(c, data[from..r.at + 1]);
       if !r.p.errno.Ok? then Blames(log0, c, d, r, from, data)
       else d.p == r.p && d.exited == exited && Fits(r.marks, r.p.state, r.at + 1) &&
            d.log == View(log0, r, data, r.at + 1) && d.used == c.used + (r.at + 1 - from) &&
            (InLoop(r.p.state) && r.at + 1 < |data| ==> StateAt(c, data, from, r.at) != r.p.state)
  }

  lemma {:induction false} RunUsed(c: Config, s: string)
    requires Live(c) && Live(Run(c, s))
    ensures Run(c, s).used == c.used + |s|
    decreases |s|
  {
    hide Exec;
    if |s| > 0 {
      if !Live(Step(c, s[0])) {
        RunDead(Step(c, s[0]), s[1..]);
      }
      RunUsed(Step(c, s[0]), s[1..]);
    }
  }

  lemma BulkIsByteDone(log0: seq<Event>, c: Config, l: Local, r: Local, data: string)
    requires Enters(log0, c, l, data) && Bulk(log0, c, l, r, Break, data)
    ensures ByteDone(log0, c, l.at, r, false, data)
  {
    hide Run, View;
    if r.p.errno.Ok? {
      RunUsed(c, data[l.at..r.at + 1]);
    }
  }

  /** One more pass for the same byte. */
  lemma ResumesAgain(log0: seq<Event>, d: Config, l: Local, r: Local, data: string)
    requires Resumes(log0, d, l, data) && SwitchedOnce(log0, l, r, Again, data) && r.p.errno.Ok?
    ensures Resumes(log0, d, r, data) && Rank(r.p.state) < Rank(l.p.state)
  {
    hide Dispatch, View, PushAll, Exec;
    var m := Dispatch(l.p, data[l.at]);
    ExecAgain(l.p, data[l.at]);
    PushAllAppend(View(log0, l, data, l.at), m.events, Exec(m.p, data[l.at]).events);
  }

  /** The last pass for the byte. */
  lemma ResumesLast(log0: seq<Event>, c: Config, from: nat, l: Local, r: Local, next: Next, data: string)
    requires from <= l.at && Live(c) && l.at < |data|
    requires Resumes(log0, Run(c, data[from..l.at]), l, data) && SwitchedOnce(log0, l, r, next, data)
    requires !next.Again? || !r.p.errno.Ok?
    requires (l.at == from && !IsBulk(c.p.state)) || EndsItem(l.p.state, data[l.at])
    ensures ByteDone(log0, c, from, r, next.Exit?, data)
  {
    hide Dispatch, View, PushAll, Run, Step, Exec, FailsLate, Unreported;
    var d := Run(c, data[from..l.at]);
    var m := Dispatch(l.p, data[l.at]);
    assert Exec(l.p, data[l.at]) == m by { ExecOnce(l.p, data[l.at]); }
    NextSlice(data, from, l.at);
    RunSnoc(c, data[from..l.at], data[l.at]);
    StepExec(d, data[l.at]);
    RunUsed(c, data[from..l.at]);
    if !m.p.errno.Ok? {
      assert Advances(l.p, m);
      PushNone(View(log0, l, data, l.at));
      ViewUnreported(log0, l, l.p.state, data, l.at);
    } else {
      LastStateDiffers(c, from, l, data);
    }
  }

  /** A byte that is read by itself never leaves the parser in the name or value that it was in before. */
  lemma LastStateDiffers(c: Config, from: nat, l: Local, data: string)
    requires from <= l.at < |data|
    requires (l.at == from && !IsBulk(c.p.state)) || EndsItem(l.p.state, data[l.at])
    ensures var s := Dispatch(l.p, data[l.at]).p.state; InLoop(s) ==> StateAt(c, data, from, l.at) != s
  {
    if l.at == from && !IsBulk(c.p.state) {
      assert data[from..l.at] == "";
    } else {
      EndsItemLeaves(l.p, data[l.at]);
    }
  }

  lemma EndsItemLeaves(p: Parser, ch: char)
    requires EndsItem(p.state, ch)
    ensures !Dispatch(p, ch).next.Again? && !InLoop(Dispatch(p, ch).p.state)
  {}

  lemma ExecOnce(p: Parser, ch: char)
    requires p.errno.Ok?
    ensures var m := Dispatch(p, ch); !m.next.Again? || !m.p.errno.Ok? ==> Exec(p, ch) == m
  {
    hide Dispatch;
  }

  /** One turn of the outer loop. */
  method OneByte(l0: Local, data: string, ghost c: Config, ghost log0: seq<Event>) returns (r: Local, exited: bool)
    requires l0.at < |data| < UINT32_RANGE - MAX_HEADER_SIZE
    requires Exact(log0, c, l0, data, l0.at) && Reachable(c.p)
    ensures ByteDone(log0, c, l0.at, r, exited, data)
  {
    hide Dispatch, View, PushAll, Run, Step, Exec, Bulk, Resumes, ByteDone;
    var l := l0.(p := Count(l0.p));
    exited := false;
    if !l.p.errno.Ok? {
      r := l;
      FirstByteOverflows(log0, c, l0, r, data);
      return;
    }
    ghost var from := l0.at;
    var next;
    EntersFrom(log0, c, l0, l, data);
    if IsBulk(l.p.state) {
      if l.p.state.HeaderField? {
        l, next := HeaderFieldCase(l, data, c, log0);
      } else if l.p.state.HeaderValue? {
        l, next := HeaderValueCase(l, data, c, log0);
      } else {
        l, next := BodyCase(l, data, c, log0);
      }
      BulkOutcome(log0, c, l0.(p := Count(l0.p)), l, next, data);
      if !l.p.errno.Ok? || next.Break? {
        r := l;
        return;
      }
    } else {
      ResumesAtStart(log0, c, l, data);
    }
    while true
      invariant from <= l.at < |data| && Live(c)
      invariant Resumes(log0, Run(c, data[from..l.at]), l, data)
      invariant l.p.errno.Ok? && !IsBulk(l.p.state) && Fits(l.marks, l.p.state, l.at)
      invariant (l.at == from && !IsBulk(c.p.state)) || EndsItem(l.p.state, data[l.at])
      decreases Rank(l.p.state)
    {
      r, next := SwitchOnce(l, data, log0);
      if !r.p.errno.Ok? || !next.Again? {
        ResumesLast(log0, c, from, l, r, next, data);
        exited := next.Exit?;
        return;
      }
      if EndsItem(l.p.state, data[l.at]) {
        EndsItemLeaves(l.p, data[l.at]);
      }
      ResumesAgain(log0, Run(c, data[from..l.at]), l, r, data);
      ResumesFacts(log0, Run(c, data[from..l.at]), r, data);
      l := r;
    }
  }

  lemma ResumesFacts(log0: seq<Event>, d: Config, l: Local, data: string)
    requires Resumes(log0, d, l, data)
    ensures l.p.errno.Ok? && !IsBulk(l.p.state) && Fits(l.marks, l.p.state, l.at) && l.at < |data|
  {}

  lemma EntersFrom(log0: seq<Event>, c: Config, l0: Local, l: Local, data: string)
    requires l0.at < |data| < UINT32_RANGE - MAX_HEADER_SIZE && Exact(log0, c, l0, data, l0.at) && Reachable(c.p)
    requires l == l0.(p := Count(l0.p)) && l.p.errno.Ok?
    ensures Enters(log0, c, l, data) && Inv(c.p) && (c.p.state.HeaderValue? ==> c.p.nread > 0) && l.p.state == c.p.state
    ensures c.p.state.HeaderField? ==> IsFieldState(c.p.headerState)
  {}

  lemma ResumesAtStart(log0: seq<Event>, c: Config, l: Local, data: string)
    requires Enters(log0, c, l, data) && !IsBulk(l.p.state)
    ensures Resumes(log0, Run(c, data[l.at..l.at]), l, data)
  {
    hide Exec, View, PushAll;
    assert data[l.at..l.at] == "";
  }

  lemma BulkOutcome(log0: seq<Event>, c: Config, l: Local, r: Local, next: Next, data: string)
    requires Enters(log0, c, l, data) && Bulk(log0, c, l, r, next, data)
    ensures l.at <= r.at < |data|
    ensures if !r.p.errno.Ok? || next.Break? then ByteDone(log0, c, l.at, r, false, data)
            else Resumes(log0, Run(c, data[l.at..r.at]), r, data) && !IsBulk(r.p.state) && Fits(r.marks, r.p.state, r.at) &&
                 EndsItem(r.p.state, data[r.at])
  {
    hide Run, View, Exec;
    if !r.p.errno.Ok? || next.Break? {
      BulkIsByteDone(log0, c, l, r, data);
    }
  }

  lemma FirstByteOverflows(log0: seq<Event>, c: Config, l: Local, r: Local, data: string)
    requires r.at < |data| && Exact(log0, c, l, data, r.at) && r == l.(p := Count(c.p)) && !r.p.errno.Ok?
    ensures ByteDone(log0, c, r.at, r, false, data)
  {
    ViewUnreported(log0, l, l.p.state, data, r.at);
    hide View, Unreported;
    assert data[r.at..r.at + 1] == [data[r.at]];
    assert Run(c, [data[r.at]]) == Run(Step(c, data[r.at]), [data[r.at]][1..]);
  }

  /** The marks a call starts with: the item the previous call stopped in goes on at offset 0. */
  function FirstMarks(s: State): map<DataKind, nat> {
    match KindOf(s)
    case Some(k) => map[k := 0]
    case None => map[]
  }

  lemma StartIsExact(c: Config, data: string)
    requires Live(c) && Coherent(c)
    ensures Exact(c.log, c, Local(c.p, FirstMarks(c.p.state), [], 0), data, 0)
  {
    var l := Local(c.p, FirstMarks(c.p.state), [], 0);
    if KindOf(c.p.state).Some? {
      var k := KindOf(c.p.state).value;
      ViewMarked(c.log, l, k, data, 0);
      assert data[0..0] == "";
      PushNothing(c.log, k);
    } else {
      ViewUnmarked(c.log, l, data, 0);
    }
  }

  /** The callbacks made when the buffer runs out. */
  function Flush(l: Local, data: string): Local
    requires forall k <- l.marks :: l.marks[k] <= |data|
  {
    var a := Callback(l, HeaderFieldData, data, |data|);
    var b := Callback(a, HeaderValueData, data, |data|);
    var c := Callback(b, Url, data, |data|);
    var d := Callback(c, Body, data, |data|);
    Callback(d, Status, data, |data|)
  }

  lemma FlushFiresPending(log0: seq<Event>, l: Local, data: string)
    requires Fits(l.marks, l.p.state, |data|)
    ensures PushAll(log0, Flush(l, data).fired) == View(log0, l, data, |data|)
  {
    assert Flush(l, data).fired == l.fired + Pending(l.marks, data, |data|);
    PushAllAppend(log0, l.fired, Pending(l.marks, data, |data|));
  }

  /** How a call that started in `c` and made the callbacks `fired` compares with the machine's run
      `d` over the same bytes. */
  ghost predicate Agrees(c: Config, d: Config, p: Parser, parsed: int, fired: seq<Event>, exited: bool, data: string) {
    match d.p.errno
    case Ok => p == d.p && exited == d.exited && PushAll(c.log, fired) == d.log && parsed == d.used - c.used
    case HeaderOverflow => !p.errno.Ok? && FailsLate(c, d, p.errno, 0, parsed, data) && Tells(c.log, c, d, fired, 0, parsed, data)
    case e => p.errno == e && parsed == d.used - c.used && Unreported(c.log, fired, d.log)
  }

  /** What the outer loop knows after the bytes before `l.at`. */
  ghost predicate LoopInv(c: Config, l: Local, exited: bool, data: string) {
    && l.at <= |data| && (forall k <- l.marks :: l.marks[k] <= l.at)
    && var d := Run(c, data[..l.at]);
       Reachable(d.p) && Exact(c.log, d, l, data, l.at) && d.used == c.used + l.at && !exited &&
       (InLoop(l.p.state) && 0 < l.at < |data| ==> StateAt(c, data, 0, l.at - 1) != l.p.state)
  }

  /** What it knows when it stops early. */
  ghost predicate LoopEnd(c: Config, l: Local, exited: bool, data: string) {
    && l.at < |data|
    && var d := Run(c, data[..l.at + 1]);
       if !l.p.errno.Ok? then Blames(c.log, c, d, l, 0, data)
       else l.marks.Keys == {} && exited && d.exited && d.p == l.p && d.used == c.used + l.at + 1 &&
            d.log == PushAll(c.log, l.fired)
  }

  /** A parser leaves only between messages, so nothing is pending then. */
  lemma {:induction false} ExecExits(p: Parser, ch: char)
    requires p.errno.Ok? && Exec(p, ch).next.Exit?
    ensures var s := Exec(p, ch).p.state; KindOf(s).None? && !HoldsBody(s)
    decreases Rank(p.state)
  {
    hide DispatchStart, DispatchUrl, DispatchVersion, DispatchStatus, DispatchHeaderName, DispatchHeaderValue,
         DispatchEndOfValue, DispatchChunk;
    DispatchExits(p, ch);
    if Dispatch(p, ch).next.Again? {
      ExecExits(Dispatch(p, ch).p, ch);
    }
  }

  lemma OnlyEndsExit(p: Parser, ch: char)
    requires !p.state.HeadersDone? && !p.state.MessageDone?
    ensures !Dispatch(p, ch).next.Exit?
  {
    hide Advances, Reports, ParseUrlChar, FieldByte, FirstFieldByte, MethodByte, ChunkSizeDigit, FinishHeader, ValueStart, ValueByte,
         IsHeaderChar, IsToken, NewMessage, HeadersAreDone;
  }

  lemma EndsExit(p: Parser, ch: char)
    requires p.state.HeadersDone? || p.state.MessageDone?
    ensures Dispatch(p, ch).next.Exit? ==> Dispatch(p, ch).p.state == NewMessage(p)
  {
    hide Advances, Reports;
  }

  lemma DispatchExits(p: Parser, ch: char)
    ensures Dispatch(p, ch).next.Exit? ==> (p.state.HeadersDone? || p.state.MessageDone?) && Dispatch(p, ch).p.state == NewMessage(p)
  {
    hide Dispatch, NewMessage;
    if p.state.HeadersDone? || p.state.MessageDone? {
      EndsExit(p, ch);
    } else {
      OnlyEndsExit(p, ch);
    }
  }

  lemma {:induction false} RunExits(c: Config, s: string)
    requires Live(c) && Run(c, s).exited
    ensures var t := Run(c, s).p.state; KindOf(t).None? && !HoldsBody(t)
    decreases |s|
  {
    hide Exec;
    if |s| > 0 {
      var d := Step(c, s[0]);
      if Live(d) {
        RunExits(d, s[1..]);
      } else {
        RunDead(d, s[1..]);
        ExecExits(Count(c.p), s[0]);
      }
    }
  }

  /** One turn of the outer loop keeps what the loop knows. */
  lemma LoopTurn(c: Config, l: Local, r: Local, exited: bool, data: string)
    requires LoopInv(c, l, false, data) && l.at < |data|
    requires ByteDone(c.log, Run(c, data[..l.at]), l.at, r, exited, data)
    ensures if r.p.errno.Ok? && !exited then LoopInv(c, r.(at := r.at + 1), false, data) else LoopEnd(c, r, exited, data)
  {
    hide View, Run, Fits, LoopInv, LoopEnd, ByteDone;
    LoopRun(c, l, r, exited, data);
    if r.p.errno.Ok? && !exited {
      LoopGoesOn(c, l, r, data);
    } else {
      LoopEnds(c, l, r, exited, data);
    }
  }

  lemma LoopRun(c: Config, l: Local, r: Local, exited: bool, data: string)
    requires LoopInv(c, l, false, data) && ByteDone(c.log, Run(c, data[..l.at]), l.at, r, exited, data)
    ensures Run(c, data[..r.at + 1]) == Run(Run(c, data[..l.at]), data[l.at..r.at + 1])
    ensures Live(Run(c, data[..r.at + 1])) ==> Reachable(Run(c, data[..r.at + 1]).p)
  {
    hide View, Run, Fits, Exact;
    assert data[..r.at + 1] == data[..l.at] + data[l.at..r.at + 1];
    RunAppend(c, data[..l.at], data[l.at..r.at + 1]);
    RunKeepsReachable(Run(c, data[..l.at]), data[l.at..r.at + 1]);
  }

  lemma LoopGoesOn(c: Config, l: Local, r: Local, data: string)
    requires LoopInv(c, l, false, data) && ByteDone(c.log, Run(c, data[..l.at]), l.at, r, false, data) && r.p.errno.Ok?
    requires Run(c, data[..r.at + 1]) == Run(Run(c, data[..l.at]), data[l.at..r.at + 1])
    requires Live(Run(c, data[..r.at + 1])) ==> Reachable(Run(c, data[..r.at + 1]).p)
    ensures LoopInv(c, r.(at := r.at + 1), false, data)
  {
    hide View, Run, Fits, InLoop, StateAt, Reachable, Blames;
    ByteDoneMarks(c.log, Run(c, data[..l.at]), l.at, r, false, data);
    ViewSame'(c.log, r, r.(at := r.at + 1), data, r.at + 1);
    StateAtShift(c, data, l.at, r.at);
  }

  lemma StateAtShift(c: Config, data: string, from: nat, i: nat)
    requires from <= i <= |data|
    ensures StateAt(Run(c, data[..from]), data, from, i) == StateAt(c, data, 0, i)
  {
    hide Run;
    assert data[0..i] == data[..from] + data[from..i];
    RunAppend(c, data[..from], data[from..i]);
  }

  /** A machine that stops for too many header bytes without having read one more is still where it was. */
  lemma StopsAtOnce(c: Config, s: string)
    requires Live(c) && |s| > 0 && Run(c, s).p.errno.HeaderOverflow? && Run(c, s).used == c.used
    ensures Run(c, s).p.state == c.p.state
  {
    hide Exec;
    var d := Step(c, s[0]);
    if Live(d) {
      UsedGrows(d, s[1..]);
    } else {
      RunDead(d, s[1..]);
      if Count(c.p).errno.Ok? {
        ExecNeverOverflows(Count(c.p), s[0]);
      }
    }
  }

  lemma {:induction false} UsedGrows(c: Config, s: string)
    ensures c.used <= Run(c, s).used <= c.used + |s|
    decreases |s|
  {
    hide Exec;
    if |s| > 0 {
      UsedGrows(Step(c, s[0]), s[1..]);
    }
  }

  lemma {:induction false} ExecNeverOverflows(p: Parser, ch: char)
    requires p.errno.Ok?
    ensures !Exec(p, ch).p.errno.HeaderOverflow? && Exec(p, ch).p.nread <= p.nread
    decreases Rank(p.state)
  {
    hide Dispatch;
    assert Advances(p, Dispatch(p, ch));
    if Dispatch(p, ch).next.Again? {
      ExecNeverOverflows(Dispatch(p, ch).p, ch);
    }
  }

  /** A failure after `from` as seen from the beginning of the buffer. */
  lemma FailsLateShift(c: Config, d: Config, e: Errno, from: nat, at: int, data: string)
    requires from <= at < |data| && d == Run(c, data[..at + 1]) && d.p.errno.HeaderOverflow?
    requires var m := Run(c, data[..from]);
             && Live(m) && m.used == c.used + from && FailsLate(m, d, e, from, at, data)
             && d == Run(m, data[from..at + 1])
             && (InLoop(m.p.state) && 0 < from ==> StateAt(c, data, 0, from - 1) != m.p.state)
    ensures FailsLate(c, d, e, 0, at, data)
  {
    hide Run, FateOf;
    var m := Run(c, data[..from]);
    var o := d.used - c.used;
    if o == from {
      StopsAtOnce(m, data[from..at + 1]);
    } else {
      StateAtShift(c, data, from, o - 1);
    }
  }

  lemma TellsShift(log0: seq<Event>, c: Config, m: Config, d: Config, fired: seq<Event>, from: nat, at: int, data: string)
    requires m.used == c.used + from && Tells(log0, m, d, fired, from, at, data)
    ensures Tells(log0, c, d, fired, 0, at, data)
  {
    hide Unreported, PushAll, Push;
  }

  lemma LoopEnds(c: Config, l: Local, r: Local, exited: bool, data: string)
    requires LoopInv(c, l, false, data) && ByteDone(c.log, Run(c, data[..l.at]), l.at, r, exited, data)
    requires !r.p.errno.Ok? || exited
    requires Run(c, data[..r.at + 1]) == Run(Run(c, data[..l.at]), data[l.at..r.at + 1])
    ensures LoopEnd(c, r, exited, data)
  {
    hide View, Run, Fits, FailsLate, Unreported, InLoop, StateAt, Reachable;
    var d := Run(c, data[..r.at + 1]);
    if r.p.errno.Ok? {
      RunExits(Run(c, data[..l.at]), data[l.at..r.at + 1]);
      ByteDoneMarks(c.log, Run(c, data[..l.at]), l.at, r, exited, data);
      ViewUnmarked(c.log, r, data, r.at + 1);
    } else if d.p.errno.HeaderOverflow? {
      TellsShift(c.log, c, Run(c, data[..l.at]), d, r.fired, l.at, r.at, data);
      FailsLateShift(c, d, r.p.errno, l.at, r.at, data);
    }
  }

  lemma ViewSame'(log0: seq<Event>, l: Local, r: Local, data: string, upto: nat)
    requires l.marks == r.marks && l.fired == r.fired
    ensures upto <= |data| && (forall k <- l.marks :: l.marks[k] <= upto) ==>
              View(log0, l, data, upto) == View(log0, r, data, upto)
  {}

  lemma ByteDoneMarks(log0: seq<Event>, c: Config, from: nat, r: Local, exited: bool, data: string)
    requires ByteDone(log0, c, from, r, exited, data)
    ensures r.p.errno.Ok? ==> forall k <- r.marks :: r.marks[k] <= r.at + 1
    ensures r.p.errno.Ok? && KindOf(r.p.state).None? && !HoldsBody(r.p.state) ==> r.marks.Keys == {}
  {}

  /** `http_parser`, with the struct as its one field. */
  class HttpParser {
    var s: Parser

    /** `http_parser_init`. */
    constructor (kind: Kind, lenient: bool, reply: HeadersReply)
      ensures s == Init(kind, lenient, reply) && Reachable(s) && Coherent(Config(s, [], 0, false))
    {
      s := Init(kind, lenient, reply);
      new;
      InitReachable(kind, lenient, reply);
    }

    /** `http_parser_execute`. The ghost argument is the machine's own account of the bytes consumed
        so far; `fired` lists the callbacks this call makes and `exited` says that it left the loop
        because the rest of the connection belongs to another protocol. */
    method Execute(data: string, ghost c: Config) returns (parsed: nat, fired: seq<Event>, exited: bool)
      requires c.p == s && !c.exited && |data| < UINT32_RANGE - MAX_HEADER_SIZE
      requires s.errno.Ok? ==> Reachable(s) && Coherent(c)
      modifies this
      ensures |data| > 0 ==> Agrees(c, Run(c, data), s, parsed, fired, exited, data)
      ensures |data| == 0 ==> s == Eof(c).p && PushAll(c.log, fired) == Eof(c).log && !exited
      ensures |data| == 0 ==> parsed == if s.errno.InvalidEofState? && old(s).errno.Ok? then 1 else 0
    {
      fired, exited := [], false;
      if !s.errno.Ok? {
        RunDead(c, data);
        return 0, fired, exited;
      }
      if |data| == 0 {
        if s.state.BodyIdentityEof? {
          fired := [MessageComplete];
          PushOne(c.log, MessageComplete);
          return 0, fired, exited;
        } else if s.state.Dead? || s.state.StartReqOrRes? || s.state.StartRes? || s.state.StartReq? {
          return 0, fired, exited;
        } else {
          s := s.(errno := InvalidEofState);
          return 1, fired, exited;
        }
      }
      var l := Local(s, FirstMarks(s.state), [], 0);
      LoopStarts(c, l, data);
      while l.at < |data|
        invariant LoopInv(c, l, exited, data) && !exited
        decreases |data| - l.at
      {
        var r;
        r, exited := OneByte(l, data, Run(c, data[..l.at]), c.log);
        LoopTurn(c, l, r, exited, data);
        if !r.p.errno.Ok? || exited {
          LoopLeaves(c, r, exited, data);
          s := r.p;
          return if r.p.errno.Ok? then r.at + 1 else r.at, r.fired, exited;
        }
        l := r.(at := r.at + 1);
      }
      LoopRunsOut(c, l, data);
      s := l.p;
      fired := Flush(l, data).fired;
      parsed := |data|;
    }
  }

  lemma LoopStarts(c: Config, l: Local, data: string)
    requires Live(c) && Reachable(c.p) && Coherent(c) && l == Local(c.p, FirstMarks(c.p.state), [], 0)
    ensures LoopInv(c, l, false, data)
  {
    hide View;
    assert data[..0] == "";
    StartIsExact(c, data);
  }

  lemma LoopLeaves(c: Config, l: Local, exited: bool, data: string)
    requires LoopEnd(c, l, exited, data)
    ensures Agrees(c, Run(c, data), l.p, if l.p.errno.Ok? then l.at + 1 else l.at, l.fired, exited, data)
  {
    hide Run, FailsLate, Unreported, Tells;
    assert data == data[..l.at + 1] + data[l.at + 1..];
    RunAppend(c, data[..l.at + 1], data[l.at + 1..]);
    RunDead(Run(c, data[..l.at + 1]), data[l.at + 1..]);
  }

  lemma LoopRunsOut(c: Config, l: Local, data: string)
    requires LoopInv(c, l, false, data) && l.at == |data|
    ensures Agrees(c, Run(c, data), l.p, |data|, Flush(l, data).fired, false, data)
  {
    hide Run, View;
    assert data[..|data|] == data;
    FlushFiresPending(c.log, l, data);
  }

  // ---------------------------------------------------------------- streams

  function Concat(pieces: seq<string>): string {
    if |pieces| == 0 then "" else Concat(pieces[..|pieces| - 1]) + pieces[|pieces| - 1]
  }

  /** A machine `d` that has stopped for too many header bytes, and a stream whose division makes no difference
      to that: the first byte too many begins a name or value, or ends it, or ends the stream. */
  ghost predicate Settled(c: Config, d: Config, data: string) {
    var o := d.used - c.used;
    0 <= o < |data| ==> DivisionFree(WithinItem(c, d, 0, o, data), FateOf(d.p, data[o]), o + 1 == |data|)
  }

  predicate DivisionFree(within: bool, f: Fate, last: bool) {
    !within || f.Ends? || (f.GoesOn? && last)
  }

  /** How the pieces of a stream fail when the machine stops for too many header bytes. */
  ghost predicate StopsLate(c: Config, d: Config, e: Errno, parsed: int, data: string) {
    var o := d.used - c.used;
    0 <= o < |data| && !e.Ok? && StopsWith(WithinItem(c, d, 0, o, data), FateOf(d.p, data[o]), e, parsed - o, o + 1 == |data|)
  }

  predicate StopsWith(within: bool, f: Fate, e: Errno, late: int, last: bool) {
    && late >= 0 && (DivisionFree(within, f, last) ==> late == 0 && e.HeaderOverflow?)
    && (late == 0 ==> e.HeaderOverflow? || f == Errs(e)) && (late > 0 ==> f.GoesOn?)
  }

  /** The same as `Agrees`, for a stream in pieces. */
  ghost predicate StreamAgrees(c: Config, d: Config, p: Parser, parsed: int, fired: seq<Event>, exited: bool, data: string) {
    match d.p.errno
    case Ok => p == d.p && exited == d.exited && PushAll(c.log, fired) == d.log && parsed == d.used - c.used
    case HeaderOverflow => !p.errno.Ok? && StopsLate(c, d, p.errno, parsed, data) && Tells(c.log, c, d, fired, 0, parsed, data)
    case e => p.errno == e && parsed == d.used - c.used && Unreported(c.log, fired, d.log)
  }

  /** Feeding a stream piece by piece, as its reader does, until it is consumed or the parser stops. */
  method Feed(parser: HttpParser, pieces: seq<string>, ghost c: Config) returns (parsed: nat, fired: seq<Event>, exited: bool)
    requires c.p == parser.s && Live(c) && Reachable(c.p) && Coherent(c)
    requires forall i :: 0 <= i < |pieces| ==> 0 < |pieces[i]| < UINT32_RANGE - MAX_HEADER_SIZE
    modifies parser
    ensures StreamAgrees(c, Run(c, Concat(pieces)), parser.s, parsed, fired, exited, Concat(pieces))
  {
    hide Run, PushAll, StopsLate, Unreported, FailsLate, Tells, Concat;
    parsed, fired, exited := 0, [], false;
    StartsAgreeing(c);
    for i := 0 to |pieces|
      invariant StreamAgrees(c, Run(c, Concat(pieces[..i])), parser.s, parsed, fired, exited, Concat(pieces[..i]))
    {
      ghost var s := Concat(pieces[..i]);
      ghost var d := Run(c, s);
      NextPiece(c, pieces, i);
      if !parser.s.errno.Ok? || exited {
        RunDead(d, pieces[i]);
        StopsLateLonger(c, d, parser.s.errno, parsed, s, pieces[i]);
        TellsLonger(c, d, parsed, fired, s, pieces[i]);
      } else {
        RunKeepsReachable(c, s);
        RunCoherent(c, s);
        var n, es, ex := parser.Execute(pieces[i], d);
        PieceAgrees(c, d, s, pieces[i], parser.s, n, es, ex, fired);
        parsed, fired, exited := parsed + n, fired + es, ex;
      }
    }
    assert pieces[..|pieces|] == pieces;
  }

  lemma StartsAgreeing(c: Config)
    requires Live(c)
    ensures StreamAgrees(c, Run(c, Concat([])), c.p, 0, [], false, "")
  {}

  /** What was found out does not change when more bytes follow. */
  lemma StopsLateLonger(c: Config, d: Config, e: Errno, parsed: int, s: string, t: string)
    requires d == Run(c, s) && |t| > 0
    ensures d.p.errno.HeaderOverflow? && StopsLate(c, d, e, parsed, s) ==> StopsLate(c, d, e, parsed, s + t)
  {
    hide Run, FateOf;
    var o := d.used - c.used;
    if 0 < o < |s| {
      assert s[0..o - 1] == (s + t)[0..o - 1];
    }
  }

  lemma TellsLonger(c: Config, d: Config, parsed: int, fired: seq<Event>, s: string, t: string)
    ensures Tells(c.log, c, d, fired, 0, parsed, s) ==> Tells(c.log, c, d, fired, 0, parsed, s + t)
  {
    hide Unreported, PushAll, Push;
    var o := d.used - c.used;
    if 0 <= o <= parsed < |s| {
      assert (s + t)[o..parsed] == s[o..parsed];
    }
  }

  /** What a piece tells is what the stream tells. */
  lemma PieceTells(c: Config, m: Config, d: Config, s: string, t: string, fired: seq<Event>, es: seq<Event>, n: int)
    requires PushAll(c.log, fired) == m.log && m.used == c.used + |s| && Tells(m.log, m, d, es, 0, n, t)
    ensures Tells(c.log, c, d, fired + es, 0, |s| + n, s + t)
  {
    PushAllAppend(c.log, fired, es);
    var o := d.used - m.used;
    if Unreported(m.log, es, d.log) {
      UnreportedAppend(c.log, fired, es, d.log);
    } else {
      hide PushAll, Push;
      assert (s + t)[|s| + o..|s| + n] == t[o..n];
    }
  }

  /** One more piece. */
  lemma PieceAgrees(c: Config, d: Config, s: string, t: string, p: Parser, n: int, es: seq<Event>, exited: bool, fired: seq<Event>)
    requires Live(c) && d == Run(c, s) && Live(d) && PushAll(c.log, fired) == d.log && |t| > 0
    requires Agrees(d, Run(d, t), p, n, es, exited, t)
    ensures StreamAgrees(c, Run(d, t), p, d.used - c.used + n, fired + es, exited, s + t)
  {
    hide Run, PushAll, StopsLate, FailsLate, Unreported, Tells;
    PushAllAppend(c.log, fired, es);
    RunUsed(c, s);
    if Run(d, t).p.errno.HeaderOverflow? {
      PieceTells(c, d, Run(d, t), s, t, fired, es, n);
      PieceStopsLate(c, d, Run(d, t), s, t, p.errno, n);
    } else if !Run(d, t).p.errno.Ok? {
      UnreportedAppend(c.log, fired, es, Run(d, t).log);
    }
  }

  lemma UnreportedAppend(log0: seq<Event>, fired: seq<Event>, es: seq<Event>, log: seq<Event>)
    requires Unreported(PushAll(log0, fired), es, log)
    ensures Unreported(log0, fired + es, log)
  {
    PushAllAppend(log0, fired, es);
    hide PushAll, Push;
  }

  lemma PieceStopsLate(c: Config, m: Config, d: Config, s: string, t: string, e: Errno, n: int)
    requires m == Run(c, s) && m.used == c.used + |s| && !e.Ok?
    requires FailsLate(m, d, e, 0, n, t)
    ensures StopsLate(c, d, e, |s| + n, s + t)
  {
    hide *;
    FailsLateGives(m, d, e, n, t);
    var o: nat := d.used - m.used;
    PieceWithin(c, m, d, s, t, o);
    PieceStopsWith(WithinItem(m, d, 0, o, t), WithinItem(c, d, 0, |s| + o, s + t), FateOf(d.p, t[o]), e, n - o, o + 1 == |t|);
    StopsLateIs(c, d, e, |s| + n, s + t, |s| + o, t[o]);
  }

  lemma FailsLateGives(c: Config, d: Config, e: Errno, at: int, data: string)
    requires FailsLate(c, d, e, 0, at, data)
    ensures var o := d.used - c.used;
            0 <= o <= at && o < |data| && FailsWith(WithinItem(c, d, 0, o, data), FateOf(d.p, data[o]), e, at - o, o + 1 == |data|)
  {
    hide FailsWith, WithinItem, FateOf;
  }

  /** A piece that begins with the byte too many finds that out at once. */
  lemma PieceStopsWith(within: bool, withinStream: bool, f: Fate, e: Errno, late: int, last: bool)
    requires FailsWith(within, f, e, late, last) && late >= 0 && (within ==> withinStream)
    ensures StopsWith(withinStream, f, e, late, last)
  {}

  lemma StopsLateIs(c: Config, d: Config, e: Errno, parsed: int, data: string, o: nat, ch: char)
    requires o == d.used - c.used && o < |data| && data[o] == ch && !e.Ok?
    requires StopsWith(WithinItem(c, d, 0, o, data), FateOf(d.p, ch), e, parsed - o, o + 1 == |data|)
    ensures StopsLate(c, d, e, parsed, data)
  {
    hide WithinItem, FateOf, StopsWith;
  }

  lemma PieceWithin(c: Config, m: Config, d: Config, s: string, t: string, o: nat)
    requires m == Run(c, s) && o < |t|
    ensures WithinItem(m, d, 0, o, t) ==> WithinItem(c, d, 0, |s| + o, s + t)
  {
    hide Run;
    if o > 0 {
      assert (s + t)[0..|s| + o - 1] == s + t[0..o - 1];
      RunAppend(c, s, t[0..o - 1]);
    }
  }

  lemma NextPiece(c: Config, pieces: seq<string>, i: nat)
    requires i < |pieces|
    ensures Concat(pieces[..i + 1]) == Concat(pieces[..i]) + pieces[i]
    ensures Run(c, Concat(pieces[..i + 1])) == Run(Run(c, Concat(pieces[..i])), pieces[i])
  {
    hide Run;
    assert pieces[..i + 1][..i] == pieces[..i];
    RunAppend(c, Concat(pieces[..i]), pieces[i]);
  }

  /** Streams whose division into pieces makes no difference, on a fresh parser. */
  ghost predicate DivisionIsFree(kind: Kind, lenient: bool, reply: HeadersReply, s: string) {
    var c := Config(Init(kind, lenient, reply), [], 0, false);
    var d := Run(c, s);
    d.p.errno.HeaderOverflow? ==> Settled(c, d, s)
  }

  /** Two fresh parsers that get the same bytes in different pieces: both succeed or both fail. When they
      succeed their states, their callbacks with the data joined, the number of bytes they consumed and
      whether they left are the same; and when they fail, the error and the number of bytes are the same
      unless the first header byte too many is in the middle of a name or value. */
  method FeedBothWays(kind: Kind, lenient: bool, reply: HeadersReply, one: seq<string>, other: seq<string>)
      returns (a: HttpParser, b: HttpParser, n: nat, m: nat, fired: seq<Event>, alsoFired: seq<Event>, left: bool, alsoLeft: bool)
    requires Concat(one) == Concat(other)
    requires forall i :: 0 <= i < |one| ==> 0 < |one[i]| < UINT32_RANGE - MAX_HEADER_SIZE
    requires forall i :: 0 <= i < |other| ==> 0 < |other[i]| < UINT32_RANGE - MAX_HEADER_SIZE
    ensures a.s.errno.Ok? <==> b.s.errno.Ok?
    ensures a.s.errno.Ok? ==> a.s == b.s && PushAll([], fired) == PushAll([], alsoFired) && n == m && left == alsoLeft
    ensures DivisionIsFree(kind, lenient, reply, Concat(one)) ==> a.s.errno == b.s.errno && n == m
  {
    hide Run, PushAll, Coherent, Reachable, Concat, WithinItem, FateOf, Unreported, Tells;
    ghost var c := Config(Init(kind, lenient, reply), [], 0, false);
    a := new HttpParser(kind, lenient, reply);
    n, fired, left := Feed(a, one, c);
    b := new HttpParser(kind, lenient, reply);
    m, alsoFired, alsoLeft := Feed(b, other, c);
  }

  /** In that case, and only then, there are divisions that differ: the stream in one piece, and cut right
      before the byte that is one too many. */
  method DivideDifferently(kind: Kind, lenient: bool, reply: HeadersReply, s: string, cut: nat)
      returns (a: HttpParser, b: HttpParser, n: nat, m: nat)
    requires !DivisionIsFree(kind, lenient, reply, s) && 0 < |s| < UINT32_RANGE - MAX_HEADER_SIZE
    requires cut == Run(Config(Init(kind, lenient, reply), [], 0, false), s).used
    ensures !a.s.errno.Ok? && b.s.errno.HeaderOverflow? && (a.s.errno != b.s.errno || n > m)
  {
    hide Run, PushAll, Coherent, Reachable, FateOf, Unreported, Tells, FailsLate, Settled;
    ghost var c := Config(Init(kind, lenient, reply), [], 0, false);
    InitReachable(kind, lenient, reply);
    ghost var whole := Run(c, s);
    OverflowsBefore(c, s);
    a := new HttpParser(kind, lenient, reply);
    var fired, left;
    n, fired, left := a.Execute(s, c);
    InOnePiece(c, whole, a.s.errno, n, s, cut);
    b := new HttpParser(kind, lenient, reply);
    CutBefore(c, s, cut);
    ghost var d := Run(c, s[..cut]);
    var k, es, gone := b.Execute(s[..cut], c);
    RunKeepsReachable(c, s[..cut]);
    RunCoherent(c, s[..cut]);
    var l;
    l, es, gone := b.Execute(s[cut..], d);
    CutThere(d, whole, b.s.errno, l, s[cut..]);
    m := k + l;
  }

  lemma InOnePiece(c: Config, d: Config, e: Errno, n: int, s: string, cut: nat)
    requires FailsLate(c, d, e, 0, n, s) && !Settled(c, d, s) && c.used == 0 && cut == d.used < |s|
    ensures cut > 0 && (e.HeaderOverflow? ==> n > cut)
  {
    hide Run, FateOf;
    FateErrno(d.p, s[cut]);
  }

  lemma CutThere(c: Config, d: Config, e: Errno, n: int, s: string)
    requires FailsLate(c, d, e, 0, n, s) && d.used == c.used
    ensures n == 0 && e.HeaderOverflow?
  {
    hide FateOf;
  }

  lemma FateErrno(p: Parser, ch: char)
    ensures FateOf(p, ch).Errs? ==> !FateOf(p, ch).errno.HeaderOverflow?
  {}

  lemma {:induction false} OverflowsBefore(c: Config, s: string)
    requires Live(c) && Run(c, s).p.errno.HeaderOverflow?
    ensures c.used <= Run(c, s).used < c.used + |s|
    decreases |s|
  {
    hide Exec;
    var d := Step(c, s[0]);
    if Live(d) {
      OverflowsBefore(d, s[1..]);
    } else {
      RunDead(d, s[1..]);
    }
  }

  /** The machine right before the byte that is one too many. */
  lemma {:induction false} CutBefore(c: Config, s: string, cut: nat)
    requires Live(c) && Run(c, s).p.errno.HeaderOverflow? && c.used + cut == Run(c, s).used && cut < |s|
    ensures Live(Run(c, s[..cut])) && Run(c, s[..cut]).used == c.used + cut && Run(c, s) == Run(Run(c, s[..cut]), s[cut..])
    decreases |s|
  {
    hide Exec;
    if cut == 0 {
      assert s[..0] == "" && s[0..] == s;
    } else {
      var d := Step(c, s[0]);
      if Live(d) {
        CutBefore(d, s[1..], cut - 1);
        assert s[..cut][1..] == s[1..][..cut - 1] && s[1..][cut - 1..] == s[cut..];
      } else {
        RunDead(d, s[1..]);
      }
    }
  }
}
