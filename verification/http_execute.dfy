/** `http_parser_execute`: the loop over a buffer, with its marks into the buffer, its data
    callbacks made in bulk, and its inner loops over header names, header values and bodies.
    It is proved to agree with the byte-at-a-time machine. */
module HttpExecute {
  import opened HttpSyntax
  import opened HttpMachine
  import opened HttpInvariant
  import opened HttpLog
  import opened Wrappers

  /** The local variables of the loop: the parser, the marks that are set, the callbacks made so far
      in this call, and the position `p - data`. */
  datatype Local = Local(p: Parser, marks: map<DataKind, nat>, fired: seq<Event>, at: nat)

  /** MARK: leaves a mark that is already set alone. */
  function Mark(l: Local, k: DataKind): Local {
    if k in l.marks then l else l.(marks := l.marks[k := l.at])
  }

  /** CALLBACK_DATA: reports the bytes from the mark up to `end` and clears the mark. */
  function Callback(l: Local, k: DataKind, data: string, end: nat): Local
    requires k in l.marks ==> l.marks[k] <= end <= |data|
  {
    if k in l.marks
    then l.(marks := l.marks - {k}, fired := l.fired + [Data(k, data[l.marks[k]..end])])
    else l
  }

  /** The states in which some of the current body may still be unreported. */
  predicate HoldsBody(s: State) {
    s.ChunkData? || s.ChunkDataAlmostDone? || s.BodyIdentity? || s.BodyIdentityEof?
  }

  /** The marks that can be set in a state. In particular there is at most one. */
  predicate Fits(marks: map<DataKind, nat>, s: State, upto: nat) {
    && (forall k <- marks :: marks[k] <= upto)
    && (if KindOf(s).Some? then marks.Keys == {KindOf(s).value}
        else if HoldsBody(s) then marks.Keys <= {Body}
        else marks.Keys == {})
  }

  function KindPending(marks: map<DataKind, nat>, k: DataKind, data: string, upto: nat): seq<Event>
    requires upto <= |data| && forall k <- marks :: marks[k] <= upto
  {
    if k in marks then [Data(k, data[marks[k]..upto])] else []
  }

  /** The callbacks the end of the buffer would still make. */
  function Pending(marks: map<DataKind, nat>, data: string, upto: nat): seq<Event>
    requires upto <= |data| && forall k <- marks :: marks[k] <= upto
  {
    KindPending(marks, HeaderFieldData, data, upto) + KindPending(marks, HeaderValueData, data, upto) +
    KindPending(marks, Url, data, upto) + KindPending(marks, Body, data, upto) + KindPending(marks, Status, data, upto)
  }

  /** The log if the buffer ended at `upto`. */
  function View(log0: seq<Event>, l: Local, data: string, upto: nat): seq<Event>
    requires upto <= |data| && forall k <- l.marks :: l.marks[k] <= upto
  {
    PushAll(PushAll(log0, l.fired), Pending(l.marks, data, upto))
  }

  lemma ViewUnmarked(log0: seq<Event>, l: Local, data: string, upto: nat)
    requires upto <= |data| && l.marks.Keys == {}
    ensures View(log0, l, data, upto) == PushAll(log0, l.fired)
  {}

  lemma ViewMarked(log0: seq<Event>, l: Local, k: DataKind, data: string, upto: nat)
    requires upto <= |data| && l.marks.Keys == {k} && l.marks[k] <= upto
    ensures View(log0, l, data, upto) == Push(PushAll(log0, l.fired), Data(k, data[l.marks[k]..upto]))
  {
    assert Pending(l.marks, data, upto) == [Data(k, data[l.marks[k]..upto])];
    PushOne(PushAll(log0, l.fired), Data(k, data[l.marks[k]..upto]));
  }

  lemma ViewFired(log0: seq<Event>, l: Local, es: seq<Event>, data: string, upto: nat)
    requires upto <= |data| && l.marks.Keys == {}
    ensures View(log0, l.(fired := l.fired + es), data, upto) == PushAll(View(log0, l, data, upto), es)
  {
    ViewUnmarked(log0, l, data, upto);
    ViewUnmarked(log0, l.(fired := l.fired + es), data, upto);
    PushAllAppend(log0, l.fired, es);
  }

  lemma ViewExtend(log0: seq<Event>, l: Local, r: Local, k: DataKind, data: string, upto: nat, end: nat)
    requires upto <= end <= |data| && l.marks == r.marks && l.fired == r.fired
    requires l.marks.Keys == {k} && l.marks[k] <= upto
    ensures View(log0, r, data, end) == Push(View(log0, l, data, upto), Data(k, data[upto..end]))
  {
    ViewMarked(log0, l, k, data, upto);
    ViewMarked(log0, r, k, data, end);
    assert data[l.marks[k]..upto] + data[upto..end] == data[l.marks[k]..end];
    PushJoins(PushAll(log0, l.fired), k, data[l.marks[k]..upto], data[upto..end]);
  }

  lemma ViewMark(log0: seq<Event>, l: Local, k: DataKind, data: string, end: nat)
    requires l.at <= end <= |data| && l.marks.Keys == {}
    ensures Mark(l, k).marks == map[k := l.at]
    ensures View(log0, Mark(l, k), data, end) == Push(View(log0, l, data, l.at), Data(k, data[l.at..end]))
  {
    ViewUnmarked(log0, l, data, l.at);
    ViewMarked(log0, Mark(l, k), k, data, end);
  }

  lemma ViewCallback(log0: seq<Event>, l: Local, k: DataKind, data: string, upto: nat, end: nat)
    requires upto <= |data| && end <= |data| && l.marks.Keys <= {k} && (forall k <- l.marks :: l.marks[k] <= upto)
    ensures View(log0, Callback(l, k, data, upto), data, end) == View(log0, l, data, upto)
    ensures Callback(l, k, data, upto).marks.Keys == {}
  {
    var r := Callback(l, k, data, upto);
    ViewUnmarked(log0, r, data, end);
    if k in l.marks {
      ViewMarked(log0, l, k, data, upto);
      PushAllAppend(log0, l.fired, [Data(k, data[l.marks[k]..upto])]);
      PushOne(PushAll(log0, l.fired), Data(k, data[l.marks[k]..upto]));
    } else {
      ViewUnmarked(log0, l, data, upto);
    }
  }

  /** `r` is `l` after one pass of the switch with outcome `m`. */
  ghost predicate Follows(log0: seq<Event>, l: Local, r: Local, data: string, m: Micro)
    requires l.at < |data| && forall k <- l.marks :: l.marks[k] <= l.at
  {
    var upto := if m.next.Again? then l.at else l.at + 1;
    && r.p == m.p && r.at == l.at
    && (m.p.errno.Ok? ==>
          Fits(r.marks, r.p.state, upto) &&
          View(log0, r, data, upto) == PushAll(View(log0, l, data, l.at), m.events))
  }

  /** What the case of a state does with the marks. */
  datatype Action = SetMark(kind: DataKind) | Inside | Report(kind: DataKind) | SetMarkAndReport(kind: DataKind) | Notify

  function ActionOf(s: State, ch: char): Action {
    var end := ch == CR || ch == LF;
    if s.ReqSpacesBeforeUrl? then (if ch == ' ' then Notify else SetMark(Url))
    else if InUrl(s) then (if UrlMayEnd(s) && (ch == ' ' || end) then Report(Url) else Inside)
    else if s.ResStatusStart? then SetMark(Status)
    else if s.ResStatus? then (if end then Report(Status) else Inside)
    else if s.HeaderFieldStart? then (if end then Notify else SetMark(HeaderFieldData))
    else if s.HeaderValueDiscardWs? then (if ch == ' ' || ch == '\t' || end then Notify else SetMark(HeaderValueData))
    else if s.HeaderValueStart? then SetMark(HeaderValueData)
    else if s.HeaderValueDiscardLws? then (if ch == ' ' || ch == '\t' then Notify else SetMarkAndReport(HeaderValueData))
    else if s.ChunkDataAlmostDone? then Report(Body)
    else Notify
  }

  /** The single-byte machine reports what the action will report. */
  predicate Suits(s: State, m: Micro, a: Action, ch: char) {
    match a
    case SetMark(k) =>
      KindOf(s).None? && !HoldsBody(s) && KindOf(m.p.state) == Some(k) && m.events == [Data(k, if m.next.Again? then "" else [ch])]
    case Inside =>
      KindOf(s).Some? && KindOf(m.p.state) == KindOf(s) && m.next.Break? && m.events == [Data(KindOf(s).value, [ch])]
    case Report(k) =>
      (KindOf(s) == Some(k) || (s.ChunkDataAlmostDone? && k == Body)) && KindOf(m.p.state).None? && !HoldsBody(m.p.state) &&
      m.next.Break? && m.events == []
    case SetMarkAndReport(k) =>
      KindOf(s).None? && !HoldsBody(s) && KindOf(m.p.state).None? && !HoldsBody(m.p.state) &&
      m.next.Again? && m.events == [Data(k, "")]
    case Notify =>
      KindOf(s).None? && !HoldsBody(s) && KindOf(m.p.state).None?
  }

  lemma FixedSuits(p: Parser, ch: char)
    requires p.errno.Ok? && !IsBulk(p.state) && PhaseOf(p.state).InFixed?
    ensures var m := Expect(p, ch); m.p.errno.Ok? ==> Suits(p.state, m, ActionOf(p.state, ch), ch)
  {
    hide Advances, Reports;
  }

  lemma StartSuits(p: Parser, ch: char)
    requires p.errno.Ok? && !IsBulk(p.state) && PhaseOf(p.state).InStart?
    ensures var m := DispatchStart(p, ch); m.p.errno.Ok? ==> Suits(p.state, m, ActionOf(p.state, ch), ch)
  {
    hide Advances, Reports, MethodByte, MethodName, FirstLetter, IsFirstLetter;
  }

  lemma UrlSuits(p: Parser, ch: char)
    requires p.errno.Ok? && !IsBulk(p.state) && PhaseOf(p.state).InUrlPart?
    ensures var m := DispatchUrl(p, ch); m.p.errno.Ok? ==> Suits(p.state, m, ActionOf(p.state, ch), ch)
  {
    hide Advances, Reports, ParseUrlChar;
    ParseUrlCharStaysInUrl(p.state, ch);
    ParseUrlCharStaysInUrl(ReqServerStart, ch);
  }

  lemma VersionSuits(p: Parser, ch: char)
    requires p.errno.Ok? && !IsBulk(p.state) && PhaseOf(p.state).InVersion?
    ensures var m := DispatchVersion(p, ch); m.p.errno.Ok? ==> Suits(p.state, m, ActionOf(p.state, ch), ch)
  {}

  lemma StatusSuits(p: Parser, ch: char)
    requires p.errno.Ok? && !IsBulk(p.state) && PhaseOf(p.state).InStatus?
    ensures var m := DispatchStatus(p, ch); m.p.errno.Ok? ==> Suits(p.state, m, ActionOf(p.state, ch), ch)
  {
    hide Advances, Reports;
  }

  lemma HeaderNameSuits(p: Parser, ch: char)
    requires p.errno.Ok? && !IsBulk(p.state) && PhaseOf(p.state).InHeaderName?
    ensures var m := DispatchHeaderName(p, ch); m.p.errno.Ok? ==> Suits(p.state, m, ActionOf(p.state, ch), ch)
  {
    hide Advances, Reports, FieldByte, FirstFieldByte;
  }

  lemma HeaderValueSuits(p: Parser, ch: char)
    requires p.errno.Ok? && !IsBulk(p.state) && PhaseOf(p.state).InHeaderValue?
    ensures var m := DispatchHeaderValue(p, ch); m.p.errno.Ok? ==> Suits(p.state, m, ActionOf(p.state, ch), ch)
  {}

  lemma EndOfValueSuits(p: Parser, ch: char)
    requires p.errno.Ok? && !IsBulk(p.state) && PhaseOf(p.state).InEndOfValue?
    ensures var m := DispatchEndOfValue(p, ch); m.p.errno.Ok? ==> Suits(p.state, m, ActionOf(p.state, ch), ch)
  {
    hide Advances, Reports, FinishHeader;
  }

  lemma ChunkSuits(p: Parser, ch: char)
    requires p.errno.Ok? && !IsBulk(p.state) && PhaseOf(p.state).InChunk?
    ensures var m := DispatchChunk(p, ch); m.p.errno.Ok? ==> Suits(p.state, m, ActionOf(p.state, ch), ch)
  {
    hide Advances, Reports, ChunkSizeDigit;
  }

  lemma RestSuits(p: Parser, ch: char)
    requires p.errno.Ok? && !IsBulk(p.state) && PhaseOf(p.state).InRest?
    ensures var m := DispatchRest(p, ch); m.p.errno.Ok? ==> Suits(p.state, m, ActionOf(p.state, ch), ch)
  {}

  lemma HeadersEndSuits(p: Parser, ch: char)
    requires p.errno.Ok? && PhaseOf(p.state).InHeadersEnd?
    ensures var m := if p.state.HeadersAlmostDone? then EndOfHeaders(p, ch) else HeadersAreDone(p, ch);
            m.p.errno.Ok? ==> Suits(p.state, m, ActionOf(p.state, ch), ch)
  {}

  lemma ActionSuits(p: Parser, ch: char)
    requires p.errno.Ok? && !IsBulk(p.state)
    ensures var m := Dispatch(p, ch); m.p.errno.Ok? ==> Suits(p.state, m, ActionOf(p.state, ch), ch)
  {
    hide Suits, ActionOf, Expect, DispatchVersion, DispatchStatus, DispatchStart, DispatchUrl, DispatchHeaderName,
         DispatchHeaderValue, DispatchEndOfValue, EndOfHeaders, HeadersAreDone, DispatchChunk, DispatchRest;
    match PhaseOf(p.state)
    case InFixed => FixedSuits(p, ch);
    case InStart => StartSuits(p, ch);
    case InUrlPart => UrlSuits(p, ch);
    case InVersion => VersionSuits(p, ch);
    case InStatus => StatusSuits(p, ch);
    case InHeaderName => HeaderNameSuits(p, ch);
    case InHeaderValue => HeaderValueSuits(p, ch);
    case InEndOfValue => EndOfValueSuits(p, ch);
    case InChunk => ChunkSuits(p, ch);
    case InRest => RestSuits(p, ch);
    case InHeadersEnd => HeadersEndSuits(p, ch);
  }

  /** A pass that fails makes no callback. */
  lemma FailsQuietly(p: Parser, ch: char)
    requires p.errno.Ok? && !IsBulk(p.state)
    ensures !Dispatch(p, ch).p.errno.Ok? ==> Dispatch(p, ch).events == []
  {
    hide Advances, Reports, ParseUrlChar, FieldByte, FirstFieldByte, MethodByte, ChunkSizeDigit, FinishHeader, ValueStart, ValueByte;
  }

  /** The marks and callbacks of one pass. */
  function Act(l: Local, m: Micro, a: Action, data: string): Local
    requires l.at < |data| && forall k <- l.marks :: l.marks[k] <= l.at
  {
    var r := l.(p := m.p);
    match a
    case SetMark(k) => Mark(r, k)
    case Inside => r
    case Report(k) => Callback(r, k, data, r.at)
    case SetMarkAndReport(k) => Callback(Mark(r, k), k, data, r.at)
    case Notify => r.(fired := r.fired + m.events)
  }

  ghost predicate SwitchedOnce(log0: seq<Event>, l: Local, r: Local, next: Next, data: string)
    requires l.at < |data| && forall k <- l.marks :: l.marks[k] <= l.at
  {
    var m := Dispatch(l.p, data[l.at]);
    && next == m.next && Follows(log0, l, r, data, m)
    && (!m.p.errno.Ok? ==> r.fired == l.fired && m.events == [])
  }

  lemma OneSlice(data: string, i: nat)
    requires i < |data|
    ensures data[i..i + 1] == [data[i]] && data[i..i] == ""
  {}

  lemma SetMarkFollows(log0: seq<Event>, l: Local, r: Local, m: Micro, a: Action, data: string)
    requires a.SetMark?
    requires l.at < |data| && Fits(l.marks, l.p.state, l.at) && m.p.errno.Ok?
    requires Suits(l.p.state, m, a, data[l.at]) && r == Act(l, m, a, data)
    ensures Follows(log0, l, r, data, m)
  {
    hide PushAll, KindOf, HoldsBody;
    var upto := if m.next.Again? then l.at else l.at + 1;
    var view := View(log0, l, data, l.at);
    var q := l.(p := m.p);
    OneSlice(data, l.at);
    var k := a.kind;
    ViewMark(log0, q, k, data, upto);
    PushOne(view, m.events[0]);
  }

  lemma InsideFollows(log0: seq<Event>, l: Local, r: Local, m: Micro, a: Action, data: string)
    requires a.Inside?
    requires l.at < |data| && Fits(l.marks, l.p.state, l.at) && m.p.errno.Ok?
    requires Suits(l.p.state, m, a, data[l.at]) && r == Act(l, m, a, data)
    ensures Follows(log0, l, r, data, m)
  {
    hide PushAll, KindOf, HoldsBody;
    var view := View(log0, l, data, l.at);
    var q := l.(p := m.p);
    OneSlice(data, l.at);
    ViewExtend(log0, l, q, KindOf(l.p.state).value, data, l.at, l.at + 1);
    PushOne(view, m.events[0]);
  }

  lemma ReportFollows(log0: seq<Event>, l: Local, r: Local, m: Micro, a: Action, data: string)
    requires a.Report?
    requires l.at < |data| && Fits(l.marks, l.p.state, l.at) && m.p.errno.Ok?
    requires Suits(l.p.state, m, a, data[l.at]) && r == Act(l, m, a, data)
    ensures Follows(log0, l, r, data, m)
  {
    hide PushAll;
    var q := l.(p := m.p);
    OneSlice(data, l.at);
    var k := a.kind;
    ViewCallback(log0, q, k, data, l.at, l.at + 1);
    PushNone(View(log0, l, data, l.at));
  }

  lemma SetMarkAndReportFollows(log0: seq<Event>, l: Local, r: Local, m: Micro, a: Action, data: string)
    requires a.SetMarkAndReport?
    requires l.at < |data| && Fits(l.marks, l.p.state, l.at) && m.p.errno.Ok?
    requires Suits(l.p.state, m, a, data[l.at]) && r == Act(l, m, a, data)
    ensures Follows(log0, l, r, data, m)
  {
    hide PushAll, KindOf, HoldsBody;
    var view := View(log0, l, data, l.at);
    var q := l.(p := m.p);
    OneSlice(data, l.at);
    var k := a.kind;
    ViewMark(log0, q, k, data, l.at);
    ViewCallback(log0, Mark(q, k), k, data, l.at, l.at);
    PushOne(view, m.events[0]);
  }

  lemma NotifyFollows(log0: seq<Event>, l: Local, r: Local, m: Micro, a: Action, data: string)
    requires a.Notify?
    requires l.at < |data| && Fits(l.marks, l.p.state, l.at) && m.p.errno.Ok?
    requires Suits(l.p.state, m, a, data[l.at]) && r == Act(l, m, a, data)
    ensures Follows(log0, l, r, data, m)
  {
    hide PushAll, KindOf, HoldsBody;
    var upto := if m.next.Again? then l.at else l.at + 1;
    var q := l.(p := m.p);
    OneSlice(data, l.at);
    ViewFired(log0, q, m.events, data, upto);
    ViewUnmarked(log0, q, data, l.at);
    ViewUnmarked(log0, q, data, upto);
  }

  lemma ActionFollows(log0: seq<Event>, l: Local, r: Local, m: Micro, a: Action, data: string)
    requires l.at < |data| && Fits(l.marks, l.p.state, l.at) && m.p.errno.Ok?
    requires Suits(l.p.state, m, a, data[l.at]) && r == Act(l, m, a, data)
    ensures Follows(log0, l, r, data, m)
  {
    hide Follows, Fits, Suits, Act;
    match a {
      case SetMark(_) => SetMarkFollows(log0, l, r, m, a, data);
      case Inside => InsideFollows(log0, l, r, m, a, data);
      case Report(_) => ReportFollows(log0, l, r, m, a, data);
      case SetMarkAndReport(_) => SetMarkAndReportFollows(log0, l, r, m, a, data);
      case Notify => NotifyFollows(log0, l, r, m, a, data);
    }
  }

  /** One pass through the switch for a state whose case looks at a single byte. The parser moves
      as `Dispatch` says; data callbacks are made through the marks. */
  method SwitchOnce(l: Local, data: string, ghost log0: seq<Event>) returns (r: Local, next: Next)
    requires l.at < |data| && l.p.errno.Ok? && !IsBulk(l.p.state) && Fits(l.marks, l.p.state, l.at)
    ensures SwitchedOnce(log0, l, r, next, data)
  {
    var m := Dispatch(l.p, data[l.at]);
    var a := ActionOf(l.p.state, data[l.at]);
    ActionSuits(l.p, data[l.at]);
    if m.p.errno.Ok? {
      r, next := Act(l, m, a, data), m.next;
      ActionFollows(log0, l, r, m, a, data);
    } else {
      r, next := l.(p := m.p), m.next;
      FailsQuietly(l.p, data[l.at]);
    }
  }
}
