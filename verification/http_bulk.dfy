/** The inner loops of `http_parser_execute`: header names, header values and bodies. */
module HttpBulk {
  import opened HttpSyntax
  import opened HttpMachine
  import opened HttpInvariant
  import opened HttpLog
  import opened HttpExecute

  const UINT32_RANGE: nat := 0x1_0000_0000

  /** COUNT_HEADER_SIZE(v) on the 32-bit counter. */
  function CountMore(p: Parser, v: nat): Parser {
    var n := (p.nread + v % UINT32_RANGE) % UINT32_RANGE;
    if n > MAX_HEADER_SIZE then p.(nread := n, errno := HeaderOverflow) else p.(nread := n)
  }

  /** The machine is exactly where the loop is once it has finished with the bytes before `upto`. */
  ghost predicate Exact(log0: seq<Event>, d: Config, r: Local, data: string, upto: nat) {
    && upto <= |data| && Fits(r.marks, r.p.state, upto)
    && Live(d) && d.p == r.p && d.log == View(log0, r, data, upto)
  }

  /** The loop may go on with the switch for the byte at `r.at`, which the machine is about to read. */
  ghost predicate Resumes(log0: seq<Event>, d: Config, r: Local, data: string) {
    && r.at < |data| && r.p.errno.Ok? && !IsBulk(r.p.state) && Fits(r.marks, r.p.state, r.at)
    && Live(d) && Count(d.p).errno.Ok?
    && var whole, rest := Exec(Count(d.p), data[r.at]), Exec(r.p, data[r.at]);
       whole.p == rest.p && whole.next == rest.next &&
       PushAll(d.log, whole.events) == PushAll(View(log0, r, data, r.at), rest.events)
  }

  // ---------------------------------------------------------------- failures

  /** The states whose case counts the header bytes only when it ends. */
  predicate InLoop(s: State) {
    s.HeaderField? || s.HeaderValue?
  }

  /** What the loop over a header name or value does with a byte: goes on, ends the item, or fails before
      the bytes are counted. */
  datatype Fate = GoesOn | Ends | Errs(errno: Errno)

  function FateOf(p: Parser, ch: char): Fate {
    if p.state.HeaderField? then (if IsToken(ch) then GoesOn else Ends)
    else if ch == CR || ch == LF then Ends
    else if !p.lenient && !IsHeaderChar(ch) then Errs(InvalidHeaderToken)
    else var e := NextValue(ValueOf(p.(errno := Ok)), ch).errno; if e.Ok? then GoesOn else Errs(e)
  }

  /** The machine stopped at `o` for too many header bytes, in a name or value that it was already reading at
      the byte before. */
  ghost predicate WithinItem(c: Config, d: Config, from: nat, o: int, data: string) {
    from < o <= |data| && InLoop(d.p.state) && Run(c, data[from..o - 1]).p.state == d.p.state
  }

  /** The machine has seen too many header bytes, at the byte `o`. A loop that reads `o` together with the byte
      before finds out only when the item ends: it then fails there, or before that with another error. */
  ghost predicate FailsLate(c: Config, d: Config, e: Errno, from: nat, at: int, data: string) {
    var o := from + (d.used - c.used);
    from <= o <= at && o < |data| && FailsWith(WithinItem(c, d, from, o, data), FateOf(d.p, data[o]), e, at - o, o + 1 == |data|)
  }

  /** `e` is the error of a loop that fails `late` bytes after the first byte too many; `within`: it has read the
      byte before; `f` is what it does with that byte, `last` that it is the last of the buffer. */
  predicate FailsWith(within: bool, f: Fate, e: Errno, late: int, last: bool) {
    if !within || f.Ends? then late == 0 && e.HeaderOverflow?
    else if f.Errs? then late == 0 && e == f.errno
    else if last then late == 0 && e.HeaderOverflow?
    else late > 0
  }

  /** The callbacks made so far are those of the machine, but for an item that is still being read. */
  ghost predicate Unreported(log0: seq<Event>, fired: seq<Event>, log: seq<Event>) {
    log == PushAll(log0, fired) || exists e :: log == Push(PushAll(log0, fired), e)
  }

  /** The callbacks made when the machine stops for too many header bytes: the same, or, when a value is read to its end
      at `at`, that value whole, since its callback is made before its bytes are counted. */
  ghost predicate Tells(log0: seq<Event>, c: Config, d: Config, fired: seq<Event>, from: nat, at: int, data: string) {
    var o := from + (d.used - c.used);
    || Unreported(log0, fired, d.log)
    || (0 <= o <= at < |data| && d.p.state.HeaderValue? && data[at] == CR &&
        PushAll(log0, fired) == Push(d.log, Data(HeaderValueData, data[o..at])))
  }

  /** The loop has failed at `r.at`, and the machine too: there, with the same error, after the same
      callbacks, or earlier for too many header bytes. */
  ghost predicate Blames(log0: seq<Event>, c: Config, d: Config, r: Local, from: nat, data: string) {
    && from <= r.at < |data| && !r.p.errno.Ok? && !d.p.errno.Ok?
    && if d.p.errno.HeaderOverflow? then FailsLate(c, d, r.p.errno, from, r.at, data) && Tells(log0, c, d, r.fired, from, r.at, data)
       else d.p.errno == r.p.errno && d.used == c.used + (r.at - from) && Unreported(log0, r.fired, d.log)
  }

  lemma ViewUnreported(log0: seq<Event>, l: Local, s: State, data: string, upto: nat)
    requires upto <= |data| && Fits(l.marks, s, upto)
    ensures Unreported(log0, l.fired, View(log0, l, data, upto))
  {
    hide Push, PushAll, Pending;
    if l.marks.Keys == {} {
      ViewUnmarked(log0, l, data, upto);
    } else {
      var k :| k in l.marks;
      assert l.marks.Keys == {k};
      ViewMarked(log0, l, k, data, upto);
    }
  }

  /** What a bulk case promises: it starts at `l.at` and ends at `r.at`. */
  ghost predicate Bulk(log0: seq<Event>, c: Config, l: Local, r: Local, next: Next, data: string) {
    && l.at <= r.at < |data|
    && if !r.p.errno.Ok? then Blames(log0, c, Run(c, data[l.at..r.at + 1]), r, l.at, data)
       else if next.Break? then
         Exact(log0, Run(c, data[l.at..r.at + 1]), r, data, r.at + 1) && (InLoop(r.p.state) ==> r.at + 1 == |data|)
       else
         next.Again? && Resumes(log0, Run(c, data[l.at..r.at]), r, data) && EndsItem(r.p.state, data[r.at])
  }

  /** The states in which a bulk case asks for the same byte again. */
  predicate EndsItem(s: State, ch: char) {
    (s.HeaderAlmostDone? && ch == LF) || s.MessageDone?
  }

  /** The situation in which a bulk case is entered. */
  ghost predicate Enters(log0: seq<Event>, c: Config, l: Local, data: string) {
    && l.at < |data| < UINT32_RANGE - MAX_HEADER_SIZE
    && Live(c) && Count(c.p).errno.Ok? && l.p == Count(c.p)
    && Fits(l.marks, l.p.state, l.at) && c.log == View(log0, l, data, l.at)
  }

  // ---------------------------------------------------------------- header bytes in bulk

  /** The loop holds `q` and has consumed the bytes before `j`; the byte count is still that of the
      first byte. */
  ghost predicate Tracks(log0: seq<Event>, c: Config, l: Local, q: Parser, data: string, j: nat) {
    && l.at <= j <= |data| && (forall k <- l.marks :: l.marks[k] <= l.at)
    && q.errno.Ok? && q.nread == l.p.nread && q.state == l.p.state && InLoop(q.state)
    && (forall i: nat :: l.at <= i <= j && c.p.nread + (i - l.at) <= MAX_HEADER_SIZE ==> StateAt(c, data, l.at, i) == q.state)
    && var d := Run(c, data[l.at..j]);
       if c.p.nread + (j - l.at) > MAX_HEADER_SIZE then TooMany(log0, c, d, l, q.state, data, j)
       else Live(d) && d.p == q.(nread := c.p.nread + (j - l.at)) && d.log == View(log0, l, data, j) &&
            d.used == c.used + (j - l.at)
  }

  function StateAt(c: Config, data: string, from: nat, i: nat): State
    requires from <= i <= |data|
  {
    Run(c, data[from..i]).p.state
  }

  /** The machine has stopped before `j`, at a byte with which the loop went on. */
  ghost predicate TooMany(log0: seq<Event>, c: Config, d: Config, l: Local, s: State, data: string, j: nat) {
    var o := l.at + MAX_HEADER_SIZE - c.p.nread;
    && l.at <= o < j <= |data| && (forall k <- l.marks :: l.marks[k] <= l.at) && d.log == View(log0, l, data, o)
    && d.p.errno.HeaderOverflow? && d.p.state == s && d.used == c.used + (o - l.at)
    && FateOf(d.p, data[o]).GoesOn?
  }

  lemma FateIgnores(p: Parser, n: nat, e: Errno, ch: char)
    ensures FateOf(p.(nread := n, errno := e), ch) == FateOf(p, ch)
  {}

  /** What the machine does with the byte, should it not be one too many. */
  lemma FateIs(p: Parser, ch: char)
    requires InLoop(p.state) && p.errno.Ok?
    ensures var m := Dispatch(p, ch); var f := FateOf(p, ch);
            && (m.p.errno.Ok? && m.p.state == p.state <==> f.GoesOn?)
            && (p.state.HeaderValue? ==> f == if m.p.errno.Ok? then f else Errs(m.p.errno))
  {
    hide Dispatch, NextValue, IsHeaderChar, IsToken, FieldByte;
    if p.state.HeaderField? {
      FieldDispatch(p, ch);
    } else {
      ValueDispatch(p, ch);
    }
  }

  lemma TracksStart(log0: seq<Event>, c: Config, l: Local, data: string)
    requires Enters(log0, c, l, data) && InLoop(c.p.state)
    ensures Tracks(log0, c, l, l.p, data, l.at)
  {
    assert data[l.at..l.at] == "";
  }

  lemma NextSlice(data: string, i: nat, j: nat)
    requires i <= j < |data|
    ensures data[i..j + 1] == data[i..j] + [data[j]]
  {}

  lemma StepOnePass(d: Config, q: Parser, ch: char, e: Event)
    requires Live(d) && Count(d.p).errno.Ok? && Dispatch(Count(d.p), ch) == Micro(q, [e], Break)
    ensures Step(d, ch) == Config(q, Push(d.log, e), if q.errno.Ok? then d.used + 1 else d.used, false)
  {
    hide Dispatch;
    PushOne(d.log, e);
  }

  /** The count of the byte at `j`. */
  function CountAt(c: Config, l: Local, j: nat): (n: nat)
    requires l.at <= j
  {
    c.p.nread + (j + 1 - l.at)
  }

  /** One more data byte of the item the loop is in. */
  lemma TracksByte(log0: seq<Event>, c: Config, l: Local, q: Parser, q': Parser, k: DataKind, data: string, j: nat)
    requires Tracks(log0, c, l, q, data, j) && j < |data| && l.marks.Keys == {k}
    requires q'.errno.Ok? && q'.state == q.state && q'.nread == q.nread
    requires var n := CountAt(c, l, j);
             Dispatch(q.(nread := n), data[j]) == Micro(q'.(nread := n), [Data(k, [data[j]])], Break)
    ensures Tracks(log0, c, l, q', data, j + 1)
  {
    hide Dispatch, Step, View, TooMany, FateOf, Run;
    var d := Run(c, data[l.at..j]);
    NextSlice(data, l.at, j);
    RunSnoc(c, data[l.at..j], data[j]);
    if c.p.nread + (j - l.at) > MAX_HEADER_SIZE {
      StillTooMany(log0, c, d, l, q.state, data, j);
    } else if CountAt(c, l, j) <= MAX_HEADER_SIZE {
      StepOnePass(d, q'.(nread := CountAt(c, l, j)), data[j], Data(k, [data[j]]));
      assert data[j..j + 1] == [data[j]];
      ViewExtend(log0, l, l, k, data, j, j + 1);
    } else {
      FateIs(q.(nread := CountAt(c, l, j)), data[j]);
      FirstTooMany(log0, c, d, l, q, data, j);
    }
  }

  lemma StillTooMany(log0: seq<Event>, c: Config, d: Config, l: Local, s: State, data: string, j: nat)
    requires TooMany(log0, c, d, l, s, data, j) && j < |data|
    ensures Step(d, data[j]) == d && TooMany(log0, c, d, l, s, data, j + 1)
  {
    hide FateOf, View;
  }

  lemma FirstTooMany(log0: seq<Event>, c: Config, d: Config, l: Local, q: Parser, data: string, j: nat)
    requires l.at <= j < |data| && InLoop(q.state) && q.errno.Ok?
    requires c.p.nread + (j - l.at) <= MAX_HEADER_SIZE < CountAt(c, l, j)
    requires Live(d) && d.p == q.(nread := c.p.nread + (j - l.at)) && d.used == c.used + (j - l.at)
    requires (forall k <- l.marks :: l.marks[k] <= l.at) && d.log == View(log0, l, data, j)
    requires FateOf(q.(nread := CountAt(c, l, j)), data[j]).GoesOn?
    ensures TooMany(log0, c, Step(d, data[j]), l, q.state, data, j + 1)
  {
    hide View;
    var n := CountAt(c, l, j);
    var e := Step(d, data[j]);
    assert e == d.(p := q.(nread := n, errno := HeaderOverflow));
    FateIgnores(q.(nread := n), n, HeaderOverflow, data[j]);
    hide FateOf, Step;
  }

  lemma StepFails(d: Config, ch: char)
    requires Live(d) && Count(d.p).errno.Ok?
    requires var m := Dispatch(Count(d.p), ch); !m.p.errno.Ok? && !m.next.Again?
    ensures var e := Step(d, ch); e.p.errno == Dispatch(Count(d.p), ch).p.errno && e.used == d.used
    ensures Dispatch(Count(d.p), ch).events == [] ==> Step(d, ch).log == d.log
  {
    hide Dispatch;
  }

  /** A loop that fails at `j` although the machine has stopped for too many bytes by then. */
  lemma FailsAfter(log0: seq<Event>, c: Config, l: Local, q: Parser, data: string, j: nat, d: Config, e: Errno)
    requires l.at < j < |data| && InLoop(q.state) && q.errno.Ok? && !e.Ok? && c.p.nread < MAX_HEADER_SIZE
    requires forall i: nat :: l.at <= i <= j && c.p.nread + (i - l.at) <= MAX_HEADER_SIZE ==> StateAt(c, data, l.at, i) == q.state
    requires if c.p.nread + (j - l.at) > MAX_HEADER_SIZE then TooMany(log0, c, d, l, q.state, data, j)
             else c.p.nread + (j - l.at) == MAX_HEADER_SIZE && d.p == q.(nread := CountAt(c, l, j), errno := HeaderOverflow) &&
                  d.used == c.used + (j - l.at) &&
                  match FateOf(q, data[j])
                  case GoesOn => j + 1 == |data| && e.HeaderOverflow?
                  case Ends => e.HeaderOverflow?
                  case Errs(x) => e == x
    ensures d.p.errno.HeaderOverflow? && FailsLate(c, d, e, l.at, j, data)
  {
    hide FateOf, Run, View;
    var o := l.at + (d.used - c.used);
    if c.p.nread + (j - l.at) <= MAX_HEADER_SIZE {
      FateIgnores(q, CountAt(c, l, j), HeaderOverflow, data[j]);
    }
    if o > l.at {
      assert StateAt(c, data, l.at, o - 1) == q.state;
    }
  }

  /** The byte at `j` is one the loop rejects. */
  lemma TracksFailure(log0: seq<Event>, c: Config, l: Local, q: Parser, e: Errno, data: string, j: nat, r: Local)
    requires Enters(log0, c, l, data) && Tracks(log0, c, l, q, data, j) && j < |data| && !e.Ok? && !e.HeaderOverflow?
    requires q.state.HeaderValue? || CountAt(c, l, j) <= MAX_HEADER_SIZE
    requires var m := Dispatch(q.(nread := CountAt(c, l, j)), data[j]); m.p.errno == e && m.next.Break? && m.events == []
    requires r.p.errno == e && r.at == j && r.fired == l.fired
    ensures Bulk(log0, c, l, r, Break, data)
  {
    hide Dispatch, Step, View, TooMany, FateOf, Run, Unreported, FailsLate;
    var d := Run(c, data[l.at..j]);
    NextSlice(data, l.at, j);
    RunSnoc(c, data[l.at..j], data[j]);
    TracksUnreported(log0, c, l, q, data, j);
    FateIs(q.(nread := CountAt(c, l, j)), data[j]);
    FateIgnores(q, CountAt(c, l, j), Ok, data[j]);
    if c.p.nread + (j - l.at) > MAX_HEADER_SIZE {
      StillTooMany(log0, c, d, l, q.state, data, j);
      FailsAfter(log0, c, l, q, data, j, d, e);
    } else if CountAt(c, l, j) <= MAX_HEADER_SIZE {
      StepFails(d, data[j]);
    } else {
      StepTooMany(d, data[j]);
      FailsAfter(log0, c, l, q, data, j, Step(d, data[j]), e);
    }
  }

  lemma TracksUnreported(log0: seq<Event>, c: Config, l: Local, q: Parser, data: string, j: nat)
    requires Enters(log0, c, l, data) && Tracks(log0, c, l, q, data, j)
    ensures Unreported(log0, l.fired, Run(c, data[l.at..j]).log)
  {
    hide Run, FateOf, Unreported, View;
    var o := if c.p.nread + (j - l.at) > MAX_HEADER_SIZE then l.at + MAX_HEADER_SIZE - c.p.nread else j;
    ViewUnreported(log0, l, l.p.state, data, o);
  }

  lemma StepTooMany(d: Config, ch: char)
    requires Live(d) && ParsingHeader(d.p.state) && d.p.nread == MAX_HEADER_SIZE
    ensures Step(d, ch) == d.(p := d.p.(nread := MAX_HEADER_SIZE + 1, errno := HeaderOverflow))
  {}

  /** The count made at the end of the loop overflows: so has the machine by the byte at `j`. */
  lemma TracksOverflow(log0: seq<Event>, c: Config, l: Local, q: Parser, data: string, j: nat, r: Local)
    requires Enters(log0, c, l, data) && Tracks(log0, c, l, q, data, j) && j < |data| && FateOf(q, data[j]).Ends?
    requires CountAt(c, l, j) > MAX_HEADER_SIZE && r.p.errno.HeaderOverflow? && r.at == j
    requires r.fired == l.fired || (q.state.HeaderValue? && data[j] == CR && l.marks.Keys == {HeaderValueData} &&
                                    r.fired == Callback(l.(p := r.p, at := j), HeaderValueData, data, j).fired)
    ensures Bulk(log0, c, l, r, Break, data)
  {
    hide Step, View, TooMany, FateOf, Run, FailsLate, Unreported;
    var d := Run(c, data[l.at..j]);
    NextSlice(data, l.at, j);
    RunSnoc(c, data[l.at..j], data[j]);
    TracksUnreported(log0, c, l, q, data, j);
    if r.fired != l.fired {
      ReportedWhole(log0, c, l, q, data, j, r);
    }
    if c.p.nread + (j - l.at) > MAX_HEADER_SIZE {
      StillTooMany(log0, c, d, l, q.state, data, j);
      FailsAfter(log0, c, l, q, data, j, d, HeaderOverflow);
    } else {
      StepTooMany(d, data[j]);
      FailsAfter(log0, c, l, q, data, j, Step(d, data[j]), HeaderOverflow);
    }
  }

  /** A value that is reported at its end, although the machine has stopped in it. */
  lemma ReportedWhole(log0: seq<Event>, c: Config, l: Local, q: Parser, data: string, j: nat, r: Local)
    requires Tracks(log0, c, l, q, data, j) && j < |data| && CountAt(c, l, j) > MAX_HEADER_SIZE && l.marks.Keys == {HeaderValueData}
    requires r.fired == Callback(l.(p := r.p, at := j), HeaderValueData, data, j).fired
    ensures var d := Run(c, data[l.at..j]); var o := l.at + (d.used - c.used);
            l.at <= o <= j && d.p.state == q.state && PushAll(log0, r.fired) == Push(d.log, Data(HeaderValueData, data[o..j]))
  {
    hide Run, FateOf, View, Push, PushAll;
    var d := Run(c, data[l.at..j]);
    var o := l.at + (d.used - c.used);
    var ended := l.(p := r.p, at := j);
    ViewSame(log0, l, ended, data, j);
    ViewCallback(log0, ended, HeaderValueData, data, j, j);
    ViewUnmarked(log0, Callback(ended, HeaderValueData, data, j), data, j);
    ViewExtend(log0, l, l, HeaderValueData, data, o, j);
  }

  /** COUNT_HEADER_SIZE(p - start) at the byte `j` gives the count of that byte. */
  lemma CountMoreIsCountAt(log0: seq<Event>, c: Config, l: Local, q: Parser, data: string, j: nat)
    requires Enters(log0, c, l, data) && InLoop(c.p.state) && l.at <= j < |data|
    requires q.nread == l.p.nread && q.errno.Ok?
    ensures var p := CountMore(q, j - l.at); var n := CountAt(c, l, j);
            p == if n > MAX_HEADER_SIZE then q.(nread := n, errno := HeaderOverflow) else q.(nread := n)
  {}

  /** The byte at `j` ends the item, and the item is reported. */
  lemma TracksEnd(log0: seq<Event>, c: Config, l: Local, q: Parser, p: Parser, k: DataKind, data: string, j: nat, r: Local)
    requires Tracks(log0, c, l, q, data, j) && j < |data| && l.marks.Keys == {k}
    requires CountAt(c, l, j) <= MAX_HEADER_SIZE && p.errno.Ok? && KindOf(p.state).None? && !HoldsBody(p.state)
    requires Dispatch(q.(nread := CountAt(c, l, j)), data[j]) == Micro(p, [], Break)
    requires r == Callback(l.(p := p, at := j), k, data, j)
    ensures Bulk(log0, c, l, r, Break, data)
  {
    hide Dispatch, Step, Run, Pending;
    var d := Run(c, data[l.at..j]);
    NextSlice(data, l.at, j);
    RunSnoc(c, data[l.at..j], data[j]);
    StepQuiet(d, p, data[j]);
    ViewCallback(log0, l, k, data, j, j + 1);
  }

  lemma StepQuiet(d: Config, q: Parser, ch: char)
    requires Live(d) && Count(d.p).errno.Ok? && Dispatch(Count(d.p), ch) == Micro(q, [], Break)
    ensures Step(d, ch) == Config(q, d.log, if q.errno.Ok? then d.used + 1 else d.used, false)
  {
    hide Dispatch;
  }

  /** The buffer ends inside the item. */
  lemma TracksToEnd(log0: seq<Event>, c: Config, l: Local, q: Parser, data: string, r: Local)
    requires Enters(log0, c, l, data) && Tracks(log0, c, l, q, data, |data|) && Fits(l.marks, q.state, l.at)
    requires var n := CountAt(c, l, |data| - 1);
             r == l.(p := if n > MAX_HEADER_SIZE then q.(nread := n, errno := HeaderOverflow) else q.(nread := n), at := |data| - 1)
    ensures Bulk(log0, c, l, r, Break, data)
  {
    hide Run, View, FateOf, Unreported;
    assert r.at + 1 == |data|;
    TracksUnreported(log0, c, l, q, data, |data|);
    ViewSame(log0, l, r, data, |data|);
    if CountAt(c, l, |data| - 1) > MAX_HEADER_SIZE {
      var d := Run(c, data[l.at..|data|]);
      var o := l.at + (d.used - c.used);
      assert TooMany(log0, c, d, l, q.state, data, |data|) && o > l.at;
      assert StateAt(c, data, l.at, o - 1) == q.state;
      assert FailsLate(c, d, HeaderOverflow, l.at, r.at, data);
    }
  }

  lemma FieldDispatch(p: Parser, ch: char)
    requires p.state.HeaderField?
    ensures IsToken(ch) ==> var (h, i) := FieldByte(p.headerState, p.index, ch);
                            Dispatch(p, ch) == Micro(p.(headerState := h, index := i), [Data(HeaderFieldData, [ch])], Break)
    ensures IsToken(ch) && p.headerState.General? ==> Dispatch(p, ch) == Micro(p, [Data(HeaderFieldData, [ch])], Break)
    ensures !IsToken(ch) ==> Dispatch(p, ch) == if ch == ':' then Go(p, HeaderValueDiscardWs) else Fail(p, InvalidHeaderToken)
  {}

  /** The case s_header_field: its loop over the characters of the name ... */
  method HeaderFieldLoop(l: Local, data: string, ghost c: Config, ghost log0: seq<Event>) returns (q: Parser, j: nat)
    requires Enters(log0, c, l, data) && c.p.state.HeaderField? && IsFieldState(c.p.headerState)
    ensures Tracks(log0, c, l, q, data, j)
    ensures j < |data| ==> !IsToken(data[j])
  {
    hide Dispatch, View, Run, FieldByte, IsToken, PhaseOf, Step;
    q, j := l.p, l.at;
    TracksStart(log0, c, l, data);
    while j < |data| && IsToken(data[j])
      invariant Tracks(log0, c, l, q, data, j)
    {
      FieldDispatch(q.(nread := CountAt(c, l, j)), data[j]);
      if q.headerState.General? {
        // look ahead for the end of a name that is not special
        var left := |data| - j;
        var pe := j + if left < MAX_HEADER_SIZE then left else MAX_HEADER_SIZE;
        TracksByte(log0, c, l, q, q, HeaderFieldData, data, j);
        while j + 1 < pe && IsToken(data[j + 1])
          invariant j < pe <= |data|
          invariant Tracks(log0, c, l, q, data, j + 1)
        {
          FieldDispatch(q.(nread := CountAt(c, l, j + 1)), data[j + 1]);
          TracksByte(log0, c, l, q, q, HeaderFieldData, data, j + 1);
          j := j + 1;
        }
      } else {
        var (h, i) := FieldByte(q.headerState, q.index, data[j]);
        TracksByte(log0, c, l, q, q.(headerState := h, index := i), HeaderFieldData, data, j);
        q := q.(headerState := h, index := i);
      }
      j := j + 1;
    }
  }

  /** ... and what follows the loop. */
  method HeaderFieldCase(l: Local, data: string, ghost c: Config, ghost log0: seq<Event>) returns (r: Local, next: Next)
    requires Enters(log0, c, l, data) && c.p.state.HeaderField? && IsFieldState(c.p.headerState)
    ensures Bulk(log0, c, l, r, next, data)
  {
    hide Dispatch, View, Run, FieldByte, IsToken, PhaseOf, Step, Bulk;
    var q, j := HeaderFieldLoop(l, data, c, log0);
    next := Break;
    if j == |data| {
      CountMoreIsCountAt(log0, c, l, q, data, j - 1);
      r := l.(p := CountMore(q, j - 1 - l.at), at := j - 1);
      TracksToEnd(log0, c, l, q, data, r);
    } else {
      FieldDispatch(q.(nread := CountAt(c, l, j)), data[j]);
      CountMoreIsCountAt(log0, c, l, q, data, j);
      var p := CountMore(q, j - l.at);
      if !p.errno.Ok? {
        r := l.(p := p, at := j);
        TracksOverflow(log0, c, l, q, data, j, r);
      } else if data[j] == ':' {
        p := p.(state := HeaderValueDiscardWs);
        r := Callback(l.(p := p, at := j), HeaderFieldData, data, j);
        TracksEnd(log0, c, l, q, p, HeaderFieldData, data, j, r);
      } else {
        r := l.(p := p.(errno := InvalidHeaderToken), at := j);
        TracksFailure(log0, c, l, q, InvalidHeaderToken, data, j, r);
      }
    }
  }

  // ---------------------------------------------------------------- header values

  lemma ValueDispatch(p: Parser, ch: char)
    requires p.state.HeaderValue?
    ensures Dispatch(p, ch) ==
            if ch == CR then Go(p, HeaderAlmostDone)
            else if ch == LF then Micro(p.(state := HeaderAlmostDone), [], Again)
            else if !p.lenient && !IsHeaderChar(ch) then Fail(p, InvalidHeaderToken)
            else Taken(ValueByte(p, ch), ch)
  {}

  lemma ValueByteIgnoresCount(p: Parser, n: nat, ch: char)
    ensures ValueByte(p.(nread := n), ch) == ValueByte(p, ch).(nread := n)
  {}

  lemma ValueByteErrno(p: Parser, ch: char)
    requires p.errno.Ok?
    ensures !ValueByte(p, ch).errno.HeaderOverflow?
  {}

  /** The loop has skipped a byte without looking at it, but by then there are too many. */
  lemma TracksSkip(log0: seq<Event>, c: Config, l: Local, q: Parser, data: string, j: nat)
    requires Tracks(log0, c, l, q, data, j) && j < |data| && c.p.nread + (j - l.at) > MAX_HEADER_SIZE
    ensures Tracks(log0, c, l, q, data, j + 1)
  {
    hide Step, View, TooMany, Run;
    NextSlice(data, l.at, j);
    RunSnoc(c, data[l.at..j], data[j]);
    StillTooMany(log0, c, Run(c, data[l.at..j]), l, q.state, data, j);
  }

  /** A value that is not special is scanned without matching; a bad character stops the scan. */
  method ScanGeneral(l: Local, q: Parser, data: string, from: nat, ghost c: Config, ghost log0: seq<Event>)
    returns (j: nat, e: Errno)
    requires Enters(log0, c, l, data) && q.state.HeaderValue? && q.headerState.General? && c.p.nread > 0
    requires Tracks(log0, c, l, q, data, from) && from < |data|
    requires data[from] != CR && data[from] != LF && (q.lenient || IsHeaderChar(data[from]))
    ensures from <= j && Tracks(log0, c, l, q, data, j)
    ensures e.Ok? ==> from < j
    ensures !e.Ok? ==> j < |data| && data[j] != CR && data[j] != LF && e == InvalidHeaderToken && !q.lenient && !IsHeaderChar(data[j])
  {
    hide Dispatch, View, Run, Step, PhaseOf, ValueByte, Advances, Reports;
    j, e := from, Ok;
    var left := |data| - j;
    var pe := j + if left < MAX_HEADER_SIZE then left else MAX_HEADER_SIZE;
    while j != pe
      invariant from <= j <= pe && Tracks(log0, c, l, q, data, j)
      decreases pe - j
    {
      if data[j] == CR || data[j] == LF {
        return;
      }
      if !q.lenient && !IsHeaderChar(data[j]) {
        e := InvalidHeaderToken;
        return;
      }
      GeneralByte(log0, c, l, q, data, j);
      j := j + 1;
    }
    if j != |data| {
      TracksSkip(log0, c, l, q, data, j);
      j := j + 1;
    }
  }

  lemma GeneralByte(log0: seq<Event>, c: Config, l: Local, q: Parser, data: string, j: nat)
    requires Enters(log0, c, l, data) && q.state.HeaderValue? && q.headerState.General?
    requires Tracks(log0, c, l, q, data, j) && j < |data|
    requires data[j] != CR && data[j] != LF && (q.lenient || IsHeaderChar(data[j]))
    ensures Tracks(log0, c, l, q, data, j + 1)
  {
    hide Dispatch, View, Run, Step;
    ValueDispatch(q.(nread := CountAt(c, l, j)), data[j]);
    TracksByte(log0, c, l, q, q, HeaderValueData, data, j);
  }

  /** The case s_header_value: its loop over the characters of the value ... */
  method HeaderValueLoop(l: Local, data: string, ghost c: Config, ghost log0: seq<Event>)
    returns (q: Parser, j: nat, e: Errno)
    requires Enters(log0, c, l, data) && c.p.state.HeaderValue? && c.p.nread > 0
    ensures Tracks(log0, c, l, q, data, j)
    ensures e.Ok? ==> (j < |data| ==> data[j] == CR || data[j] == LF)
    ensures !e.Ok? ==>
              j < |data| &&
              var m := Dispatch(q.(nread := CountAt(c, l, j)), data[j]); m.p.errno == e && m.next.Break? && m.events == []
    ensures !e.HeaderOverflow?
  {
    hide Dispatch, View, Run, Step, PhaseOf, ValueByte, Advances, Reports, IsHeaderChar;
    q, j, e := l.p, l.at, Ok;
    TracksStart(log0, c, l, data);
    while j < |data| && data[j] != CR && data[j] != LF
      invariant Tracks(log0, c, l, q, data, j) && e.Ok?
      decreases |data| - j
    {
      ValueDispatch(q.(nread := CountAt(c, l, j)), data[j]);
      if !q.lenient && !IsHeaderChar(data[j]) {
        e := InvalidHeaderToken;
        return;
      }
      if q.headerState.General? {
        j, e := ScanGeneral(l, q, data, j, c, log0);
        if !e.Ok? {
          ValueDispatch(q.(nread := CountAt(c, l, j)), data[j]);
          return;
        }
      } else {
        ValueByteIgnoresCount(q, CountAt(c, l, j), data[j]);
        ValueByteErrno(q, data[j]);
        var p := ValueByte(q, data[j]);
        if !p.errno.Ok? {
          e := p.errno;
          return;
        }
        TracksByte(log0, c, l, q, p, HeaderValueData, data, j);
        q := p;
        j := j + 1;
      }
    }
  }

  lemma TracksLineFeed(log0: seq<Event>, c: Config, l: Local, q: Parser, data: string, j: nat, r: Local)
    requires Tracks(log0, c, l, q, data, j) && j < |data| && data[j] == LF && q.state.HeaderValue?
    requires l.marks.Keys == {HeaderValueData} && CountAt(c, l, j) <= MAX_HEADER_SIZE
    requires r == Callback(l.(p := q.(nread := CountAt(c, l, j), state := HeaderAlmostDone), at := j), HeaderValueData, data, j)
    ensures Bulk(log0, c, l, r, Again, data)
  {
    hide Dispatch, Run, Step, Pending, View, PushAll, TooMany, Exec, ValueByte, IsHeaderChar, Unreported, FailsLate;
    var d := Run(c, data[l.at..j]);
    var ended := l.(p := r.p, at := j);
    ViewSame(log0, l, ended, data, j);
    ViewCallback(log0, ended, HeaderValueData, data, j, j);
    LineFeedPasses(Count(d.p));
  }

  lemma LineFeedPasses(p: Parser)
    requires p.state.HeaderValue? && p.errno.Ok?
    ensures Exec(p, LF) == Exec(p.(state := HeaderAlmostDone), LF)
  {
    hide Dispatch, Exec, ValueByte, IsHeaderChar;
    ValueDispatch(p, LF);
    ExecAgain(p, LF);
    var rest := Exec(p.(state := HeaderAlmostDone), LF);
    assert [] + rest.events == rest.events;
  }

  /** ... what it does at the end of the value; before CR the callback comes before the bytes are counted ... */
  method ValueEnds(l: Local, q: Parser, data: string, j: nat, ghost c: Config, ghost log0: seq<Event>) returns (r: Local, next: Next)
    requires Enters(log0, c, l, data) && c.p.state.HeaderValue? && Tracks(log0, c, l, q, data, j)
    requires j < |data| && (data[j] == CR || data[j] == LF)
    ensures Bulk(log0, c, l, r, next, data)
  {
    hide Dispatch, View, Run, Step, PhaseOf, ValueByte, Advances, Reports, IsHeaderChar, Bulk, TooMany, NextValue;
    next := Break;
    ValueDispatch(q.(nread := CountAt(c, l, j)), data[j]);
    CountMoreIsCountAt(log0, c, l, q, data, j);
    CountKeeps(q, j - l.at);
    hide CountMore;
    if data[j] == CR {
      r := Callback(l.(p := q.(state := HeaderAlmostDone), at := j), HeaderValueData, data, j);
      r := r.(p := CountMore(r.p, j - l.at));
      if !r.p.errno.Ok? {
        TracksOverflow(log0, c, l, q, data, j, r);
      } else {
        TracksEnd(log0, c, l, q, r.p, HeaderValueData, data, j, r);
      }
    } else {
      var p := CountMore(q, j - l.at);
      if !p.errno.Ok? {
        r := l.(p := p, at := j);
        TracksOverflow(log0, c, l, q, data, j, r);
      } else {
        next := Again;
        r := Callback(l.(p := p.(state := HeaderAlmostDone), at := j), HeaderValueData, data, j);
        TracksLineFeed(log0, c, l, q, data, j, r);
      }
    }
  }

  lemma CountKeeps(q: Parser, v: nat)
    ensures CountMore(q.(state := HeaderAlmostDone), v) == CountMore(q, v).(state := HeaderAlmostDone)
  {}

  /** ... and what follows the loop. */
  method HeaderValueCase(l: Local, data: string, ghost c: Config, ghost log0: seq<Event>) returns (r: Local, next: Next)
    requires Enters(log0, c, l, data) && c.p.state.HeaderValue? && c.p.nread > 0
    ensures Bulk(log0, c, l, r, next, data)
  {
    hide Dispatch, View, Run, Step, PhaseOf, ValueByte, Advances, Reports, IsHeaderChar, Bulk;
    var q, j, e := HeaderValueLoop(l, data, c, log0);
    next := Break;
    if !e.Ok? {
      r := l.(p := q.(errno := e), at := j);
      TracksFailure(log0, c, l, q, e, data, j, r);
    } else if j == |data| {
      CountMoreIsCountAt(log0, c, l, q, data, j - 1);
      r := l.(p := CountMore(q, j - 1 - l.at), at := j - 1);
      TracksToEnd(log0, c, l, q, data, r);
    } else {
      r, next := ValueEnds(l, q, data, j, c, log0);
    }
  }

  // ---------------------------------------------------------------- bodies

  /** The machine after some bytes of a body of which `s` is not the end. */
  lemma {:induction false} RunBody(c: Config, s: string)
    requires Live(c) && |s| > 0
    requires c.p.state.BodyIdentityEof? || ((c.p.state.ChunkData? || c.p.state.BodyIdentity?) && |s| < c.p.contentLength)
    ensures var n := if c.p.state.BodyIdentityEof? then c.p.contentLength else c.p.contentLength - |s|;
            Run(c, s) == Config(c.p.(contentLength := n), Push(c.log, Data(Body, s)), c.used + |s|, false)
    decreases |s|
  {
    hide Step, Push;
    BodyStep(c, s[0]);
    var d := Step(c, s[0]);
    assert s == [s[0]] + s[1..];
    if |s| > 1 {
      RunBody(d, s[1..]);
      PushJoins(c.log, Body, [s[0]], s[1..]);
    } else {
      assert Run(d, s[1..]) == d;
      assert s == [s[0]];
    }
  }

  lemma BodyStep(c: Config, ch: char)
    requires Live(c)
    requires c.p.state.BodyIdentityEof? || ((c.p.state.ChunkData? || c.p.state.BodyIdentity?) && 1 < c.p.contentLength)
    ensures var n := if c.p.state.BodyIdentityEof? then c.p.contentLength else c.p.contentLength - 1;
            Step(c, ch) == Config(c.p.(contentLength := n), Push(c.log, Data(Body, [ch])), c.used + 1, false)
  {
    var n := if c.p.state.BodyIdentityEof? then c.p.contentLength else c.p.contentLength - 1;
    assert Dispatch(c.p, ch) == Micro(c.p.(contentLength := n), [Data(Body, [ch])], Break);
    StepOnePass(c, c.p.(contentLength := n), ch, Data(Body, [ch]));
  }

  /** The pass over the last byte of a counted body. */
  lemma LastBodyPass(p: Parser, ch: char)
    requires p.errno.Ok? && p.contentLength == 1
    ensures p.state.ChunkData? ==>
              Dispatch(p, ch) == Micro(p.(contentLength := 0, state := ChunkDataAlmostDone), [Data(Body, [ch])], Break)
    ensures p.state.BodyIdentity? ==>
              Dispatch(p, ch) == Micro(p.(contentLength := 0, state := MessageDone), [Data(Body, [ch])], Again)
  {}

  /** The body seen so far, with the mark set where it began in this buffer. */
  lemma ViewBody(log0: seq<Event>, l: Local, r: Local, data: string, end: nat)
    requires l.at <= end <= |data| && l.marks.Keys <= {Body} && (forall k <- l.marks :: l.marks[k] <= l.at)
    requires r.marks == Mark(l, Body).marks && r.fired == l.fired
    ensures View(log0, r, data, end) == Push(View(log0, l, data, l.at), Data(Body, data[l.at..end]))
    ensures r.marks.Keys == {Body} && r.marks[Body] <= l.at
  {
    if Body in l.marks {
      ViewExtend(log0, l, r, Body, data, l.at, end);
    } else {
      ViewMark(log0, l, Body, data, end);
    }
  }

  lemma RunPrefix(log0: seq<Event>, c: Config, l: Local, data: string, n: nat)
    requires Enters(log0, c, l, data) && l.at + n <= |data| && !ParsingHeader(c.p.state)
    requires c.p.state.BodyIdentityEof? || ((c.p.state.ChunkData? || c.p.state.BodyIdentity?) && n < c.p.contentLength)
    ensures var d := Run(c, data[l.at..l.at + n]);
            var left := if c.p.state.BodyIdentityEof? then c.p.contentLength else c.p.contentLength - n;
            d.p == c.p.(contentLength := left) && Live(d) && d.used == c.used + n &&
            d.log == if n == 0 then c.log else Push(c.log, Data(Body, data[l.at..l.at + n]))
  {
    if n > 0 {
      RunBody(c, data[l.at..l.at + n]);
    } else {
      assert data[l.at..l.at] == "";
    }
  }

  /** The whole of the buffer belongs to the body, and more is to come. */
  lemma BodyGoesOn(log0: seq<Event>, c: Config, l: Local, r: Local, data: string)
    requires Enters(log0, c, l, data) && !ParsingHeader(c.p.state) && HoldsBody(c.p.state)
    requires c.p.state.BodyIdentityEof? || ((c.p.state.ChunkData? || c.p.state.BodyIdentity?) && |data| - l.at < c.p.contentLength)
    requires var left := if c.p.state.BodyIdentityEof? then c.p.contentLength else c.p.contentLength - (|data| - l.at);
             r == Mark(l, Body).(p := l.p.(contentLength := left), at := |data| - 1)
    ensures Bulk(log0, c, l, r, Break, data)
  {
    hide Run, View;
    RunPrefix(log0, c, l, data, |data| - l.at);
    ViewBody(log0, l, r, data, |data|);
    assert r.at + 1 == |data|;
  }

  lemma JoinLast(log: seq<Event>, s: string, ch: char)
    ensures (if |s| == 0 then Push(log, Data(Body, [ch])) else Push(Push(log, Data(Body, s)), Data(Body, [ch]))) ==
            Push(log, Data(Body, s + [ch]))
  {
    if |s| == 0 {
      assert s + [ch] == [ch];
    } else {
      PushJoins(log, Body, s, [ch]);
    }
  }

  /** A byte that is not one too many is taken with the passes `Exec` gives. */
  lemma StepExec(d: Config, ch: char)
    requires Live(d) && Count(d.p).errno.Ok?
    ensures var m := Exec(Count(d.p), ch);
            Step(d, ch) == Config(m.p, PushAll(d.log, m.events), if m.p.errno.Ok? then d.used + 1 else d.used, m.next.Exit?)
  {}

  lemma ExecAgain(p: Parser, ch: char)
    requires p.errno.Ok? && Dispatch(p, ch).next.Again?
    ensures var m := Dispatch(p, ch); var rest := Exec(m.p, ch);
            Exec(p, ch) == Micro(rest.p, m.events + rest.events, rest.next)
  {
    hide Dispatch;
  }

  /** The last byte of a chunk is in the buffer. */
  lemma ChunkEnds(log0: seq<Event>, c: Config, l: Local, r: Local, data: string)
    requires Enters(log0, c, l, data) && c.p.state.ChunkData? && 0 < c.p.contentLength <= |data| - l.at
    requires r == Mark(l, Body).(p := l.p.(contentLength := 0, state := ChunkDataAlmostDone), at := l.at + c.p.contentLength - 1)
    ensures Bulk(log0, c, l, r, Break, data)
  {
    hide Run, View, Dispatch, Step, Push;
    var n := c.p.contentLength - 1;
    var d := Run(c, data[l.at..l.at + n]);
    RunPrefix(log0, c, l, data, n);
    NextSlice(data, l.at, l.at + n);
    RunSnoc(c, data[l.at..l.at + n], data[l.at + n]);
    LastBodyPass(d.p, data[l.at + n]);
    StepOnePass(d, r.p, data[l.at + n], Data(Body, [data[l.at + n]]));
    ViewBody(log0, l, r, data, l.at + n + 1);
    JoinLast(c.log, data[l.at..l.at + n], data[l.at + n]);
  }

  /** A pass that reported `e` and asks for the same byte again. */
  lemma ResumesAfter(log0: seq<Event>, d: Config, r: Local, e: Event, data: string)
    requires r.at < |data| && r.p.errno.Ok? && !IsBulk(r.p.state) && Fits(r.marks, r.p.state, r.at)
    requires Live(d) && Count(d.p).errno.Ok? && Dispatch(Count(d.p), data[r.at]) == Micro(r.p, [e], Again)
    requires View(log0, r, data, r.at) == Push(d.log, e)
    ensures Resumes(log0, d, r, data)
  {
    hide Dispatch, View, Push, Exec;
    ExecAgain(Count(d.p), data[r.at]);
    var rest := Exec(r.p, data[r.at]);
    PushAllAppend(d.log, [e], rest.events);
    PushOne(d.log, e);
  }

  /** The body is reported up to `end`, whether or not it began in this buffer. */
  lemma ViewReported(log0: seq<Event>, l: Local, r: Local, data: string, end: nat, upto: nat)
    requires l.at < end <= |data| && upto <= |data|
    requires l.marks.Keys <= {Body} && (forall k <- l.marks :: l.marks[k] <= l.at)
    requires r.marks == Callback(Mark(l, Body), Body, data, end).marks
    requires r.fired == Callback(Mark(l, Body), Body, data, end).fired
    ensures r.marks.Keys == {}
    ensures View(log0, r, data, upto) == Push(View(log0, l, data, l.at), Data(Body, data[l.at..end]))
  {
    var marked := Mark(l, Body);
    ViewBody(log0, l, marked, data, end);
    ViewCallback(log0, marked, Body, data, end, upto);
    ViewSame(log0, r, Callback(marked, Body, data, end), data, upto);
  }

  /** The last byte of a body of known length is in the buffer: the body is reported, and the same
      byte completes the message. */
  lemma IdentityEnds(log0: seq<Event>, c: Config, l: Local, r: Local, data: string)
    requires Enters(log0, c, l, data) && c.p.state.BodyIdentity? && 0 < c.p.contentLength <= |data| - l.at
    requires var end := l.at + c.p.contentLength;
             && r.p == l.p.(contentLength := 0, state := MessageDone) && r.at == end - 1
             && r.marks == Callback(Mark(l, Body), Body, data, end).marks
             && r.fired == Callback(Mark(l, Body), Body, data, end).fired
    ensures Bulk(log0, c, l, r, Again, data)
  {
    hide Run, View, Dispatch, Step, Push, Resumes, Mark, Callback;
    var n := c.p.contentLength - 1;
    var ch := data[l.at + n];
    var d := Run(c, data[l.at..l.at + n]);
    RunPrefix(log0, c, l, data, n);
    LastBodyPass(d.p, ch);
    NextSlice(data, l.at, l.at + n);
    JoinLast(c.log, data[l.at..l.at + n], ch);
    ViewReported(log0, l, r, data, l.at + n + 1, l.at + n);
    ResumesAfter(log0, d, r, Data(Body, [ch]), data);
  }

  lemma ViewSame(log0: seq<Event>, l: Local, r: Local, data: string, upto: nat)
    requires upto <= |data| && (forall k <- l.marks :: l.marks[k] <= upto) && l.marks == r.marks && l.fired == r.fired
    ensures View(log0, l, data, upto) == View(log0, r, data, upto)
  {}

  /** The cases s_body_identity, s_chunk_data and s_body_identity_eof. */
  method BodyCase(l: Local, data: string, ghost c: Config, ghost log0: seq<Event>) returns (r: Local, next: Next)
    requires Enters(log0, c, l, data) && Inv(c.p)
    requires c.p.state.ChunkData? || c.p.state.BodyIdentity? || c.p.state.BodyIdentityEof?
    ensures Bulk(log0, c, l, r, next, data)
  {
    hide Run, View, Dispatch, Step, Bulk;
    r, next := Mark(l, Body), Break;
    if l.p.state.BodyIdentityEof? {
      r := r.(at := |data| - 1);
      BodyGoesOn(log0, c, l, r, data);
    } else {
      var left := |data| - l.at;
      var toRead := if l.p.contentLength < left then l.p.contentLength else left;
      r := r.(p := r.p.(contentLength := r.p.contentLength - toRead), at := r.at + toRead - 1);
      if r.p.contentLength > 0 {
        BodyGoesOn(log0, c, l, r, data);
      } else if r.p.state.ChunkData? {
        r := r.(p := r.p.(state := ChunkDataAlmostDone));
        ChunkEnds(log0, c, l, r, data);
      } else {
        r, next := Callback(r.(p := r.p.(state := MessageDone)), Body, data, r.at + 1), Again;
        IdentityEnds(log0, c, l, r, data);
      }
    }
  }
}
