/** From the bytes of a connection, however they are cut up, to the events of its requests. */
module HttpStream {
  import opened HttpSyntax
  import opened HttpMachine
  import opened HttpInvariant
  import opened HttpLog
  import opened HttpBulk
  import opened HttpParsing
  import opened HttpMessages
  import opened HttpFields
  import opened HttpConnection
  import opened HttpChunks
  import opened HttpFraming
  import opened HttpResponses
  import opened Wrappers

  // ---------------------------------------------------------------- events of requests never join

  /** Two callbacks that `Push` would join. */
  predicate Joins(a: Event, b: Event) {
    a.Data? && b.Data? && a.kind == b.kind
  }

  predicate Separate(es: seq<Event>) {
    forall i :: 0 < i < |es| ==> !Joins(es[i - 1], es[i])
  }

  lemma SeparateAppend(a: seq<Event>, b: seq<Event>)
    requires Separate(a) && Separate(b)
    requires |a| > 0 && |b| > 0 ==> !Joins(a[|a| - 1], b[0])
    ensures Separate(a + b)
  {}

  lemma {:induction false} PushAllSeparate(log: seq<Event>, es: seq<Event>)
    requires Separate(log + es)
    ensures PushAll(log, es) == log + es
    decreases |es|
  {
    if |es| == 0 {
      assert log + es == log;
    } else {
      if |log| > 0 {
        assert (log + es)[|log|] == es[0] && (log + es)[|log| - 1] == log[|log| - 1];
      }
      assert Push(log, es[0]) == log + [es[0]];
      assert (log + [es[0]]) + es[1..] == log + es;
      PushAllSeparate(log + [es[0]], es[1..]);
    }
  }

  /** Header lines: names and values alternate, beginning with a name and ending with a value. */
  predicate LineLike(es: seq<Event>) {
    Separate(es) && (|es| > 0 ==> IsData(es[0], HeaderFieldData) && IsData(es[|es| - 1], HeaderValueData))
  }

  lemma LineLikeAppend(a: seq<Event>, b: seq<Event>)
    requires LineLike(a) && LineLike(b)
    ensures LineLike(a + b)
  {}

  lemma {:induction false} LineEventsSeparate(hs: seq<Header>)
    ensures LineLike(LineEvents(hs))
    decreases |hs|
  {
    if |hs| > 0 {
      LineEventsSeparate(hs[1..]);
      LineLikeAppend([Data(HeaderFieldData, hs[0].name), Data(HeaderValueData, Unfolded(hs[0].value, hs[0].folds))], LineEvents(hs[1..]));
    }
  }

  /** The rest of a request: it begins with a notice or is empty, and ends with a notice. */
  predicate Enclosed(es: seq<Event>) {
    Separate(es) && (|es| > 0 ==> !es[0].Data? && !es[|es| - 1].Data?)
  }

  lemma EnclosedAppend(a: seq<Event>, b: seq<Event>)
    requires Enclosed(a) && Enclosed(b)
    ensures Enclosed(a + b)
  {}

  lemma {:induction false} ChunkEventsSeparate(chunks: seq<Chunk>, trailer: seq<Header>)
    ensures Enclosed(ChunkEvents(chunks, trailer))
    decreases |chunks|
  {
    if |chunks| == 0 {
      LineEventsSeparate(trailer);
      hide LineEvents;
      MessageSeparate([ChunkHeader(0)], LineEvents(trailer), [ChunkComplete, MessageComplete]);
    } else {
      ChunkEventsSeparate(chunks[1..], trailer);
      EnclosedAppend([ChunkHeader(|chunks[0].data|), Data(Body, chunks[0].data), ChunkComplete], ChunkEvents(chunks[1..], trailer));
    }
  }

  /** What a first line reports: it begins with a notice and ends with data that is no header. */
  predicate FirstLike(es: seq<Event>) {
    |es| > 0 && Separate(es) && !es[0].Data? && !IsData(es[|es| - 1], HeaderFieldData)
  }

  lemma FirstAppend(first: seq<Event>, lines: seq<Event>)
    requires FirstLike(first) && LineLike(lines)
    ensures Separate(first + lines) && !(first + lines)[0].Data?
  {
    SeparateAppend(first, lines);
  }

  /** All events of a message are kept apart when those of its first line are. */
  lemma MessageSeparate(first: seq<Event>, lines: seq<Event>, rest: seq<Event>)
    requires FirstLike(first) && LineLike(lines) && Enclosed(rest) && |rest| > 0
    ensures Enclosed(first + (lines + rest))
  {
    FirstAppend(first, lines);
    SeparateAppend(first + lines, rest);
    assert (first + lines) + rest == first + (lines + rest);
  }

  lemma {:induction false} HeadLinesSeparate(ls: seq<HeadLine>)
    ensures LineLike(EventsOfLines(ls))
    decreases |ls|
  {
    if |ls| > 0 {
      if ls[0].Ordinary? {
        LineEventsSeparate([ls[0].header]);
      }
      HeadLinesSeparate(ls[1..]);
      hide LineEvents;
      LineLikeAppend(EventsOfLine(ls[0]), EventsOfLines(ls[1..]));
    }
  }

  lemma FieldEventsSeparate(m: Message)
    ensures LineLike(FieldEvents(m))
  {
    HeadLinesSeparate(m.before);
    HeadLinesSeparate(m.after);
    hide EventsOfLines;
    LineLikeAppend(FramingEvents(m.content), EventsOfLines(m.after));
    LineLikeAppend(EventsOfLines(m.before), FramingEvents(m.content) + EventsOfLines(m.after));
  }

  lemma RestEventsSeparate(role: Role, m: Message)
    ensures var es := HeadEvents(role, m) + PayloadEvents(role, m); Enclosed(es) && |es| > 0
  {
    hide EndsWithHead;
    if m.content.Chunks? && !EndsWithHead(role, m) {
      ChunkEventsSeparate(m.content.chunks, m.content.trailer);
      EnclosedAppend(HeadEvents(role, m), PayloadEvents(role, m));
    }
  }

  lemma AfterFirstSeparate(first: seq<Event>, role: Role, m: Message)
    requires FirstLike(first)
    ensures Enclosed(first + EventsAfterFirst(role, m))
  {
    hide FieldEvents, HeadEvents, PayloadEvents, Enclosed, LineLike, FirstLike;
    FieldEventsSeparate(m);
    RestEventsSeparate(role, m);
    MessageSeparate(first, FieldEvents(m), HeadEvents(role, m) + PayloadEvents(role, m));
  }

  lemma EventsSeparate(reply: HeadersReply, r: Req)
    ensures Enclosed(Events(reply, r))
  {
    AfterFirstSeparate([MessageBegin, Data(Url, r.url)], RequestRole(r.verb, reply), r.message);
  }

  lemma {:induction false} AllEventsSeparate(reply: HeadersReply, rs: seq<Req>)
    ensures Enclosed(AllEvents(reply, rs))
    decreases |rs|
  {
    hide Events;
    if |rs| > 0 {
      EventsSeparate(reply, rs[0]);
      AllEventsSeparate(reply, rs[1..]);
      EnclosedAppend(Events(reply, rs[0]), AllEvents(reply, rs[1..]));
    }
  }

  lemma ResponseEventsSeparate(role: Role, r: Resp)
    ensures Enclosed(ResponseEvents(role, r))
  {
    AfterFirstSeparate(StatusEvents(r), role, r.message);
  }

  lemma {:induction false} ResponsesEventsSeparate(verb: Method, reply: HeadersReply, rs: seq<Resp>)
    ensures Enclosed(ResponsesEvents(verb, reply, rs))
    decreases |rs|
  {
    hide ResponseEvents;
    if |rs| > 0 {
      var role := ResponseRole(verb, rs[0].code, reply);
      ResponseEventsSeparate(role, rs[0]);
      ResponsesEventsSeparate(verb, reply, rs[1..]);
      EnclosedAppend(ResponseEvents(role, rs[0]), ResponsesEvents(verb, reply, rs[1..]));
    }
  }

  lemma LastEventsSeparate(r: Resp, data: string)
    ensures Enclosed(LastEvents(r, data) + [MessageComplete])
  {
    FieldEventsSeparate(r.message);
    hide FieldEvents;
    var rest := [HeadersComplete] + BodyEvents(data) + [MessageComplete];
    assert Enclosed(rest) && FirstLike(StatusEvents(r));
    hide Enclosed, LineLike, FirstLike, BodyEvents, StatusEvents;
    MessageSeparate(StatusEvents(r), FieldEvents(r.message), rest);
    assert LastEvents(r, data) + [MessageComplete] == StatusEvents(r) + (FieldEvents(r.message) + rest);
  }

  lemma LogIs(es: seq<Event>)
    requires Enclosed(es)
    ensures PushAll([], es) == es
  {
    assert [] + es == es;
    PushAllSeparate([], es);
  }

  // ---------------------------------------------------------------- a connection of requests

  /** Requests that each let another one follow, and at the end perhaps any request. */
  function EncodeRequests(reply: HeadersReply, rs: seq<Req>, last: Option<Req>): string {
    EncodeAll(reply, rs) + if last.None? then "" else Encode(reply, last.value)
  }

  function RequestsEvents(reply: HeadersReply, rs: seq<Req>, last: Option<Req>): seq<Event> {
    AllEvents(reply, rs) + if last.None? then [] else Events(reply, last.value)
  }

  predicate RequestsFit(reply: HeadersReply, rs: seq<Req>, last: Option<Req>) {
    AllFit(0, reply, rs) && (last.Some? ==> Fits(CarriedOver(0, reply, rs), last.value))
  }

  /** The last request asks for another protocol. */
  predicate Leaving(reply: HeadersReply, last: Option<Req>) {
    last.Some? && Switches(RequestRole(last.value.verb, reply), last.value.message)
  }

  lemma RunConversation(c: Config, rs: seq<Req>, last: Option<Req>, more: string)
    requires Ready(c) && c.log == [] && c.p.nread == 0 && RequestsFit(c.p.reply, rs, last)
    requires |more| > 0 ==> Leaving(c.p.reply, last)
    ensures var d := Run(c, EncodeRequests(c.p.reply, rs, last) + more);
            && d.p.errno.Ok? && d.used == c.used + |EncodeRequests(c.p.reply, rs, last)| && d.exited == Leaving(c.p.reply, last)
            && d.log == RequestsEvents(c.p.reply, rs, last)
            && d.p.state == (if last.Some? && !Persists(last.value.message) then Dead else StartReq)
  {
    hide Run, PushAll, EncodeAll, AllEvents, Encode, Events, AllFit, Fits, CarriedOver, Switches, Persists;
    var reply := c.p.reply;
    RunAppend(c, EncodeRequests(reply, rs, last), more);
    RunAppend(c, EncodeAll(reply, rs), if last.None? then "" else Encode(reply, last.value));
    RunRequests(c, rs);
    var d := Run(c, EncodeAll(reply, rs));
    AllEventsSeparate(reply, rs);
    if last.None? {
      RunEmpty(d);
      LogIs(AllEvents(reply, rs));
      assert AllEvents(reply, rs) + [] == AllEvents(reply, rs);
    } else {
      RunRequest(d, last.value);
      EventsSeparate(reply, last.value);
      EnclosedAppend(AllEvents(reply, rs), Events(reply, last.value));
      LogIs(AllEvents(reply, rs) + Events(reply, last.value));
      PushAllAppend([], AllEvents(reply, rs), Events(reply, last.value));
    }
    var e := Run(c, EncodeRequests(reply, rs, last));
    if |more| > 0 {
      RunDead(e, more);
    } else {
      RunEmpty(e);
    }
  }

  /** A fresh request parser that is handed the bytes of requests in any non-empty pieces consumes them all without
      error; its callbacks, with the parts of each data item joined, are the events of the requests. When the last
      one asks for another protocol, the parser leaves after it and consumes nothing of what follows. */
  method ParseRequests(reply: HeadersReply, pieces: seq<string>, ghost rs: seq<Req>, ghost last: Option<Req>, ghost more: string)
      returns (parser: HttpParser, parsed: nat, fired: seq<Event>, left: bool)
    requires RequestsFit(reply, rs, last) && (|more| > 0 ==> Leaving(reply, last))
    requires Concat(pieces) == EncodeRequests(reply, rs, last) + more
    requires forall i :: 0 <= i < |pieces| ==> 0 < |pieces[i]| < UINT32_RANGE - MAX_HEADER_SIZE
    ensures fresh(parser) && parser.s.errno.Ok? && left == Leaving(reply, last) && parsed == |EncodeRequests(reply, rs, last)|
    ensures parser.s.state == if last.Some? && !Persists(last.value.message) then Dead else StartReq
    ensures PushAll([], fired) == RequestsEvents(reply, rs, last)
  {
    hide Run, PushAll, EncodeRequests, RequestsEvents, RequestsFit, Concat, Reachable, Leaving, Persists;
    parser := new HttpParser(Request, false, reply);
    ghost var c := Config(parser.s, [], 0, false);
    RunConversation(c, rs, last, more);
    parsed, fired, left := Feed(parser, pieces, c);
  }

  // ---------------------------------------------------------------- a connection of responses

  /** What comes after responses that each let another one follow: nothing, a response that ends by itself, or one
      whose body the end of the connection ends. */
  datatype Last = Nothing | Whole(head: Resp) | Open(head: Resp, data: string)

  /** A response parser has no method. */
  const NO_VERB := Init(Response, false, Continue).verb

  function LastRole(reply: HeadersReply, r: Resp): Role {
    ResponseRole(NO_VERB, r.code, reply)
  }

  function EncodeConnection(reply: HeadersReply, rs: seq<Resp>, last: Last): string {
    EncodeResponses(NO_VERB, reply, rs) +
    match last
    case Nothing => ""
    case Whole(r) => EncodeResponse(LastRole(reply, r), r)
    case Open(r, data) => EncodeLast(r, data)
  }

  function ConnectionEvents(reply: HeadersReply, rs: seq<Resp>, last: Last): seq<Event> {
    ResponsesEvents(NO_VERB, reply, rs) +
    match last
    case Nothing => []
    case Whole(r) => ResponseEvents(LastRole(reply, r), r)
    case Open(r, data) => LastEvents(r, data) + [MessageComplete]
  }

  predicate ConnectionFits(reply: HeadersReply, rs: seq<Resp>, last: Last) {
    && AllEnd(0, NO_VERB, reply, rs)
    && match last
       case Nothing => true
       case Whole(r) => SaysItsEnd(CarriedAfter(0, NO_VERB, reply, rs), LastRole(reply, r), r)
       case Open(r, _) => reply.Continue? && EndsWithConnection(CarriedAfter(0, NO_VERB, reply, rs), r)
  }

  /** The last response switches to another protocol. */
  predicate Switching(reply: HeadersReply, last: Last) {
    last.Whole? && Switches(LastRole(reply, last.head), last.head.message)
  }

  /** The machine on a whole connection. */
  lemma RunConnection(c: Config, rs: seq<Resp>, last: Last, more: string)
    requires Awaits(c) && c.log == [] && c.p.nread == 0 && c.p.verb == NO_VERB && ConnectionFits(c.p.reply, rs, last)
    requires |more| > 0 ==> Switching(c.p.reply, last)
    ensures var reply := c.p.reply; var d := Run(c, EncodeConnection(reply, rs, last) + more);
            && d.p.errno.Ok? && d.used == c.used + |EncodeConnection(reply, rs, last)| && d.exited == Switching(reply, last)
            && (if d.exited then d.log else Eof(d).log) == ConnectionEvents(reply, rs, last)
            && (!d.exited ==> Eof(d).p == d.p)
  {
    hide Run, PushAll, EncodeResponses, ResponsesEvents, EncodeResponse, ResponseEvents, EncodeLast, LastEvents, AllEnd, SaysItsEnd,
         EndsWithConnection, CarriedAfter, Switches, Persists, Carried;
    var reply, whole := c.p.reply, EncodeConnection(c.p.reply, rs, last);
    RunAppend(c, whole, more);
    var es := ResponsesEvents(NO_VERB, reply, rs);
    RunResponses(c, rs);
    var d := Run(c, EncodeResponses(NO_VERB, reply, rs));
    ResponsesEventsSeparate(NO_VERB, reply, rs);
    match last {
      case Nothing =>
        LogIs(es);
        assert es + [] == es && whole == EncodeResponses(NO_VERB, reply, rs);
      case Whole(r) =>
        RunAppend(c, EncodeResponses(NO_VERB, reply, rs), EncodeResponse(LastRole(reply, r), r));
        RunResponse(d, r);
        var fs := ResponseEvents(LastRole(reply, r), r);
        ResponseEventsSeparate(LastRole(reply, r), r);
        EnclosedAppend(es, fs);
        LogIs(es + fs);
        PushAllAppend([], es, fs);
      case Open(r, data) =>
        RunAppend(c, EncodeResponses(NO_VERB, reply, rs), EncodeLast(r, data));
        RunLast(d, r, data);
        var fs := LastEvents(r, data);
        LastEventsSeparate(r, data);
        EnclosedAppend(es, fs + [MessageComplete]);
        LogIs(es + (fs + [MessageComplete]));
        PushAllAppend([], es, fs + [MessageComplete]);
        PushAllAppend(d.log, fs, [MessageComplete]);
        PushOne(PushAll(d.log, fs), MessageComplete);
    }
    var e := Run(c, whole);
    if |more| > 0 {
      RunDead(e, more);
    } else {
      RunEmpty(e);
    }
  }

  /** A fresh response parser that is handed the bytes of a connection in any non-empty pieces, and then its
      end, reports exactly its responses: those that end by themselves, in order, and the last one. When that
      one switches to another protocol, the parser leaves after it and consumes nothing of what follows. */
  method ParseResponses(reply: HeadersReply, pieces: seq<string>, ghost rs: seq<Resp>, ghost last: Last, ghost more: string)
      returns (parser: HttpParser, parsed: nat, fired: seq<Event>, left: bool)
    requires ConnectionFits(reply, rs, last) && (|more| > 0 ==> Switching(reply, last))
    requires Concat(pieces) == EncodeConnection(reply, rs, last) + more
    requires forall i :: 0 <= i < |pieces| ==> 0 < |pieces[i]| < UINT32_RANGE - MAX_HEADER_SIZE
    ensures fresh(parser) && parser.s.errno.Ok? && left == Switching(reply, last) && parsed == |EncodeConnection(reply, rs, last)|
    ensures PushAll([], fired) == ConnectionEvents(reply, rs, last)
  {
    hide Run, PushAll, EncodeConnection, ConnectionEvents, ConnectionFits, Concat, Reachable, Coherent, Switching;
    parser := new HttpParser(Response, false, reply);
    ghost var c := Config(parser.s, [], 0, false);
    RunConnection(c, rs, last, more);
    RunKeepsReachable(c, Concat(pieces));
    RunCoherent(c, Concat(pieces));
    ghost var d := Run(c, Concat(pieces));
    parsed, fired, left := Feed(parser, pieces, c);
    if !left {
      var n, es, ex := parser.Execute("", d);
      PushAllAppend([], fired, es);
      fired := fired + es;
    }
  }
}
