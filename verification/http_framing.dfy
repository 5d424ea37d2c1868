/** Messages after their first line, and whole requests: an encoder, and the theorem that the parser
    inverts it, for any number of requests on one connection. */
module HttpFraming {
  import opened HttpSyntax
  import opened Numerals
  import opened HttpMachine
  import opened HttpLog
  import opened HttpBulk
  import opened HttpWords
  import opened HttpMessages
  import opened HttpFields
  import opened HttpConnection
  import opened HttpChunks
  import opened HttpValues

  /** How a request says where its body ends (section 3.3.3 of RFC 7230). */
  /** A body: none; one whose length a line tells; or chunks, the size of the last one, and a trailer. The line that says
      so may be written in any way that has this meaning. */
  datatype Content =
    | NoBody
    | Sized(name: string, length: string, data: string)
    | Chunks(name: string, coding: string, chunks: seq<Chunk>, last: Size, trailer: seq<Header>)

  /** A line of a head: one that does not steer the parser, a Connection list, or an Upgrade line. */
  datatype HeadLine = Ordinary(header: Header) | ConnectionList(name: string, items: seq<Item>) | UpgradeTo(name: string, protocol: string)

  /** A message but for its first line: the version, the lines of the head before and after the one that says where
      the body ends, and the body. */
  datatype Message = Message(major: Digit, minor: Digit, before: seq<HeadLine>, content: Content, after: seq<HeadLine>)

  datatype Req = Req(verb: Method, url: string, message: Message)

  // ---------------------------------------------------------------- the framing header

  function FramingLine(content: Content): string {
    match content
    case NoBody => ""
    case Sized(name, length, _) => HeaderLine(name, length)
    case Chunks(name, coding, _, _, _) => HeaderLine(name, coding)
  }

  function FramingEvents(content: Content): seq<Event> {
    match content
    case NoBody => []
    case Sized(name, length, _) => [Data(HeaderFieldData, name), Data(HeaderValueData, length)]
    case Chunks(name, coding, _, _, _) => [Data(HeaderFieldData, name), Data(HeaderValueData, coding)]
  }

  predicate ContentFits(content: Content) {
    match content
    case NoBody => true
    case Sized(name, length, data) => IsLengthName(name) && IsLength(length) && LengthOf(length) == |data|
    case Chunks(name, coding, chunks, last, trailer) =>
      IsCodingName(name) && IsChunked(coding) && (forall x <- chunks :: ChunkFits(x)) && IsSizeOf(last, 0) && TrailerFits(trailer)
  }

  function FramingFlags(flags: Flags, content: Content): Flags {
    match content
    case NoBody => flags
    case Sized(_, _, _) => flags.(contentLength := true)
    case Chunks(_, _, _, _, _) => flags.(chunked := true)
  }

  function FramingLength(content: Content): nat {
    if content.Sized? then |content.data| else UINT64_MAX
  }

  /** A framing line read from the beginning of a line. */
  predicate Framed(c: Config, d: Config, content: Content) {
    && HeadFrame(c, d, |FramingLine(content)|, FramingEvents(content))
    && Settle(d).p.flags == FramingFlags(Settle(c).p.flags, content)
    && Settle(d).p.contentLength == if content.Sized? then |content.data| else Settle(c).p.contentLength
  }

  lemma FramedSettled(c: Config, d: Config, content: Content)
    requires AtLine(c) && Framed(Settle(c), d, content)
    ensures Framed(c, d, content)
  {
    hide FinishHeader, PushAll, FramingLine, FramingEvents, FramingFlags;
  }

  lemma FramingStarts(content: Content)
    requires !content.NoBody? && ContentFits(content)
    ensures var s := FramingLine(content); |s| > 0 && s[0] != ' ' && s[0] != '\t'
  {
    hide IsLength, LengthOf, IsChunked, LowerName, IsSizeOf, TrailerFits;
    if content.Sized? {
      LineStart(content.name, content.length);
    } else {
      LineStart(content.name, content.coding);
    }
  }

  lemma RunFraming(c: Config, content: Content)
    requires AtLine(c) && ContentFits(content) && (content.Sized? ==> !Settle(c).p.flags.contentLength)
    requires c.p.nread + |FramingLine(content)| <= MAX_HEADER_SIZE
    ensures Framed(c, Run(c, FramingLine(content)), content)
  {
    hide Run, PushAll, FinishHeader, HeaderLine, IsLength, LengthOf, IsChunked, IsSizeOf, TrailerFits;
    if content.NoBody? {
      RunEmpty(c);
      PushNone(c.log);
    } else {
      FramingStarts(content);
      SettleRun(c, FramingLine(content));
      SettledLine(c);
      if content.Sized? {
        LengthIsValue(content.length);
        LengthLine(Settle(c), content.name, content.length, "");
      } else {
        ChunkedIsValue(content.coding);
        CodingLine(Settle(c), content.name, content.coding);
      }
      FramedSettled(c, Run(c, FramingLine(content)), content);
    }
  }

  // ---------------------------------------------------------------- the lines of a head

  predicate IsUpgradeName(name: string) {
    IsName(name) && LowerName(name) == "upgrade"
  }

  predicate LineFits(l: HeadLine) {
    match l
    case Ordinary(h) => IsPlain(h)
    case ConnectionList(name, items) => IsConnectionName(name) && IsList(items)
    case UpgradeTo(name, protocol) => IsUpgradeName(name) && IsValue(protocol)
  }

  function LineText(l: HeadLine): string {
    match l
    case Ordinary(h) => Line(h)
    case ConnectionList(name, items) => HeaderLine(name, Text(items))
    case UpgradeTo(name, protocol) => HeaderLine(name, protocol)
  }

  function EventsOfLine(l: HeadLine): seq<Event> {
    match l
    case Ordinary(h) => LineEvents([h])
    case ConnectionList(name, items) => [Data(HeaderFieldData, name), Data(HeaderValueData, Text(items))]
    case UpgradeTo(name, protocol) => [Data(HeaderFieldData, name), Data(HeaderValueData, protocol)]
  }

  function LineFlags(flags: Flags, l: HeadLine): Flags {
    match l
    case Ordinary(_) => flags
    case ConnectionList(_, items) => FlagsAfter(flags, items, true)
    case UpgradeTo(_, _) => flags.(upgrade := true)
  }

  function LinesText(ls: seq<HeadLine>): string {
    if |ls| == 0 then "" else LineText(ls[0]) + LinesText(ls[1..])
  }

  function EventsOfLines(ls: seq<HeadLine>): seq<Event> {
    if |ls| == 0 then [] else EventsOfLine(ls[0]) + EventsOfLines(ls[1..])
  }

  function LinesFlags(flags: Flags, ls: seq<HeadLine>): Flags
    decreases |ls|
  {
    if |ls| == 0 then flags else LinesFlags(LineFlags(flags, ls[0]), ls[1..])
  }

  lemma RunUpgradeLine(c: Config, name: string, protocol: string)
    requires Live(c) && c.p.state.HeaderFieldStart? && IsUpgradeName(name) && IsValue(protocol)
    requires c.p.nread + |HeaderLine(name, protocol)| <= MAX_HEADER_SIZE
    ensures var line := HeaderLine(name, protocol); var d := Run(c, line);
            && HeadFrame(c, d, |line|, [Data(HeaderFieldData, name), Data(HeaderValueData, protocol)])
            && Settle(d).p.flags == c.p.flags.(upgrade := true) && Settle(d).p.contentLength == c.p.contentLength
  {
    hide Run, Scans, PushAll, LowerName;
    var v := Value(General, 0, c.p.flags.(upgrade := true), c.p.contentLength, Ok);
    assert NameState(LowerName(name)) == Upgrade;
    hide NameState;
    assert AfterFirst(c.p, name, protocol[0]) == v;
    ScansGeneral(v, protocol[1..]);
    RunHeaderLine(c, name, protocol, v);
  }

  lemma LineTextStarts(l: HeadLine)
    requires LineFits(l)
    ensures |LineText(l)| > 0 && LineText(l)[0] != ' ' && LineText(l)[0] != '\t'
  {
    hide IsPlain, LowerName, IsValue, IsList;
    match l {
      case Ordinary(h) => LineBegins(h);
      case ConnectionList(name, items) => LineStart(name, Text(items));
      case UpgradeTo(name, protocol) => LineStart(name, protocol);
    }
  }

  /** `d` is `c` after a line with the text `s`, which is reported as `es` and makes the flags `flags`. */
  predicate AfterLine(c: Config, d: Config, s: string, es: seq<Event>, flags: Flags) {
    && HeadFrame(c, d, |s|, es) && Settle(d).p.flags == flags && Settle(d).p.contentLength == Settle(c).p.contentLength
  }

  lemma OrdinaryAfter(c: Config, h: Header)
    requires Live(c) && c.p.state.HeaderFieldStart? && IsPlain(h) && c.p.nread + |Line(h)| <= MAX_HEADER_SIZE
    ensures AfterLine(c, Run(c, Line(h)), Line(h), LineEvents([h]), c.p.flags)
  {
    hide Run, PushAll, FinishHeader, IsPlain, Line, LineEvents;
    RunPlainLine(c, h);
  }

  lemma ConnectionAfter(c: Config, name: string, items: seq<Item>)
    requires Live(c) && c.p.state.HeaderFieldStart? && IsConnectionName(name) && IsList(items)
    requires c.p.nread + |HeaderLine(name, Text(items))| <= MAX_HEADER_SIZE
    ensures var s := HeaderLine(name, Text(items));
            AfterLine(c, Run(c, s), s, [Data(HeaderFieldData, name), Data(HeaderValueData, Text(items))], FlagsAfter(c.p.flags, items, true))
  {
    hide Run, PushAll, FinishHeader, Text, IsList, IsConnectionName, FlagsAfter, HeaderLine;
    ConnectionLine(c, name, items);
  }

  lemma UpgradeAfter(c: Config, name: string, protocol: string)
    requires Live(c) && c.p.state.HeaderFieldStart? && IsUpgradeName(name) && IsValue(protocol)
    requires c.p.nread + |HeaderLine(name, protocol)| <= MAX_HEADER_SIZE
    ensures var s := HeaderLine(name, protocol);
            AfterLine(c, Run(c, s), s, [Data(HeaderFieldData, name), Data(HeaderValueData, protocol)], c.p.flags.(upgrade := true))
  {
    hide Run, PushAll, FinishHeader, IsValue, IsUpgradeName, HeaderLine;
    RunUpgradeLine(c, name, protocol);
  }

  lemma RunHeadLine(c: Config, l: HeadLine)
    requires AtLine(c) && LineFits(l) && c.p.nread + |LineText(l)| <= MAX_HEADER_SIZE
    ensures AfterLine(c, Run(c, LineText(l)), LineText(l), EventsOfLine(l), LineFlags(Settle(c).p.flags, l))
  {
    LineTextStarts(l);
    hide Run, PushAll, Text, IsList, IsPlain, IsValue, IsConnectionName, IsUpgradeName, FlagsAfter, HeaderLine, Line, LineEvents, AfterLine;
    SettleRun(c, LineText(l));
    var e := Settle(c);
    SettledLine(c);
    match l {
      case Ordinary(h) => OrdinaryAfter(e, h);
      case ConnectionList(name, items) => ConnectionAfter(e, name, items);
      case UpgradeTo(name, protocol) => UpgradeAfter(e, name, protocol);
    }
    FromSettled(c, Run(c, LineText(l)), LineText(l), EventsOfLine(l), LineFlags(e.p.flags, l));
  }

  lemma SettledLine(c: Config)
    requires AtLine(c)
    ensures var e := Settle(c); Live(e) && e.p.state.HeaderFieldStart? && e.p.nread == c.p.nread && Settle(e) == e
  {
    hide FinishHeader;
  }

  lemma FromSettled(c: Config, d: Config, s: string, es: seq<Event>, flags: Flags)
    requires AtLine(c) && AfterLine(Settle(c), d, s, es, flags)
    ensures AfterLine(c, d, s, es, flags)
  {
    hide FinishHeader, PushAll;
  }

  lemma {:induction false} RunHeadLines(c: Config, ls: seq<HeadLine>)
    requires AtLine(c) && (forall l <- ls :: LineFits(l)) && c.p.nread + |LinesText(ls)| <= MAX_HEADER_SIZE
    ensures var d := Run(c, LinesText(ls));
            && HeadFrame(c, d, |LinesText(ls)|, EventsOfLines(ls))
            && Settle(d).p.flags == LinesFlags(Settle(c).p.flags, ls) && Settle(d).p.contentLength == Settle(c).p.contentLength
    decreases |ls|
  {
    hide Run, PushAll, FinishHeader, LineFits, LineText, EventsOfLine, LineFlags;
    if |ls| == 0 {
      RunEmpty(c);
      PushNone(c.log);
    } else {
      assert LineFits(ls[0]);
      RunAppend(c, LineText(ls[0]), LinesText(ls[1..]));
      RunHeadLine(c, ls[0]);
      var d := Run(c, LineText(ls[0]));
      RunHeadLines(d, ls[1..]);
      HeadFrameThen(c, d, Run(d, LinesText(ls[1..])), |LineText(ls[0])|, |LinesText(ls[1..])|, EventsOfLine(ls[0]), EventsOfLines(ls[1..]));
    }
  }

  // ---------------------------------------------------------------- all header lines

  function Fields(m: Message): string {
    LinesText(m.before) + (FramingLine(m.content) + LinesText(m.after))
  }

  function FieldEvents(m: Message): seq<Event> {
    EventsOfLines(m.before) + (FramingEvents(m.content) + EventsOfLines(m.after))
  }

  predicate MessageFits(m: Message) {
    (forall l <- m.before :: LineFits(l)) && (forall l <- m.after :: LineFits(l)) && ContentFits(m.content)
  }

  /** What the header lines say. */
  function HeadFlags(m: Message): Flags {
    LinesFlags(FramingFlags(LinesFlags(NO_FLAGS, m.before), m.content), m.after)
  }

  /** Lines other than the framing leave the flags of the framing alone. */
  predicate SameFramingFlags(flags: Flags, r: Flags) {
    r.chunked == flags.chunked && r.contentLength == flags.contentLength && r.trailing == flags.trailing && r.skipBody == flags.skipBody
  }

  lemma {:induction false} LinesKeepFraming(flags: Flags, ls: seq<HeadLine>)
    ensures SameFramingFlags(flags, LinesFlags(flags, ls))
    decreases |ls|
  {
    hide FlagsAfter;
    if |ls| > 0 {
      if ls[0].ConnectionList? {
        OtherFlagsStay(flags, ls[0].items, true);
      }
      LinesKeepFraming(LineFlags(flags, ls[0]), ls[1..]);
    }
  }

  lemma HeadFlagsAre(m: Message)
    ensures var f := HeadFlags(m); f.chunked == m.content.Chunks? && f.contentLength == m.content.Sized? && !f.trailing && !f.skipBody
    ensures SameFramingFlags(NO_FLAGS, LinesFlags(NO_FLAGS, m.before))
  {
    hide LinesFlags;
    LinesKeepFraming(NO_FLAGS, m.before);
    LinesKeepFraming(FramingFlags(LinesFlags(NO_FLAGS, m.before), m.content), m.after);
  }

  lemma HeadFrameThen(c: Config, d: Config, e: Config, m: nat, n: nat, es: seq<Event>, fs: seq<Event>)
    requires HeadFrame(c, d, m, es) && HeadFrame(d, e, n, fs)
    ensures HeadFrame(c, e, m + n, es + fs)
  {
    hide PushAll;
    MovedThen(c, d, e, m, n, es, fs);
  }

  /** A parser that has read the first line of a message. */
  predicate FirstLineRead(c: Config, n: nat) {
    && Live(c) && c.p.state.HeaderFieldStart? && c.p.flags == NO_FLAGS && c.p.contentLength == UINT64_MAX
    && c.p.nread + n <= MAX_HEADER_SIZE
  }

  lemma RunFields(c: Config, m: Message)
    requires FirstLineRead(c, |Fields(m)|) && MessageFits(m)
    ensures var d := Run(c, Fields(m));
            && HeadFrame(c, d, |Fields(m)|, FieldEvents(m))
            && Settle(d).p.flags == HeadFlags(m) && Settle(d).p.contentLength == FramingLength(m.content)
  {
    hide Run, PushAll, FinishHeader, LinesFlags, LinesText, FramingLine, LineFits, ContentFits, EventsOfLines, FramingEvents, FramingFlags;
    RunAppend(c, LinesText(m.before), FramingLine(m.content) + LinesText(m.after));
    RunHeadLines(c, m.before);
    var d := Run(c, LinesText(m.before));
    HeadFlagsAre(m);
    RunAppend(d, FramingLine(m.content), LinesText(m.after));
    RunFraming(d, m.content);
    var e := Run(d, FramingLine(m.content));
    RunHeadLines(e, m.after);
    var f := Run(e, LinesText(m.after));
    HeadFrameThen(d, e, f, |FramingLine(m.content)|, |LinesText(m.after)|, FramingEvents(m.content), EventsOfLines(m.after));
    HeadFrameThen(c, d, f, |LinesText(m.before)|, |FramingLine(m.content)| + |LinesText(m.after)|,
                  EventsOfLines(m.before), FramingEvents(m.content) + EventsOfLines(m.after));
  }

  // ---------------------------------------------------------------- what the head decides

  /** What besides its lines decides how a message goes on: whether it is a request, its method or code, and
      the answer of the headers callback. */
  datatype Role = Role(kind: Kind, verb: Method, code: nat, reply: HeadersReply)

  function RoleOf(p: Parser): Role {
    Role(p.kind, p.verb, if p.kind.Request? then 0 else p.statusCode, p.reply)
  }

  /** The codes of responses that never have a body. */
  predicate Bodyless(code: nat) {
    code / 100 == 1 || code == 204 || code == 304
  }

  predicate HasBody(content: Content) {
    content.Chunks? || (content.Sized? && |content.data| > 0)
  }

  /** After the message the connection belongs to another protocol. */
  predicate Switches(role: Role, m: Message) {
    role.reply.SkipBodyAndUpgrade? ||
    if HeadFlags(m).upgrade && HeadFlags(m).connectionUpgrade then role.kind.Request? || role.code == 101 else role.verb.CONNECT?
  }

  /** The message is over when its head is. */
  predicate EndsWithHead(role: Role, m: Message) {
    !role.reply.Continue? || !HasBody(m.content) || (Switches(role, m) && role.verb.CONNECT?)
  }

  /** The connection goes on after the message: from version 1.1 on unless it says close, before only if it says
      keep-alive. A version with a zero in it counts as earlier. */
  predicate Persists(m: Message) {
    if m.major > 0 && m.minor > 0 then !HeadFlags(m).close else HeadFlags(m).keepAlive
  }

  /** A Connection list of the head has the word among the items that are compared. */
  predicate Says(ls: seq<HeadLine>, word: string) {
    exists i :: 0 <= i < |ls| && ls[i].ConnectionList? && Lists(Seen(ls[i].items, true), word)
  }

  predicate AsksForUpgrade(ls: seq<HeadLine>) {
    exists i :: 0 <= i < |ls| && ls[i].UpgradeTo?
  }

  predicate LineSays(l: HeadLine, word: string) {
    l.ConnectionList? && Lists(Seen(l.items, true), word)
  }

  lemma SaysNext(ls: seq<HeadLine>, word: string)
    requires |ls| > 0
    ensures Says(ls, word) <==> LineSays(ls[0], word) || Says(ls[1..], word)
    ensures AsksForUpgrade(ls) <==> ls[0].UpgradeTo? || AsksForUpgrade(ls[1..])
  {
    hide Lists, Seen;
    assert forall i :: 0 <= i < |ls[1..]| ==> ls[1..][i] == ls[i + 1];
    if i :| 0 < i < |ls| && LineSays(ls[i], word) {
      assert ls[1..][i - 1] == ls[i];
    }
    if i :| 0 < i < |ls| && ls[i].UpgradeTo? {
      assert ls[1..][i - 1] == ls[i];
    }
  }

  /** What lines add to the flags. */
  predicate Adds(flags: Flags, ls: seq<HeadLine>, r: Flags) {
    && (r.keepAlive <==> flags.keepAlive || Says(ls, "keep-alive")) && (r.close <==> flags.close || Says(ls, "close"))
    && (r.connectionUpgrade <==> flags.connectionUpgrade || Says(ls, "upgrade")) && (r.upgrade <==> flags.upgrade || AsksForUpgrade(ls))
  }

  lemma LineAdds(flags: Flags, l: HeadLine)
    ensures var r := LineFlags(flags, l);
            && (r.keepAlive <==> flags.keepAlive || LineSays(l, "keep-alive")) && (r.close <==> flags.close || LineSays(l, "close"))
            && (r.connectionUpgrade <==> flags.connectionUpgrade || LineSays(l, "upgrade")) && (r.upgrade <==> flags.upgrade || l.UpgradeTo?)
  {
    hide FlagsAfter, Lists, Seen;
    if l.ConnectionList? {
      SeenExact(flags, l.items, true);
    }
  }

  lemma {:induction false} LinesAdd(flags: Flags, ls: seq<HeadLine>)
    ensures Adds(flags, ls, LinesFlags(flags, ls))
    decreases |ls|
  {
    hide LineSays, Says, AsksForUpgrade, LineFlags;
    if |ls| == 0 {
      NothingSaid();
    } else {
      LineAdds(flags, ls[0]);
      LinesAdd(LineFlags(flags, ls[0]), ls[1..]);
      SaysNext(ls, "keep-alive");
      SaysNext(ls, "close");
      SaysNext(ls, "upgrade");
    }
  }

  lemma NothingSaid()
    ensures forall word :: !Says([], word)
    ensures !AsksForUpgrade([])
  {}

  lemma HeadFlagsAdd(m: Message)
    ensures var f := HeadFlags(m);
            && (f.keepAlive <==> Says(m.before, "keep-alive") || Says(m.after, "keep-alive"))
            && (f.close <==> Says(m.before, "close") || Says(m.after, "close"))
            && (f.connectionUpgrade <==> Says(m.before, "upgrade") || Says(m.after, "upgrade"))
            && (f.upgrade <==> AsksForUpgrade(m.before) || AsksForUpgrade(m.after))
  {
    hide LinesFlags, Says, AsksForUpgrade;
    LinesAdd(NO_FLAGS, m.before);
    LinesAdd(FramingFlags(LinesFlags(NO_FLAGS, m.before), m.content), m.after);
  }

  /** What the words that are compared do: whether the connection goes on, and whether it switches. */
  lemma SteeringExact(role: Role, m: Message)
    ensures Persists(m) <==>
              if m.major > 0 && m.minor > 0 then !Says(m.before, "close") && !Says(m.after, "close")
              else Says(m.before, "keep-alive") || Says(m.after, "keep-alive")
    ensures Switches(role, m) <==>
              role.reply.SkipBodyAndUpgrade? ||
              if (AsksForUpgrade(m.before) || AsksForUpgrade(m.after)) && (Says(m.before, "upgrade") || Says(m.after, "upgrade"))
              then role.kind.Request? || role.code == 101 else role.verb.CONNECT?
  {
    hide HeadFlags, Says, AsksForUpgrade;
    HeadFlagsAdd(m);
  }

  /** The head tells where the message ends. */
  predicate Delimited(role: Role, m: Message) {
    role.kind.Request? || !m.content.NoBody? || Bodyless(role.code) || !role.reply.Continue?
  }

  /** A body comes exactly if the callback does not skip it, there is one, and CONNECT has not switched; and where the
      message ends is told by a request, a length, chunks, a code that never has a body, or the callback. */
  lemma BodyExact(role: Role, m: Message)
    ensures EndsWithHead(role, m) <==>
              || role.reply.SkipBody? || role.reply.SkipBodyAndUpgrade? || m.content.NoBody?
              || (m.content.Sized? && m.content.data == "") || (role.verb.CONNECT? && Switches(role, m))
    ensures Delimited(role, m) <==>
              || role.kind.Request? || m.content.Sized? || m.content.Chunks? || 100 <= role.code <= 199 || role.code == 204
              || role.code == 304 || role.reply.SkipBody? || role.reply.SkipBodyAndUpgrade?
  {
    hide Switches;
  }

  /** A parser that has read all of a head but the empty line. */
  predicate HeadRead(p: Parser, m: Message) {
    && p.flags == HeadFlags(m) && p.contentLength == FramingLength(m.content) && ContentFits(m.content)
    && p.httpMajor == m.major && p.httpMinor == m.minor && !p.kind.Both?
  }

  /** The state between two messages, and for good after one that ends the connection. */
  function NextState(kind: Kind, m: Message): State {
    if !Persists(m) then Dead else if kind.Request? then StartReq else StartRes
  }

  function AfterHead(p: Parser, m: Message): Parser {
    p.(nread := 0, upgrade := Switches(RoleOf(p), m), flags := p.flags.(skipBody := !p.reply.Continue?),
       state := if EndsWithHead(RoleOf(p), m) then NextState(p.kind, m) else if m.content.Sized? then BodyIdentity else ChunkSizeStart)
  }

  function HeadEvents(role: Role, m: Message): seq<Event> {
    if EndsWithHead(role, m) then [HeadersComplete, MessageComplete] else [HeadersComplete]
  }

  lemma NextIs(p: Parser, m: Message)
    requires p.httpMajor == m.major && p.httpMinor == m.minor && !p.kind.Both? && Delimited(RoleOf(p), m) && ContentFits(m.content)
    requires var f := HeadFlags(m); p.flags.close == f.close && p.flags.keepAlive == f.keepAlive && p.flags.chunked == f.chunked
    requires p.flags.skipBody == !p.reply.Continue? && (p.contentLength == 0 || p.contentLength == FramingLength(m.content))
    ensures NewMessage(p) == NextState(p.kind, m)
  {
    hide LinesFlags;
    HeadFlagsAre(m);
  }

  lemma HeadPasses(p: Parser, m: Message)
    requires HeadRead(p, m) && Delimited(RoleOf(p), m) && p.state.HeadersAlmostDone? && p.errno.Ok?
    ensures Exec(p, LF) == Micro(AfterHead(p, m), HeadEvents(RoleOf(p), m), if EndsWithHead(RoleOf(p), m) &&
        Switches(RoleOf(p), m) then Exit else Break)
  {
    hide Dispatch, Bodyless, Switches, EndsWithHead, HeadFlags, FramingLength, ContentFits, NextState, Delimited;
    var q := HeadersSeen(p, m);
    EndOfHeadersPass(p, m);
    HeadersDonePass(p, m);
    ExecAgain(p, LF);
    ExecDone(q, LF);
  }

  /** The parser between the two looks at the end of the empty line. */
  function HeadersSeen(p: Parser, m: Message): Parser {
    p.(state := HeadersDone, upgrade := Switches(RoleOf(p), m), flags := p.flags.(skipBody := !p.reply.Continue?))
  }

  lemma EndOfHeadersPass(p: Parser, m: Message)
    requires HeadRead(p, m) && p.state.HeadersAlmostDone?
    ensures Dispatch(p, LF) == Micro(HeadersSeen(p, m), [HeadersComplete], Again)
  {
    hide LinesFlags;
    HeadFlagsAre(m);
    assert Dispatch(p, LF) == EndOfHeaders(p, LF);
  }

  lemma HeadersDonePass(p: Parser, m: Message)
    requires HeadRead(p, m) && Delimited(RoleOf(p), m)
    ensures Dispatch(HeadersSeen(p, m), LF) ==
            Micro(AfterHead(p, m), if EndsWithHead(RoleOf(p), m) then [MessageComplete] else [],
                  if EndsWithHead(RoleOf(p), m) && Switches(RoleOf(p), m) then Exit else Break)
  {
    hide HeadFlags, NewMessage, NextState, Switches, Dispatch, MessageNeedsEof;
    var q := HeadersSeen(p, m);
    HeadFlagsAre(m);
    NextIs(q.(nread := 0), m);
    DoneIs(q);
    if m.content.NoBody? && q.reply.Continue? && !q.upgrade {
      NoBodyNeedsNoEof(q.(nread := 0), m);
    }
  }

  lemma DoneIs(q: Parser)
    requires q.state.HeadersDone?
    ensures Dispatch(q, LF) == HeadersAreDone(q, LF)
  {}

  lemma NoBodyNeedsNoEof(q: Parser, m: Message)
    requires Delimited(RoleOf(q), m) && m.content.NoBody? && q.reply.Continue? && !q.kind.Both?
    ensures !MessageNeedsEof(q)
  {}

  lemma HeadUnmoved(p: Parser, m: Message)
    requires HeadRead(p, m)
    ensures var q := BeforeBlankLineEnd(p); HeadRead(q, m) && RoleOf(q) == RoleOf(p) && AfterHead(q, m) == AfterHead(p, m)
    ensures AfterHead(p, m).errno == p.errno
  {}

  lemma RunHeadEnd(c: Config, m: Message)
    requires Live(c) && c.p.state.HeaderFieldStart? && HeadRead(c.p, m) && Delimited(RoleOf(c.p), m)
    requires c.p.nread + 2 <= MAX_HEADER_SIZE
    ensures Run(c, CRLF) == Config(AfterHead(c.p, m), PushAll(c.log, HeadEvents(RoleOf(c.p), m)), c.used + 2,
                                   EndsWithHead(RoleOf(c.p), m) && Switches(RoleOf(c.p), m))
  {
    hide PushAll, HeadEvents, Exec, Run, HeadRead, Delimited, AfterHead, Switches, EndsWithHead, RoleOf;
    HeadUnmoved(c.p, m);
    var p := BeforeBlankLineEnd(c.p);
    HeadPasses(p, m);
    RunBlankLine(c, Exec(p, LF));
  }

  // ---------------------------------------------------------------- the body

  /** What follows the head: nothing when the message is over then. */
  function Payload(role: Role, m: Message): string {
    if EndsWithHead(role, m) then ""
    else match m.content
      case NoBody => ""
      case Sized(_, _, data) => data
      case Chunks(_, _, chunks, last, trailer) => EncodeChunks(chunks, last, trailer)
  }

  function PayloadEvents(role: Role, m: Message): seq<Event> {
    if EndsWithHead(role, m) then []
    else match m.content
      case NoBody => []
      case Sized(_, _, data) => [Data(Body, data), MessageComplete]
      case Chunks(_, _, chunks, _, trailer) => ChunkEvents(chunks, trailer)
  }

  /** The bytes of a message that still count when the next head begins: those of its trailer. */
  function Carried(role: Role, m: Message): nat {
    if m.content.Chunks? && !EndsWithHead(role, m) then |Lines(m.content.trailer)| + 2 else 0
  }

  lemma LastPayloadByte(c: Config, ch: char)
    requires Live(c) && c.p.state.BodyIdentity? && c.p.contentLength == 1
    ensures Step(c, ch) == Config(Completed(c.p.(contentLength := 0)),
                                  Push(Push(c.log, Data(Body, [ch])), MessageComplete), c.used + 1, c.p.upgrade)
  {
    var m := c.p.(contentLength := 0, state := MessageDone);
    LastBodyPass(c.p, ch);
    MessageDonePass(m, ch);
    hide Dispatch;
    ExecAgain(c.p, ch);
    ExecDone(m, ch);
    StepExec(c, ch);
    var e := Data(Body, [ch]);
    assert [e] + [MessageComplete] == [e, MessageComplete];
    PushAllAppend(c.log, [e], [MessageComplete]);
    PushOne(c.log, e);
    PushOne(Push(c.log, e), MessageComplete);
  }

  lemma RunSized(c: Config, s: string)
    requires Live(c) && c.p.state.BodyIdentity? && |s| == c.p.contentLength > 0
    ensures Run(c, s) == Config(Completed(c.p.(contentLength := 0)),
                                PushAll(c.log, [Data(Body, s), MessageComplete]), c.used + |s|, c.p.upgrade)
  {
    hide Step, Run, Push, Completed;
    var n := |s| - 1;
    assert s == s[..n] + [s[n]];
    RunSnoc(c, s[..n], s[n]);
    if n == 0 {
      assert s[..0] == "";
      RunEmpty(c);
    } else {
      RunBody(c, s[..n]);
    }
    LastPayloadByte(Run(c, s[..n]), s[n]);
    JoinLast(c.log, s[..n], s[n]);
    assert [Data(Body, s), MessageComplete] == [Data(Body, s)] + [MessageComplete];
    PushAllAppend(c.log, [Data(Body, s)], [MessageComplete]);
    PushOne(c.log, Data(Body, s));
    PushOne(Push(c.log, Data(Body, s)), MessageComplete);
  }

  /** `d` is `c`, a parser in the middle of the message, when the message is over, after `n` more bytes and with the
      callbacks `es`. It has left the connection if the message switches to another protocol. */
  predicate Over(c: Config, d: Config, n: nat, es: seq<Event>, m: Message) {
    && d.p.errno.Ok? && d.used == c.used + n && d.log == PushAll(c.log, es) && d.exited == Switches(RoleOf(c.p), m)
    && d.p.kind == c.p.kind && d.p.lenient == c.p.lenient && d.p.reply == c.p.reply && d.p.verb == c.p.verb
    && d.p.state == NextState(c.p.kind, m) && d.p.nread == Carried(RoleOf(c.p), m)
  }

  lemma MovedOver(c: Config, d: Config, e: Config, n: nat, k: nat, es: seq<Event>, fs: seq<Event>, m: Message)
    requires Moved(c, d, n, es) && RoleOf(d.p) == RoleOf(c.p) && Over(d, e, k, fs, m)
    ensures Over(c, e, n + k, es + fs, m)
  {
    hide PushAll, Switches, NextState, Carried;
    PushAllAppend(c.log, es, fs);
  }

  /** The body of a message with one that is not over yet. `p` had read the lines of its head. */
  lemma RunPayload(c: Config, p: Parser, m: Message)
    requires Live(c) && HeadRead(p, m) && c.p == AfterHead(p, m) && !EndsWithHead(RoleOf(p), m)
    ensures Over(c, Run(c, Payload(RoleOf(p), m)), |Payload(RoleOf(p), m)|, PayloadEvents(RoleOf(p), m), m)
  {
    hide Run, PushAll, Switches, HeadFlags, NextState, NewMessage, Lines;
    AfterHeadIs(p, m);
    if m.content.Sized? {
      RunSized(c, m.content.data);
      NextIs(c.p.(contentLength := 0), m);
    } else {
      RunChunks(c, m.content.chunks, m.content.last, m.content.trailer);
      NextIs(c.p.(contentLength := 0), m);
    }
  }

  lemma AfterHeadIs(p: Parser, m: Message)
    requires HeadRead(p, m) && !EndsWithHead(RoleOf(p), m)
    ensures var q := AfterHead(p, m);
            && RoleOf(q) == RoleOf(p) && q.upgrade == Switches(RoleOf(q), m) && Delimited(RoleOf(q), m) && HasBody(m.content)
            && q.flags == HeadFlags(m) && q.reply.Continue? && q.contentLength == FramingLength(m.content) && q.nread == 0
            && q.state == (if m.content.Sized? then BodyIdentity else ChunkSizeStart)
  {
    HeadFlagsAre(m);
    hide HeadFlags, Switches, NextState;
  }

  // ---------------------------------------------------------------- all but the first line

  function AfterFirstLine(role: Role, m: Message): string {
    Fields(m) + (CRLF + Payload(role, m))
  }

  function EventsAfterFirst(role: Role, m: Message): seq<Event> {
    FieldEvents(m) + (HeadEvents(role, m) + PayloadEvents(role, m))
  }

  /** The empty line and the body. */
  lemma RunRest(c: Config, m: Message)
    requires Live(c) && c.p.state.HeaderFieldStart? && HeadRead(c.p, m) && Delimited(RoleOf(c.p), m)
    requires c.p.nread + 2 <= MAX_HEADER_SIZE
    ensures var role := RoleOf(c.p);
            Over(c, Run(c, CRLF + Payload(role, m)), 2 + |Payload(role, m)|, HeadEvents(role, m) + PayloadEvents(role, m), m)
  {
    hide Run, PushAll, HeadRead, Delimited, Switches, HeadFlags, NextState;
    var role := RoleOf(c.p);
    RunAppend(c, CRLF, Payload(role, m));
    RunHeadEnd(c, m);
    var d := Run(c, CRLF);
    AfterHeadRole(c.p, m);
    if EndsWithHead(role, m) {
      RunEmpty(d);
      assert HeadEvents(role, m) + [] == HeadEvents(role, m);
    } else {
      RunPayload(d, c.p, m);
      MovedOver(c, d, Run(d, Payload(role, m)), 2, |Payload(role, m)|, HeadEvents(role, m), PayloadEvents(role, m), m);
    }
  }

  lemma AfterHeadRole(p: Parser, m: Message)
    ensures RoleOf(AfterHead(p, m)) == RoleOf(p)
  {}

  lemma RunAfterFirstLine(c: Config, m: Message)
    requires FirstLineRead(c, |Fields(m)| + 2) && MessageFits(m) && Delimited(RoleOf(c.p), m) && !c.p.kind.Both?
    requires c.p.httpMajor == m.major && c.p.httpMinor == m.minor
    ensures var role := RoleOf(c.p); var rest := AfterFirstLine(role, m);
            Over(c, Run(c, rest), |rest|, EventsAfterFirst(role, m), m)
  {
    hide Run, PushAll, FinishHeader, Fields, FieldEvents, HeadEvents, PayloadEvents, Payload, Switches, HeadFlags,
        NextState, Delimited, Carried;
    var role := RoleOf(c.p);
    RunFields(c, m);
    var d := Run(c, Fields(m));
    RunAppend(c, Fields(m), CRLF + Payload(role, m));
    SettleRun(d, CRLF + Payload(role, m));
    var d' := Settle(d);
    RunRest(d', m);
    MovedOver(c, d', Run(d', CRLF + Payload(role, m)), |Fields(m)|, 2 + |Payload(role, m)|, FieldEvents(m),
              HeadEvents(role, m) + PayloadEvents(role, m), m);
  }

  // ---------------------------------------------------------------- requests

  /** A parser between two requests. */
  predicate Ready(c: Config) {
    Live(c) && c.p.state.StartReq? && c.p.kind.Request?
  }

  function RequestRole(verb: Method, reply: HeadersReply): Role {
    Role(Request, verb, 0, reply)
  }

  /** Any method, any URL the URL machine accepts for it, any version, and any message. `n` bytes already count
      towards the limit when the request begins. */
  predicate Fits(n: nat, r: Req) {
    IsUrl(r.verb, r.url) && MessageFits(r.message) && n + |RequestLine(r)| + |Fields(r.message)| + 2 <= MAX_HEADER_SIZE
  }

  function RequestLine(r: Req): string {
    (MethodName(r.verb) + " ") + (r.url + Version(r.message.major, r.message.minor))
  }

  function Encode(reply: HeadersReply, r: Req): string {
    RequestLine(r) + AfterFirstLine(RequestRole(r.verb, reply), r.message)
  }

  function Events(reply: HeadersReply, r: Req): seq<Event> {
    [MessageBegin, Data(Url, r.url)] + EventsAfterFirst(RequestRole(r.verb, reply), r.message)
  }

  lemma MethodNameIsMethodLike(m: Method)
    ensures MethodLike(MethodName(m))
  {
    hide MethodName;
    forall i | 0 <= i < |MethodName(m)| ensures MethodName(m)[i] != ' ' && MethodName(m)[i] != CR && MethodName(m)[i] != LF {
      Letters(m, i);
    }
  }

  lemma UrlMayEndInUrl(s: State)
    requires UrlMayEnd(s)
    ensures InUrl(s)
  {}

  lemma RunRequestLine(c: Config, r: Req)
    requires Ready(c) && Fits(c.p.nread, r)
    ensures var d := Run(c, RequestLine(r));
            && Moved(c, d, |RequestLine(r)|, [MessageBegin, Data(Url, r.url)]) && FirstLineRead(d, |Fields(r.message)| + 2)
            && d.p.nread == c.p.nread + |RequestLine(r)| && d.p.verb == r.verb && d.p.httpMajor == r.message.major &&
                d.p.httpMinor == r.message.minor
  {
    hide Run, MethodName, Push, UrlMayEnd, Fields, MessageFits;
    var m := r.message;
    MethodNameIsMethodLike(r.verb);
    RunAppend(c, MethodName(r.verb) + " ", r.url + Version(m.major, m.minor));
    MethodAccepted(c, MethodName(r.verb), r.verb);
    var d := Run(c, MethodName(r.verb) + " ");
    UrlMayEndInUrl(UrlState(UrlStart(r.verb), r.url));
    RunAppend(d, r.url, Version(m.major, m.minor));
    RunUrl(d, r.url);
    RunVersion(Run(d, r.url), m.major, m.minor);
    assert [MessageBegin, Data(Url, r.url)] == [MessageBegin] + [Data(Url, r.url)];
    PushAllAppend(c.log, [MessageBegin], [Data(Url, r.url)]);
    PushOne(c.log, MessageBegin);
    PushOne(d.log, Data(Url, r.url));
  }

  /** One request: its events, each once and in order, and then the parser is ready for the next one, or refuses
      what follows, or has left the connection to another protocol, as the request says. */
  lemma RunRequest(c: Config, r: Req)
    requires Ready(c) && Fits(c.p.nread, r)
    ensures var d := Run(c, Encode(c.p.reply, r)); var role := RequestRole(r.verb, c.p.reply);
            && d.p.errno.Ok? && d.used == c.used + |Encode(c.p.reply, r)| && d.log == PushAll(c.log, Events(c.p.reply, r))
            && d.p.state == (if Persists(r.message) then StartReq else Dead) && d.exited == Switches(role, r.message)
            && d.p.kind.Request? && d.p.lenient == c.p.lenient && d.p.reply == c.p.reply && d.p.nread == Carried(role, r.message)
  {
    hide Run, PushAll, RequestLine, AfterFirstLine, EventsAfterFirst, Switches, Persists, Carried, Fields, MessageFits;
    var role := RequestRole(r.verb, c.p.reply);
    RunRequestLine(c, r);
    var d := Run(c, RequestLine(r));
    var rest := AfterFirstLine(role, r.message);
    RunAppend(c, RequestLine(r), rest);
    RunAfterFirstLine(d, r.message);
    PushAllAppend(c.log, [MessageBegin, Data(Url, r.url)], EventsAfterFirst(role, r.message));
  }

  /** A request after which another one can follow. */
  predicate Stays(reply: HeadersReply, r: Req) {
    Persists(r.message) && !Switches(RequestRole(r.verb, reply), r.message)
  }

  /** Every request fits and lets another one follow; the trailer of one counts towards the head of the next. */
  predicate AllFit(n: nat, reply: HeadersReply, rs: seq<Req>)
    decreases |rs|
  {
    |rs| > 0 ==> Fits(n, rs[0]) && Stays(reply, rs[0]) && AllFit(Carried(RequestRole(rs[0].verb, reply), rs[0].message), reply, rs[1..])
  }

  /** What still counts towards the header limit after `rs`. */
  function CarriedOver(n: nat, reply: HeadersReply, rs: seq<Req>): nat {
    if |rs| == 0 then n else Carried(RequestRole(rs[|rs| - 1].verb, reply), rs[|rs| - 1].message)
  }

  function EncodeAll(reply: HeadersReply, rs: seq<Req>): string {
    if |rs| == 0 then "" else Encode(reply, rs[0]) + EncodeAll(reply, rs[1..])
  }

  function AllEvents(reply: HeadersReply, rs: seq<Req>): seq<Event> {
    if |rs| == 0 then [] else Events(reply, rs[0]) + AllEvents(reply, rs[1..])
  }

  /** Any number of requests sent one after the other on a connection are told apart and reported one
      after the other. */
  lemma {:induction false} RunRequests(c: Config, rs: seq<Req>)
    requires Ready(c) && AllFit(c.p.nread, c.p.reply, rs)
    ensures var reply := c.p.reply; var d := Run(c, EncodeAll(reply, rs));
            && Ready(d) && Moved(c, d, |EncodeAll(reply, rs)|, AllEvents(reply, rs)) && d.p.nread == CarriedOver(c.p.nread, reply, rs)
    decreases |rs|
  {
    hide Run, PushAll, Encode, Events, Fits;
    if |rs| == 0 {
      RunEmpty(c);
      PushNone(c.log);
    } else {
      var r := rs[0];
      RunAppend(c, Encode(c.p.reply, r), EncodeAll(c.p.reply, rs[1..]));
      RunRequest(c, r);
      var d := Run(c, Encode(c.p.reply, r));
      RunRequests(d, rs[1..]);
      MovedThen(c, d, Run(d, EncodeAll(c.p.reply, rs[1..])), |Encode(c.p.reply, r)|, |EncodeAll(c.p.reply, rs[1..])|,
                Events(c.p.reply, r), AllEvents(c.p.reply, rs[1..]));
    }
  }

  lemma ClosedPass(p: Parser, ch: char)
    requires p.state.Dead?
    ensures Dispatch(p, ch) == if ch == CR || ch == LF then Stay(p) else Fail(p, ClosedConnection)
  {
    assert Dispatch(p, ch) == DispatchRest(p, ch);
  }

  predicate IsLineEnd(ch: char) {
    ch == CR || ch == LF
  }

  lemma ClosedStep(c: Config, ch: char)
    requires Live(c) && c.p.state.Dead? && c.p.nread <= MAX_HEADER_SIZE
    ensures var d := Step(c, ch);
            && d.log == c.log && (Live(d) <==> IsLineEnd(ch) && c.p.nread < MAX_HEADER_SIZE)
            && (Live(d) ==> d.p == c.p.(nread := c.p.nread + 1))
  {
    hide Dispatch;
    if c.p.nread < MAX_HEADER_SIZE {
      var q := Count(c.p);
      ClosedPass(q, ch);
      ExecDone(q, ch);
      StepExec(c, ch);
      PushNone(c.log);
    } else {
      StepTooMany(c, ch);
    }
  }

  /** After a message that ends the connection only line ends are let through, as far as header bytes may go. */
  lemma {:induction false} NothingMayFollow(c: Config, s: string)
    requires Live(c) && c.p.state.Dead? && c.p.nread <= MAX_HEADER_SIZE
    ensures var d := Run(c, s);
            d.log == c.log && (Live(d) <==> (forall i :: 0 <= i < |s| ==> IsLineEnd(s[i])) && c.p.nread + |s| <= MAX_HEADER_SIZE)
    decreases |s|
  {
    hide Step, IsLineEnd;
    if |s| > 0 {
      var d := Step(c, s[0]);
      ClosedStep(c, s[0]);
      if Live(d) {
        NothingMayFollow(d, s[1..]);
        assert forall i :: 0 < i < |s| ==> s[i] == s[1..][i - 1];
      } else {
        RunDead(d, s[1..]);
      }
    }
  }
}
