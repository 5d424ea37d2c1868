/** The HTTP/1.x message parser as a machine that consumes one byte at a time.

    `Dispatch` is one pass through the parser's `switch`; `Exec` repeats it while the code says
    "re-execute with the same byte"; `Step` adds the header size count; `Run` folds `Step` over
    the input. Every byte that belongs to a data callback is reported as soon as it is seen:
    `Push` joins it to the callback it continues. */
module HttpMachine {
  import opened HttpSyntax
  import opened Wrappers

  const MAX_HEADER_SIZE: nat := 80 * 1024
  const UINT64_MAX: nat := 0xFFFF_FFFF_FFFF_FFFF

  datatype Kind = Request | Response | Both

  datatype Method =
    | DELETE | GET | HEAD | POST | PUT | CONNECT | OPTIONS | TRACE
    | COPY | LOCK | MKCOL | MOVE | PROPFIND | PROPPATCH | SEARCH | UNLOCK | BIND | REBIND | UNBIND | ACL
    | REPORT | MKACTIVITY | CHECKOUT | MERGE | MSEARCH | NOTIFY | SUBSCRIBE | UNSUBSCRIBE
    | PATCH | PURGE | MKCALENDAR | LINK | UNLINK | SOURCE

  function MethodName(m: Method): (name: string)
    ensures 3 <= |name| <= 11
  {
    match m
    case DELETE => "DELETE" case GET => "GET" case HEAD => "HEAD" case POST => "POST" case PUT => "PUT"
    case CONNECT => "CONNECT" case OPTIONS => "OPTIONS" case TRACE => "TRACE"
    case COPY => "COPY" case LOCK => "LOCK" case MKCOL => "MKCOL" case MOVE => "MOVE"
    case PROPFIND => "PROPFIND" case PROPPATCH => "PROPPATCH" case SEARCH => "SEARCH" case UNLOCK => "UNLOCK"
    case BIND => "BIND" case REBIND => "REBIND" case UNBIND => "UNBIND" case ACL => "ACL"
    case REPORT => "REPORT" case MKACTIVITY => "MKACTIVITY" case CHECKOUT => "CHECKOUT" case MERGE => "MERGE"
    case MSEARCH => "M-SEARCH" case NOTIFY => "NOTIFY" case SUBSCRIBE => "SUBSCRIBE"
    case UNSUBSCRIBE => "UNSUBSCRIBE" case PATCH => "PATCH" case PURGE => "PURGE"
    case MKCALENDAR => "MKCALENDAR" case LINK => "LINK" case UNLINK => "UNLINK" case SOURCE => "SOURCE"
  }

  datatype HeaderState =
    | General
    | C | CO | CON
    | MatchingConnection | MatchingProxyConnection | MatchingContentLength
    | MatchingTransferEncoding | MatchingUpgrade
    | Connection | ContentLength | ContentLengthNum | ContentLengthWs | TransferEncoding | Upgrade
    | MatchingTransferEncodingChunked
    | MatchingConnectionTokenStart | MatchingConnectionKeepAlive | MatchingConnectionClose
    | MatchingConnectionUpgrade | MatchingConnectionToken
    | TransferEncodingChunked | ConnectionKeepAlive | ConnectionClose | ConnectionUpgrade

  datatype Flags = Flags(chunked: bool, keepAlive: bool, close: bool, connectionUpgrade: bool, trailing: bool,
                         upgrade: bool, skipBody: bool, contentLength: bool)

  const NO_FLAGS := Flags(false, false, false, false, false, false, false, false)

  datatype Errno =
    | Ok
    | InvalidEofState | HeaderOverflow | ClosedConnection | InvalidVersion | InvalidStatus | InvalidMethod
    | InvalidUrl | LfExpected | InvalidHeaderToken | InvalidContentLength | UnexpectedContentLength
    | InvalidChunkSize | InvalidConstant | Strict

  /** What the embedder's headers-complete callback returns: 0, 1 or 2. */
  datatype HeadersReply = Continue | SkipBody | SkipBodyAndUpgrade

  /** The parser struct. `index` is a 7-bit field, `contentLength` a 64-bit and `nread` a 32-bit one. */
  datatype Parser = Parser(
    kind: Kind, flags: Flags, state: State, headerState: HeaderState, index: nat, lenient: bool,
    nread: nat, contentLength: nat, httpMajor: nat, httpMinor: nat, statusCode: nat, verb: Method,
    errno: Errno, upgrade: bool, reply: HeadersReply)

  datatype DataKind = Url | Status | HeaderFieldData | HeaderValueData | Body

  datatype Event =
    | Data(kind: DataKind, bytes: string)
    | MessageBegin
    | HeadersComplete
    | ChunkHeader(size: nat)
    | ChunkComplete
    | MessageComplete

  /** Appends a callback to a log, joining a data callback to one of its own kind right before it. */
  function Push(log: seq<Event>, e: Event): seq<Event> {
    if e.Data? && |log| > 0 && log[|log| - 1].Data? && log[|log| - 1].kind == e.kind
    then log[..|log| - 1] + [Data(e.kind, log[|log| - 1].bytes + e.bytes)]
    else log + [e]
  }

  function PushAll(log: seq<Event>, es: seq<Event>): seq<Event>
    decreases |es|
  {
    if |es| == 0 then log else PushAll(Push(log, es[0]), es[1..])
  }

  /** How one pass through the switch ends: next byte, same byte again, or leave the parser. */
  datatype Next = Break | Again | Exit

  datatype Micro = Micro(p: Parser, events: seq<Event>, next: Next)

  function Fail(p: Parser, e: Errno): Micro { Micro(p.(errno := e), [], Break) }
  function Go(p: Parser, s: State): Micro { Micro(p.(state := s), [], Break) }
  function Stay(p: Parser): Micro { Micro(p, [], Break) }

  /** The states that accept a single byte: the byte, the next state, and the error otherwise. */
  datatype Fixed = Fixed(byte: char, next: State, errno: Errno)

  function FixedByte(s: State): Option<Fixed> {
    if s.ResH? then Some(Fixed('T', ResHT, Strict))
    else if s.ResHT? then Some(Fixed('T', ResHTT, Strict))
    else if s.ResHTT? then Some(Fixed('P', ResHTTP, Strict))
    else if s.ResHTTP? then Some(Fixed('/', ResHttpMajor, Strict))
    else if s.ResHttpDot? then Some(Fixed('.', ResHttpMinor, InvalidVersion))
    else if s.ResHttpEnd? then Some(Fixed(' ', ResFirstStatusCode, InvalidVersion))
    else if s.ResLineAlmostDone? then Some(Fixed(LF, HeaderFieldStart, Strict))
    else if s.ReqHttpH? then Some(Fixed('T', ReqHttpHT, Strict))
    else if s.ReqHttpHT? then Some(Fixed('T', ReqHttpHTT, Strict))
    else if s.ReqHttpHTT? then Some(Fixed('P', ReqHttpHTTP, Strict))
    else if s.ReqHttpI? then Some(Fixed('C', ReqHttpIC, Strict))
    else if s.ReqHttpIC? then Some(Fixed('E', ReqHttpHTTP, Strict)) // "ICE" counts as "HTTP"
    else if s.ReqHttpHTTP? then Some(Fixed('/', ReqHttpMajor, Strict))
    else if s.ReqHttpDot? then Some(Fixed('.', ReqHttpMinor, InvalidVersion))
    else if s.ReqLineAlmostDone? then Some(Fixed(LF, HeaderFieldStart, LfExpected))
    else if s.HeaderValueDiscardWsAlmostDone? then Some(Fixed(LF, HeaderValueDiscardLws, Strict))
    else if s.HeaderAlmostDone? then Some(Fixed(LF, HeaderValueLws, LfExpected))
    else if s.ChunkDataAlmostDone? then Some(Fixed(CR, ChunkDataDone, Strict))
    else None
  }

  function Expect(p: Parser, ch: char): (m: Micro)
    requires FixedByte(p.state).Some?
    ensures Advances(p, m) && Reports(m)
  {
    var f := FixedByte(p.state).value;
    if ch == f.byte then Go(p, f.next) else Fail(p, f.errno)
  }

  // ---------------------------------------------------------------- message framing

  function MessageNeedsEof(p: Parser): bool {
    if p.kind.Request? then false
    else if p.statusCode / 100 == 1 || p.statusCode == 204 || p.statusCode == 304 || p.flags.skipBody then false
    else if p.flags.chunked || p.contentLength != UINT64_MAX then false
    else true
  }

  function ShouldKeepAlive(p: Parser): bool {
    if p.httpMajor > 0 && p.httpMinor > 0
    then !p.flags.close && !MessageNeedsEof(p)
    else p.flags.keepAlive && !MessageNeedsEof(p)
  }

  /** NEW_MESSAGE in strict mode. */
  function NewMessage(p: Parser): State {
    if ShouldKeepAlive(p) then (if p.kind.Request? then StartReq else StartRes) else Dead
  }

  function CompleteMessage(p: Parser, next: Next): Micro {
    Micro(p.(state := NewMessage(p)), [MessageComplete], next)
  }

  // ---------------------------------------------------------------- first lines

  function ResetMessage(p: Parser): Parser {
    p.(flags := NO_FLAGS, contentLength := UINT64_MAX)
  }

  function FirstLetter(ch: char): (m: Method) {
    match ch
    case 'A' => ACL case 'B' => BIND case 'C' => CONNECT case 'D' => DELETE case 'G' => GET case 'H' => HEAD
    case 'L' => LOCK case 'M' => MKCOL case 'N' => NOTIFY case 'O' => OPTIONS case 'P' => POST
    case 'R' => REPORT case 'S' => SUBSCRIBE case 'T' => TRACE case 'U' => UNLOCK
    case _ => DELETE
  }

  predicate IsFirstLetter(ch: char) {
    'A' <= ch <= 'D' || ch == 'G' || ch == 'H' || 'L' <= ch <= 'P' || 'R' <= ch <= 'U'
  }

  /** The table that moves the recogniser to another method sharing the bytes read so far. */
  function SwitchMethod(m: Method, index: nat, ch: char): Option<Method> {
    if m.POST? then if index != 1 then None else if ch == 'U' then Some(PUT) else if ch == 'A' then Some(PATCH)
                 else if ch == 'R' then Some(PROPFIND) else None
    else if m.PUT? then if index == 2 && ch == 'R' then Some(PURGE) else None
    else if m.CONNECT? then if index == 1 && ch == 'H' then Some(CHECKOUT) else if index == 2 && ch == 'P' then Some(COPY) else None
    else if m.MKCOL? then if index == 1 && ch == 'O' then Some(MOVE) else if index == 1 && ch == 'E' then Some(MERGE)
                  else if index == 1 && ch == '-' then Some(MSEARCH) else if index == 2 && ch == 'A' then Some(MKACTIVITY)
                  else if index == 3 && ch == 'A' then Some(MKCALENDAR) else None
    else if m.SUBSCRIBE? then if index != 1 then None else if ch == 'E' then Some(SEARCH) else if ch == 'O' then Some(SOURCE) else None
    else if m.REPORT? then if index == 2 && ch == 'B' then Some(REBIND) else None
    else if m.PROPFIND? then if index == 4 && ch == 'P' then Some(PROPPATCH) else None
    else if m.LOCK? then if index == 1 && ch == 'I' then Some(LINK) else None
    else if m.UNLOCK? then if index == 2 && ch == 'S' then Some(UNSUBSCRIBE) else if index == 2 && ch == 'B' then Some(UNBIND)
                   else if index == 3 && ch == 'I' then Some(UNLINK) else None
    else None
  }

  /** s_req_method after its first letter; `None` rejects the byte. */
  function MethodByte(m: Method, index: nat, ch: char): Option<Method> {
    if index < |MethodName(m)| && ch == MethodName(m)[index] then Some(m)
    else if 'A' <= ch <= 'Z' || ch == '-' then SwitchMethod(m, index, ch)
    else None
  }

  function StartRequest(p: Parser, ch: char): (m: Micro)
    requires p.state.StartReq?
    ensures Advances(p, m) && Reports(m)
  {
    if ch == CR || ch == LF then Stay(p)
    else if !IsAlpha(ch) then Fail(ResetMessage(p), InvalidMethod)
    else if !IsFirstLetter(ch) then Fail(ResetMessage(p).(verb := DELETE, index := 1), InvalidMethod)
    else Micro(ResetMessage(p).(verb := FirstLetter(ch), index := 1, state := ReqMethod), [MessageBegin], Break)
  }

  function RequestMethod(p: Parser, ch: char): (m: Micro)
    requires p.state.ReqMethod?
    ensures Advances(p, m) && Reports(m)
  {
    if ch == '\0' then Fail(p, InvalidMethod)
    else if ch == ' ' && p.index == |MethodName(p.verb)| then
      Go(p.(index := (p.index + 1) % 128), ReqSpacesBeforeUrl)
    else match MethodByte(p.verb, p.index, ch)
      case None => Fail(p, InvalidMethod)
      case Some(m) => Stay(p.(verb := m, index := (p.index + 1) % 128))
  }

  function VersionDigit(p: Parser, ch: char, major: bool, s: State): Micro {
    if !IsNum(ch) then Fail(p, InvalidVersion)
    else if major then Go(p.(httpMajor := DigitValue(ch)), s)
    else Go(p.(httpMinor := DigitValue(ch)), s)
  }

  function DispatchVersion(p: Parser, ch: char): (m: Micro)
    requires PhaseOf(p.state).InVersion?
    ensures Advances(p, m) && Reports(m)
  {
    if p.state.ReqHttpStart? || p.state.ReqHttpEnd? then AroundVersion(p, ch)
    else if p.state.ResHttpMajor? then VersionDigit(p, ch, true, ResHttpDot)
    else if p.state.ResHttpMinor? then VersionDigit(p, ch, false, ResHttpEnd)
    else if p.state.ReqHttpMajor? then VersionDigit(p, ch, true, ReqHttpDot)
    else VersionDigit(p, ch, false, ReqHttpEnd)
  }

  function AroundVersion(p: Parser, ch: char): (m: Micro)
    requires p.state.ReqHttpStart? || p.state.ReqHttpEnd?
    ensures Advances(p, m) && Reports(m)
  {
    if p.state.ReqHttpStart? then
      if ch == ' ' then Stay(p)
      else if ch == 'H' then Go(p, ReqHttpH)
      else if ch == 'I' && p.verb.SOURCE? then Go(p, ReqHttpI)
      else Fail(p, InvalidConstant)
    else // ReqHttpEnd
      if ch == CR then Go(p, ReqLineAlmostDone)
      else if ch == LF then Go(p, HeaderFieldStart)
      else Fail(p, InvalidVersion)
  }

  function StatusDigit(p: Parser, ch: char): Micro
    requires IsNum(ch)
  {
    var q := p.(statusCode := p.statusCode * 10 + DigitValue(ch));
    if q.statusCode > 999 then Fail(q, InvalidStatus) else Stay(q)
  }

  function DispatchStatus(p: Parser, ch: char): (m: Micro)
    requires PhaseOf(p.state).InStatus?
    ensures Advances(p, m) && Reports(m)
  {
    if p.state.ResFirstStatusCode? || p.state.ResStatusCode? then StatusCode(p, ch) else ReasonPhrase(p, ch)
  }

  function StatusCode(p: Parser, ch: char): (m: Micro)
    requires p.state.ResFirstStatusCode? || p.state.ResStatusCode?
    ensures Advances(p, m) && Reports(m)
  {
    if p.state.ResFirstStatusCode? then
      if IsNum(ch) then Go(p.(statusCode := DigitValue(ch)), ResStatusCode)
      else if ch == ' ' then Stay(p)
      else Fail(p, InvalidStatus)
    else // ResStatusCode
      if IsNum(ch) then StatusDigit(p, ch)
      else if ch == ' ' then Go(p, ResStatusStart)
      else if ch == CR || ch == LF then Micro(p.(state := ResStatusStart), [], Again)
      else Fail(p, InvalidStatus)
  }

  function ReasonPhrase(p: Parser, ch: char): (m: Micro)
    requires p.state.ResStatusStart? || p.state.ResStatus?
    ensures Advances(p, m) && Reports(m)
  {
    if p.state.ResStatusStart? then
      var q := p.(state := ResStatus, index := 0);
      if ch == CR || ch == LF then Micro(q, [Data(Status, "")], Again) else Micro(q, [Data(Status, [ch])], Break)
    else // ResStatus
      if ch == CR then Go(p, ResLineAlmostDone)
      else if ch == LF then Go(p, HeaderFieldStart)
      else Micro(p, [Data(Status, [ch])], Break)
  }

  function UrlByte(p: Parser, from: State, ch: char): Micro {
    var s := ParseUrlChar(from, ch);
    if s.Dead? then Fail(p.(state := Dead), InvalidUrl) else Micro(p.(state := s), [Data(Url, [ch])], Break)
  }

  function StartResponse(p: Parser, ch: char): (m: Micro)
    requires p.state.StartRes?
    ensures Advances(p, m) && Reports(m)
  {
    if ch == CR || ch == LF then Stay(p)
    else if ch == 'H' then Micro(ResetMessage(p).(state := ResH), [MessageBegin], Break)
    else Fail(ResetMessage(p), InvalidConstant)
  }

  function StartEither(p: Parser, ch: char): (m: Micro)
    requires p.state.StartReqOrRes?
    ensures Advances(p, m) && Reports(m)
  {
    if ch == CR || ch == LF then Stay(p)
    else if ch == 'H' then Micro(ResetMessage(p).(state := ResOrRespH), [MessageBegin], Break)
    else Micro(ResetMessage(p).(kind := Request, state := StartReq), [], Again)
  }

  /** HEAD or HTTP. */
  function AfterH(p: Parser, ch: char): (m: Micro)
    requires p.state.ResOrRespH?
    ensures Advances(p, m) && Reports(m)
  {
    if ch == 'T' then Go(p.(kind := Response), ResHT)
    else if ch != 'E' then Fail(p, InvalidConstant)
    else Go(p.(kind := Request, verb := HEAD, index := 2), ReqMethod)
  }

  function DispatchStart(p: Parser, ch: char): (m: Micro)
    requires PhaseOf(p.state).InStart?
    ensures Advances(p, m) && Reports(m)
  {
    if p.state.StartRes? then StartResponse(p, ch)
    else if p.state.StartReqOrRes? then StartEither(p, ch)
    else if p.state.ResOrRespH? then AfterH(p, ch)
    else if p.state.StartReq? then StartRequest(p, ch)
    else // ReqMethod
      RequestMethod(p, ch)
  }

  function DispatchUrl(p: Parser, ch: char): (m: Micro)
    requires PhaseOf(p.state).InUrlPart?
    ensures Advances(p, m) && Reports(m)
  {
    if p.state.ReqSpacesBeforeUrl? then
      if ch == ' ' then Stay(p)
      else UrlByte(p, if p.verb.CONNECT? then ReqServerStart else ReqSpacesBeforeUrl, ch)
    else if UrlMayEnd(p.state) && ch == ' ' then Go(p, ReqHttpStart)
    else if UrlMayEnd(p.state) && (ch == CR || ch == LF) then
      Go(p.(httpMajor := 0, httpMinor := 9), if ch == CR then ReqLineAlmostDone else HeaderFieldStart)
    else if ch == ' ' || ch == CR || ch == LF then Fail(p, InvalidUrl)
    else UrlByte(p, p.state, ch)
  }

  // ---------------------------------------------------------------- headers

  /** One more character of a fixed word; `index` already counts it. */
  function MatchWord(word: string, index: nat, c: char, same: HeaderState, found: HeaderState, miss: HeaderState): (r: HeaderState)
    ensures r == same || r == found || r == miss
    ensures r == same ==> index <= |word| - 2 || same == found || same == miss
  {
    if index >= |word| || c != word[index] then miss
    else if index == |word| - 1 then found
    else same
  }

  function FirstFieldByte(c: char): HeaderState {
    if c == 'c' then C
    else if c == 'p' then MatchingProxyConnection
    else if c == 't' then MatchingTransferEncoding
    else if c == 'u' then MatchingUpgrade
    else General
  }

  /** The header name recogniser: the body of the s_header_field loop for one character. */
  function FieldByte(h: HeaderState, index: nat, ch: char): (HeaderState, nat)
    requires IsToken(ch)
  {
    var c := TokenLower(ch);
    var i := (index + 1) % 128;
    if h.General? then (General, index)
    else if h.C? then (if c == 'o' then CO else General, i)
    else if h.CO? then (if c == 'n' then CON else General, i)
    else if h.CON? then (if c == 'n' then MatchingConnection else if c == 't' then MatchingContentLength else General, i)
    else if h.MatchingConnection? then (MatchWord("connection", i, c, h, Connection, General), i)
    else if h.MatchingProxyConnection? then (MatchWord("proxy-connection", i, c, h, Connection, General), i)
    else if h.MatchingContentLength? then (MatchWord("content-length", i, c, h, ContentLength, General), i)
    else if h.MatchingTransferEncoding? then (MatchWord("transfer-encoding", i, c, h, TransferEncoding, General), i)
    else if h.MatchingUpgrade? then (MatchWord("upgrade", i, c, h, Upgrade, General), i)
    else (if ch != ' ' then General else h, index)
  }

  /** The part of the parser a header value can change. */
  datatype Value = Value(h: HeaderState, index: nat, flags: Flags, length: nat, errno: Errno)

  function ValueOf(p: Parser): Value {
    Value(p.headerState, p.index, p.flags, p.contentLength, p.errno)
  }

  function WithValue(p: Parser, v: Value): Parser {
    p.(headerState := v.h, index := v.index, flags := v.flags, contentLength := v.length, errno := v.errno)
  }

  /** The switch of s_header_value_start. */
  function StartValue(v: Value, ch: char): (r: Value)
    ensures r.index == 0 && r.flags.chunked == v.flags.chunked && r.flags.trailing == v.flags.trailing
  {
    var c := Lower(ch);
    var q := v.(index := 0);
    if v.h.Upgrade? then q.(flags := q.flags.(upgrade := true), h := General)
    else if v.h.TransferEncoding? then q.(h := if c == 'c' then MatchingTransferEncodingChunked else General)
    else if v.h.ContentLength? then
      if !IsNum(ch) then q.(errno := InvalidContentLength)
      else if q.flags.contentLength then q.(errno := UnexpectedContentLength)
      else q.(flags := q.flags.(contentLength := true), length := DigitValue(ch), h := ContentLengthNum)
    else if v.h.ContentLengthWs? then q
    else if v.h.Connection? then
      q.(h := if c == 'k' then MatchingConnectionKeepAlive
              else if c == 'c' then MatchingConnectionClose
              else if c == 'u' then MatchingConnectionUpgrade
              else MatchingConnectionToken)
    else if v.h.MatchingConnectionTokenStart? then q
    else q.(h := General)
  }

  function ValueStart(p: Parser, ch: char): (q: Parser)
    ensures q.state.HeaderValue? && q.nread == p.nread
  {
    WithValue(p, StartValue(ValueOf(p), ch)).(state := HeaderValue)
  }

  /** One more decimal digit of Content-Length, with the code's conservative overflow test. */
  function ContentLengthDigit(v: Value, ch: char): (r: Value)
    ensures r == v.(length := r.length, errno := r.errno)
    ensures v.errno.Ok? && r.errno.Ok? ==> IsNum(ch) && r.length == v.length * 10 + DigitValue(ch) && r.length < UINT64_MAX
  {
    if !IsNum(ch) then v.(errno := InvalidContentLength)
    else if (UINT64_MAX - 10) / 10 < v.length then v.(errno := InvalidContentLength)
    else v.(length := (v.length * 10 + DigitValue(ch)) % (UINT64_MAX + 1))
  }

  /** The switch inside the s_header_value loop for one character that is neither CR nor LF. */
  function NextValue(v: Value, ch: char): (r: Value)
    ensures r.flags.contentLength == v.flags.contentLength && r.flags.trailing == v.flags.trailing
    ensures r.flags.chunked == v.flags.chunked
  {
    var c := Lower(ch);
    var i := (v.index + 1) % 128;
    if v.h.General? then v
    else if v.h.ContentLength? then if ch == ' ' then v else ContentLengthByte(v.(h := ContentLengthNum), ch)
    else if v.h.ContentLengthNum? then ContentLengthByte(v, ch)
    else if v.h.ContentLengthWs? then if ch == ' ' then v else v.(errno := InvalidContentLength)
    else if v.h.MatchingTransferEncodingChunked? then
      v.(index := i, h := MatchWord("chunked", i, c, v.h, TransferEncodingChunked, General))
    else if v.h.MatchingConnectionTokenStart? then
      v.(h := if c == 'k' then MatchingConnectionKeepAlive
              else if c == 'c' then MatchingConnectionClose
              else if c == 'u' then MatchingConnectionUpgrade
              else if IsToken(c) then MatchingConnectionToken
              else if c == ' ' || c == '\t' then MatchingConnectionTokenStart
              else General)
    else if v.h.MatchingConnectionKeepAlive? then
      v.(index := i, h := MatchWord("keep-alive", i, c, v.h, ConnectionKeepAlive, MatchingConnectionToken))
    else if v.h.MatchingConnectionClose? then
      v.(index := i, h := MatchWord("close", i, c, v.h, ConnectionClose, MatchingConnectionToken))
    else if v.h.MatchingConnectionUpgrade? then
      v.(index := i, h := MatchWord("upgrade", i, c, v.h, ConnectionUpgrade, MatchingConnectionToken))
    else if v.h.MatchingConnectionToken? then
      if ch == ',' then v.(h := MatchingConnectionTokenStart, index := 0) else v
    else if v.h.TransferEncodingChunked? then if ch != ' ' then v.(h := General) else v
    else if v.h.ConnectionKeepAlive? || v.h.ConnectionClose? || v.h.ConnectionUpgrade? then
      if ch == ',' then v.(flags := FinishHeader(v.h, v.flags), h := MatchingConnectionTokenStart, index := 0)
      else if ch != ' ' then v.(h := MatchingConnectionToken)
      else v
    else v.(h := General)
  }

  function ContentLengthByte(v: Value, ch: char): Value {
    if ch == ' ' then v.(h := ContentLengthWs) else ContentLengthDigit(v, ch)
  }

  function ValueByte(p: Parser, ch: char): (q: Parser)
    ensures q.state == p.state && q.nread == p.nread
  {
    WithValue(p, NextValue(ValueOf(p), ch))
  }

  /** The flag a finished header value sets. */
  function FinishHeader(h: HeaderState, flags: Flags): (r: Flags)
    ensures r.contentLength == flags.contentLength && r.trailing == flags.trailing
    ensures r.chunked == (flags.chunked || h.TransferEncodingChunked?)
  {
    if h.ConnectionKeepAlive? then flags.(keepAlive := true)
    else if h.ConnectionClose? then flags.(close := true)
    else if h.ConnectionUpgrade? then flags.(connectionUpgrade := true)
    else if h.TransferEncodingChunked? then flags.(chunked := true)
    else flags
  }

  function DispatchHeaderName(p: Parser, ch: char): (m: Micro)
    requires PhaseOf(p.state).InHeaderName?
    ensures Advances(p, m) && Reports(m)
  {
    if p.state.HeaderFieldStart? then
      if ch == CR then Go(p, HeadersAlmostDone)
      else if ch == LF then Micro(p.(state := HeadersAlmostDone), [], Again)
      else if !IsToken(ch) then Fail(p, InvalidHeaderToken)
      else Micro(p.(index := 0, state := HeaderField, headerState := FirstFieldByte(TokenLower(ch))),
                 [Data(HeaderFieldData, [ch])], Break)
    else // HeaderField
      if IsToken(ch) then
        var (h, i) := FieldByte(p.headerState, p.index, ch);
        Micro(p.(headerState := h, index := i), [Data(HeaderFieldData, [ch])], Break)
      else if ch == ':' then Go(p, HeaderValueDiscardWs)
      else Fail(p, InvalidHeaderToken)
  }

  /** A character of a value; one that the matcher refuses is not reported. */
  function Taken(q: Parser, ch: char): Micro {
    Micro(q, if q.errno.Ok? then [Data(HeaderValueData, [ch])] else [], Break)
  }

  function DispatchHeaderValue(p: Parser, ch: char): (m: Micro)
    requires PhaseOf(p.state).InHeaderValue?
    ensures Advances(p, m) && Reports(m)
  {
    if p.state.HeaderValue? then InsideValue(p, ch) else BeforeValue(p, ch)
  }

  function BeforeValue(p: Parser, ch: char): (m: Micro)
    requires p.state.HeaderValueDiscardWs? || p.state.HeaderValueStart?
    ensures Advances(p, m) && Reports(m)
  {
    if p.state.HeaderValueStart? then Taken(ValueStart(p, ch), ch)
    else if ch == ' ' || ch == '\t' then Stay(p)
    else if ch == CR then Go(p, HeaderValueDiscardWsAlmostDone)
    else if ch == LF then Go(p, HeaderValueDiscardLws)
    else Taken(ValueStart(p, ch), ch)
  }

  function InsideValue(p: Parser, ch: char): (m: Micro)
    requires p.state.HeaderValue?
    ensures Advances(p, m) && Reports(m)
  {
    if ch == CR then Go(p, HeaderAlmostDone)
    else if ch == LF then Micro(p.(state := HeaderAlmostDone), [], Again)
    else if !p.lenient && !IsHeaderChar(ch) then Fail(p, InvalidHeaderToken)
    else Taken(ValueByte(p, ch), ch)
  }

  function DispatchEndOfValue(p: Parser, ch: char): (m: Micro)
    requires PhaseOf(p.state).InEndOfValue?
    ensures Advances(p, m) && Reports(m)
  {
    if p.state.HeaderValueLws? then
      if ch == ' ' || ch == '\t' then
        Micro(p.(state := HeaderValueStart,
                 headerState := if p.headerState.ContentLengthNum? then ContentLengthWs else p.headerState), [], Again)
      else Micro(p.(flags := FinishHeader(p.headerState, p.flags), state := HeaderFieldStart), [], Again)
    else // HeaderValueDiscardLws
      if ch == ' ' || ch == '\t' then Go(p, HeaderValueDiscardWs)
      else if p.headerState.ContentLength? then Fail(p, InvalidContentLength)
      else Micro(p.(flags := FinishHeader(p.headerState, p.flags), state := HeaderFieldStart), [Data(HeaderValueData, "")], Again)
  }

  function EndOfHeaders(p: Parser, ch: char): (m: Micro)
    requires p.state.HeadersAlmostDone?
    ensures Advances(p, m) && Reports(m)
  {
    if ch != LF then Fail(p, Strict)
    else if p.flags.trailing then Micro(p.(state := MessageDone), [ChunkComplete], Again)
    else if p.flags.chunked && p.flags.contentLength then Fail(p, UnexpectedContentLength)
    else
      var up := if p.flags.upgrade && p.flags.connectionUpgrade then p.kind.Request? || p.statusCode == 101
                else p.verb.CONNECT?;
      Micro(p.(state := HeadersDone,
               upgrade := up || p.reply.SkipBodyAndUpgrade?,
               flags := if p.reply.Continue? then p.flags else p.flags.(skipBody := true)),
            [HeadersComplete], Again)
  }

  function HeadersAreDone(p: Parser, ch: char): (m: Micro)
    ensures p.state.HeadersDone? ==> Advances(p, m) && Reports(m)
  {
    if ch != LF then Fail(p, Strict)
    else
      var q := p.(nread := 0);
      var hasBody := q.flags.chunked || (q.contentLength > 0 && q.contentLength != UINT64_MAX);
      if q.upgrade && (q.verb.CONNECT? || q.flags.skipBody || !hasBody) then CompleteMessage(q, Exit)
      else if q.flags.skipBody then CompleteMessage(q, Break)
      else if q.flags.chunked then Go(q, ChunkSizeStart)
      else if q.contentLength == 0 then CompleteMessage(q, Break)
      else if q.contentLength != UINT64_MAX then Go(q, BodyIdentity)
      else if !MessageNeedsEof(q) then CompleteMessage(q, Break)
      else Go(q, BodyIdentityEof)
  }

  // ---------------------------------------------------------------- bodies

  /** One more digit of a chunk size, with the code's conservative overflow test. */
  function ChunkSizeDigit(p: Parser, ch: char): (q: Parser)
    requires IsChunkDigit(ch)
    ensures q == p.(contentLength := q.contentLength, errno := q.errno)
    ensures p.errno.Ok? && q.errno.Ok? ==>
              q.contentLength == p.contentLength * 16 + ChunkDigit(ch) && q.contentLength < UINT64_MAX
  {
    if (UINT64_MAX - 16) / 16 < p.contentLength then p.(errno := InvalidContentLength)
    else p.(contentLength := (p.contentLength * 16 + ChunkDigit(ch)) % (UINT64_MAX + 1))
  }

  function DispatchChunk(p: Parser, ch: char): (m: Micro)
    requires PhaseOf(p.state).InChunk?
    ensures Advances(p, m) && Reports(m)
  {
    if p.state.ChunkSizeStart? || p.state.ChunkSize? || p.state.ChunkParameters? then ChunkSizeLine(p, ch) else ChunkRest(p, ch)
  }

  function ChunkSizeLine(p: Parser, ch: char): (m: Micro)
    requires p.state.ChunkSizeStart? || p.state.ChunkSize? || p.state.ChunkParameters?
    ensures Advances(p, m) && Reports(m)
  {
    if p.state.ChunkSizeStart? then
      if !IsChunkDigit(ch) then Fail(p, InvalidChunkSize) else Go(p.(contentLength := ChunkDigit(ch)), ChunkSize)
    else if p.state.ChunkSize? then
      if ch == CR then Go(p, ChunkSizeAlmostDone)
      else if IsChunkDigit(ch) then Stay(ChunkSizeDigit(p, ch))
      else if ch == ';' || ch == ' ' then Go(p, ChunkParameters)
      else Fail(p, InvalidChunkSize)
    else // ChunkParameters
      if ch == CR then Go(p, ChunkSizeAlmostDone) else Stay(p)
  }

  function ChunkRest(p: Parser, ch: char): (m: Micro)
    requires p.state.ChunkSizeAlmostDone? || p.state.ChunkData? || p.state.ChunkDataDone?
    ensures Advances(p, m) && Reports(m)
  {
    if p.state.ChunkSizeAlmostDone? then
      if ch != LF then Fail(p, Strict)
      else if p.contentLength == 0
      then Micro(p.(nread := 0, flags := p.flags.(trailing := true), state := HeaderFieldStart), [ChunkHeader(0)], Break)
      else Micro(p.(nread := 0, state := ChunkData), [ChunkHeader(p.contentLength)], Break)
    else if p.state.ChunkData? then
      var q := BodyByte(p);
      Micro(if q.contentLength == 0 then q.(state := ChunkDataAlmostDone) else q, [Data(Body, [ch])], Break)
    else // ChunkDataDone
      if ch != LF then Fail(p, Strict) else Micro(p.(nread := 0, state := ChunkSizeStart), [ChunkComplete], Break)
  }

  function DispatchRest(p: Parser, ch: char): (m: Micro)
    requires PhaseOf(p.state).InRest?
    ensures Advances(p, m) && Reports(m)
  {
    if p.state.BodyIdentity? then
      var q := BodyByte(p);
      if q.contentLength == 0 then Micro(q.(state := MessageDone), [Data(Body, [ch])], Again)
      else Micro(q, [Data(Body, [ch])], Break)
    else if p.state.BodyIdentityEof? then Micro(p, [Data(Body, [ch])], Break)
    else if p.state.MessageDone? then CompleteMessage(p, if p.upgrade then Exit else Break)
    else // Dead
      if ch == CR || ch == LF then Stay(p) else Fail(p, ClosedConnection)
  }

  /** `content_length -= 1` on an unsigned 64-bit field. */
  function BodyByte(p: Parser): Parser {
    p.(contentLength := if p.contentLength == 0 then UINT64_MAX else p.contentLength - 1)
  }

  // ---------------------------------------------------------------- the machine

  /** The parts of the switch. */
  datatype Phase =
    | InFixed | InStart | InUrlPart | InVersion | InStatus
    | InHeaderName | InHeaderValue | InEndOfValue | InHeadersEnd | InChunk | InRest

  function PhaseOf(s: State): (phase: Phase)
    ensures phase.InVersion? ==> s.ResHttpMajor? || s.ResHttpMinor? || s.ReqHttpMajor? || s.ReqHttpMinor? ||
                                 s.ReqHttpStart? || s.ReqHttpEnd?
    ensures phase.InFixed? <==> FixedByte(s).Some?
  {
    if FixedByte(s).Some? then InFixed
    else if s.StartRes? || s.StartReqOrRes? || s.ResOrRespH? || s.StartReq? || s.ReqMethod? then InStart
    else if s.ReqSpacesBeforeUrl? || InUrl(s) then InUrlPart
    else if s.ResFirstStatusCode? || s.ResStatusCode? || s.ResStatusStart? || s.ResStatus? then InStatus
    else if s.HeaderFieldStart? || s.HeaderField? then InHeaderName
    else if s.HeaderValueDiscardWs? || s.HeaderValueStart? || s.HeaderValue? then InHeaderValue
    else if s.HeaderValueLws? || s.HeaderValueDiscardLws? then InEndOfValue
    else if s.HeadersAlmostDone? || s.HeadersDone? then InHeadersEnd
    else if s.ChunkSizeStart? || s.ChunkSize? || s.ChunkParameters? || s.ChunkSizeAlmostDone? || s.ChunkData? ||
            s.ChunkDataDone? then InChunk
    else if s.Dead? || s.BodyIdentity? || s.BodyIdentityEof? || s.MessageDone? then InRest
    else InVersion
  }

  /** PARSING_HEADER: the states whose bytes count towards the header size. */
  predicate ParsingHeader(s: State) {
    !(s.ChunkData? || s.ChunkDataAlmostDone? || s.ChunkDataDone? || s.BodyIdentity? || s.BodyIdentityEof? || s.MessageDone?)
  }

  /** One pass through the switch of `http_parser_execute`. */
  function Dispatch(p: Parser, ch: char): (m: Micro)
    ensures Advances(p, m) && Reports(m)
  {
    match PhaseOf(p.state)
    case InFixed => Expect(p, ch)
    case InStart => DispatchStart(p, ch)
    case InUrlPart => DispatchUrl(p, ch)
    case InVersion => DispatchVersion(p, ch)
    case InStatus => DispatchStatus(p, ch)
    case InHeaderName => DispatchHeaderName(p, ch)
    case InHeaderValue => DispatchHeaderValue(p, ch)
    case InEndOfValue => DispatchEndOfValue(p, ch)
    case InHeadersEnd => if p.state.HeadersAlmostDone? then EndOfHeaders(p, ch) else HeadersAreDone(p, ch)
    case InChunk => DispatchChunk(p, ch)
    case InRest => DispatchRest(p, ch)
  }

  /** How many more passes the same byte may take. */
  function Rank(s: State): nat {
    if s.HeaderValueLws? then 4
    else if s.HeaderValueDiscardLws? then 4
    else if s.HeaderFieldStart? then 3
    else if s.HeadersAlmostDone? then 2
    else if s.ResStatusCode? then 2
    else if s.ResStatusStart? then 1
    else if s.StartReqOrRes? then 1
    else if s.HeaderValue? then 1
    else if s.BodyIdentity? then 1
    else 0
  }

  /** The states whose case is a loop over several bytes. */
  predicate IsBulk(s: State) {
    s.HeaderField? || s.HeaderValue? || s.ChunkData? || s.BodyIdentity? || s.BodyIdentityEof?
  }

  /** What every pass does to the byte count, and where a repeated pass may go. */
  predicate Advances(p: Parser, m: Micro) {
    && (m.p.nread == p.nread || (m.p.nread == 0 && !m.next.Again? && !m.p.state.HeaderValue?))
    && (m.p.errno.HeaderOverflow? ==> p.errno.HeaderOverflow?)
    && (!ParsingHeader(p.state) ==> !m.p.state.HeaderValue? && (m.next.Again? ==> m.p.state.MessageDone?))
    && (m.p.errno.Ok? && m.p.state.ChunkSizeStart? ==> m.p.nread == 0)
    && (m.next.Again? ==>
          Rank(m.p.state) < Rank(p.state) && m.p.errno == p.errno && !IsBulk(m.p.state) && !m.p.state.ChunkSizeStart?)
  }

  /** The data callback a byte belongs to when the parser is left in this state. */
  function KindOf(s: State): Option<DataKind> {
    if InUrl(s) then Some(Url)
    else if s.ResStatus? then Some(Status)
    else if s.HeaderField? then Some(HeaderFieldData)
    else if s.HeaderValue? then Some(HeaderValueData)
    else None
  }

  predicate IsData(e: Event, kind: DataKind) {
    e.Data? && e.kind == kind
  }

  /** A pass makes at most one callback, and one that stays inside a data item reports to it. */
  predicate Reports(m: Micro) {
    && |m.events| <= 1
    && (m.p.errno.Ok? && KindOf(m.p.state).Some? ==> |m.events| == 1 && IsData(m.events[0], KindOf(m.p.state).value))
  }

  /** All the passes one byte takes. */
  function Exec(p: Parser, ch: char): Micro
    requires p.errno.Ok?
    decreases Rank(p.state)
  {
    var m := Dispatch(p, ch);
    if m.next.Again? then
      var r := Exec(m.p, ch);
      Micro(r.p, m.events + r.events, r.next)
    else m
  }

  /** A parser, the log of its callbacks, how many bytes it has consumed, and whether it has
      left the connection to another protocol. */
  datatype Config = Config(p: Parser, log: seq<Event>, used: nat, exited: bool)

  predicate Live(c: Config) {
    c.p.errno.Ok? && !c.exited
  }

  function Count(p: Parser): Parser {
    if !ParsingHeader(p.state) then p
    else if p.nread + 1 > MAX_HEADER_SIZE then p.(nread := p.nread + 1, errno := HeaderOverflow)
    else p.(nread := p.nread + 1)
  }

  /** One byte. A parser that has failed or left consumes nothing more. */
  function Step(c: Config, ch: char): Config {
    if !Live(c) then c
    else
      var q := Count(c.p);
      if !q.errno.Ok? then c.(p := q)
      else
        var m := Exec(q, ch);
        Config(m.p, PushAll(c.log, m.events), if m.p.errno.Ok? then c.used + 1 else c.used, m.next.Exit?)
  }

  function Run(c: Config, s: string): Config
    decreases |s|
  {
    if s == [] then c else Run(Step(c, s[0]), s[1..])
  }

  /** End of input: a zero-length call. */
  function Eof(c: Config): Config {
    if !Live(c) then c
    else if c.p.state.BodyIdentityEof? then c.(log := Push(c.log, MessageComplete))
    else if c.p.state.Dead? || c.p.state.StartReqOrRes? || c.p.state.StartRes? || c.p.state.StartReq? then c
    else c.(p := c.p.(errno := InvalidEofState))
  }

  /** `http_parser_init` on a struct whose memory is zero. */
  function Init(kind: Kind, lenient: bool, reply: HeadersReply): Parser {
    Parser(kind, NO_FLAGS, match kind case Request => StartReq case Response => StartRes case Both => StartReqOrRes,
           General, 0, lenient, 0, 0, 0, 0, 0, DELETE, Ok, false, reply)
  }
}
