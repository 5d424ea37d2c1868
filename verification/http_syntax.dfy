/** Character classes, parser states and the URL state function shared by the HTTP
    message parser and the URL parser. A byte of the wire is a `char`; only the first
    256 values occur in practice and the larger ones fall in the class of bytes 128-255. */
module HttpSyntax {

  const CR := '\r'
  const LF := '\n'

  /** `c | 0x20`, the parser's way of folding letters to lower case. */
  function Lower(c: char): char {
    if c as int < 256 && (c as int / 32) % 2 == 0 then (c as int + 32) as char else c
  }

  predicate IsAlpha(c: char) {
    'A' <= c <= 'Z' || 'a' <= c <= 'z'
  }

  predicate IsNum(c: char) {
    '0' <= c <= '9'
  }

  predicate IsAlphaNum(c: char) {
    IsAlpha(c) || IsNum(c)
  }

  predicate IsHex(c: char) {
    IsNum(c) || 'A' <= c <= 'F' || 'a' <= c <= 'f'
  }

  function DigitValue(c: char): (v: nat)
    requires IsNum(c)
    ensures v < 10
  {
    c as int - '0' as int
  }

  /** The value of a hexadecimal digit. */
  function HexValue(c: char): (v: nat)
    requires IsHex(c)
    ensures v < 16
  {
    if IsNum(c) then c as int - '0' as int
    else if 'a' <= c then c as int - 'a' as int + 10
    else c as int - 'A' as int + 10
  }

  /** What the `unhex` table does not refuse: the table lists 128 entries, and the others are 0. */
  predicate IsChunkDigit(c: char) {
    IsHex(c) || c as int >= 128
  }

  function ChunkDigit(c: char): (v: nat)
    requires IsChunkDigit(c)
    ensures v < 16
  {
    if IsHex(c) then HexValue(c) else 0
  }

  predicate IsMark(c: char) {
    c == '-' || c == '_' || c == '.' || c == '!' || c == '~' || c == '*' || c == '\'' || c == '(' || c == ')'
  }

  predicate IsUserinfoChar(c: char) {
    IsAlphaNum(c) || IsMark(c) || c == '%' || c == ';' || c == ':' || c == '&' || c == '=' || c == '+' ||
    c == '$' || c == ','
  }

  /** A non-zero entry of the `tokens` table other than the space. */
  predicate IsToken(c: char) {
    IsAlphaNum(c) || c == '!' || '#' <= c <= '\'' || c == '*' || c == '+' || c == '-' || c == '.' ||
    '^' <= c <= '`' || c == '|' || c == '~'
  }

  /** The entry of the `tokens` table: the character with letters folded to lower case. */
  function TokenLower(c: char): char
    requires IsToken(c)
  {
    if 'A' <= c <= 'Z' then (c as int + 32) as char else c
  }

  /** A set bit of `normal_url_char` in strict mode. */
  predicate IsUrlChar(c: char) {
    c == '!' || c == '"' || '$' <= c <= '>' || '@' <= c <= '~'
  }

  /** IS_HOST_CHAR in strict mode. */
  predicate IsHostChar(c: char) {
    IsAlphaNum(c) || c == '.' || c == '-'
  }

  predicate IsHeaderChar(c: char) {
    c == CR || c == LF || c == '\t' || (c as int > 31 && c as int != 127)
  }

  datatype State =
    | Dead
    | StartReqOrRes
    | ResOrRespH
    | StartRes
    | ResH | ResHT | ResHTT | ResHTTP
    | ResHttpMajor | ResHttpDot | ResHttpMinor | ResHttpEnd
    | ResFirstStatusCode | ResStatusCode | ResStatusStart | ResStatus | ResLineAlmostDone
    | StartReq
    | ReqMethod
    | ReqSpacesBeforeUrl
    | ReqSchema | ReqSchemaSlash | ReqSchemaSlashSlash
    | ReqServerStart | ReqServer | ReqServerWithAt
    | ReqPath | ReqQueryStringStart | ReqQueryString | ReqFragmentStart | ReqFragment
    | ReqHttpStart
    | ReqHttpH | ReqHttpHT | ReqHttpHTT | ReqHttpHTTP | ReqHttpI | ReqHttpIC
    | ReqHttpMajor | ReqHttpDot | ReqHttpMinor | ReqHttpEnd
    | ReqLineAlmostDone
    | HeaderFieldStart | HeaderField
    | HeaderValueDiscardWs | HeaderValueDiscardWsAlmostDone | HeaderValueDiscardLws
    | HeaderValueStart | HeaderValue | HeaderValueLws
    | HeaderAlmostDone
    | ChunkSizeStart | ChunkSize | ChunkParameters | ChunkSizeAlmostDone
    | HeadersAlmostDone | HeadersDone
    | ChunkData | ChunkDataAlmostDone | ChunkDataDone
    | BodyIdentity | BodyIdentityEof
    | MessageDone

  /** The URL state machine, one character at a time; `Dead` is its error state. */
  function ParseUrlChar(s: State, ch: char): State {
    if ch == ' ' || ch == CR || ch == LF || ch == '\t' || ch as int == 12 then Dead
    else if s.ReqSpacesBeforeUrl? then
        if ch == '/' || ch == '*' then ReqPath
        else if IsAlpha(ch) then ReqSchema
        else Dead
    else if s.ReqSchema? then
        if IsAlpha(ch) then ReqSchema
        else if ch == ':' then ReqSchemaSlash
        else Dead
    else if s.ReqSchemaSlash? then if ch == '/' then ReqSchemaSlashSlash else Dead
    else if s.ReqSchemaSlashSlash? then if ch == '/' then ReqServerStart else Dead
    else if s.ReqServerWithAt? then if ch == '@' then Dead else ParseServerChar(ch)
    else if s.ReqServerStart? || s.ReqServer? then ParseServerChar(ch)
    else if s.ReqPath? then
        if IsUrlChar(ch) then ReqPath
        else if ch == '?' then ReqQueryStringStart
        else if ch == '#' then ReqFragmentStart
        else Dead
    else if s.ReqQueryStringStart? || s.ReqQueryString? then ParseQueryChar(ch)
    else if s.ReqFragmentStart? then
        if IsUrlChar(ch) || ch == '?' then ReqFragment
        else if ch == '#' then ReqFragmentStart
        else Dead
    else if s.ReqFragment? then
        if IsUrlChar(ch) || ch == '?' || ch == '#' then ReqFragment else Dead
    else Dead
  }

  function ParseServerChar(ch: char): State {
    if ch == '/' then ReqPath
    else if ch == '?' then ReqQueryStringStart
    else if ch == '@' then ReqServerWithAt
    else if IsUserinfoChar(ch) || ch == '[' || ch == ']' then ReqServer
    else Dead
  }

  function ParseQueryChar(ch: char): State {
    if IsUrlChar(ch) || ch == '?' then ReqQueryString
    else if ch == '#' then ReqFragmentStart
    else Dead
  }

  /** The URL states in which `http_parser_execute` is inside the URL. */
  predicate InUrl(s: State) {
    s.ReqSchema? || s.ReqSchemaSlash? || s.ReqSchemaSlashSlash? || s.ReqServerStart? || s.ReqServer? ||
    s.ReqServerWithAt? || s.ReqPath? || s.ReqQueryStringStart? || s.ReqQueryString? ||
    s.ReqFragmentStart? || s.ReqFragment?
  }

  /** The URL states in which a space or a line end may finish the URL. */
  predicate UrlMayEnd(s: State) {
    s.ReqServer? || s.ReqServerWithAt? || s.ReqPath? || s.ReqQueryStringStart? || s.ReqQueryString? ||
    s.ReqFragmentStart? || s.ReqFragment?
  }

  lemma ParseUrlCharStaysInUrl(s: State, ch: char)
    ensures var t := ParseUrlChar(s, ch); t.Dead? || InUrl(t)
  {}
}
