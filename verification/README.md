# luwu, verified

A Dafny model of the parts of the luwu coroutine server framework whose behaviour is easy to get wrong: the HTTP
message parser and the URL parser, the block-linked byte array and its codec, the I/O event table, the scheduler,
the timers, the WebSocket frames and the text encodings. Code that updates things in place is modelled by classes
and loops; each is proved against a specification, and what the library promises is proved of that specification.

`dafny verify dfyconfig.toml` verifies everything.

## What is modelled

**HTTP messages** (`http_*.dfy`, `numerals.dfy`). `HttpMachine` is the parser as a machine that takes one byte at a
time: every state of the `switch`, the re-execution of a byte, the header-size count, the 64-bit length arithmetic.
`HttpBulk` and `HttpParsing` are `http_parser_execute` as it is written: one buffer, marks that say where a data
callback begins, and the three loops that run ahead through header names, header values and bodies. `Execute` is proved
to leave the state, the joined callbacks, the consumed count and the error that the machine gives, so cutting a stream
into pieces in two ways makes no difference; the one exception, the header byte too many inside a name or a value, is
stated exactly (`http_overflow.dfy` has examples and a bound below which it cannot come up). On the machine are proved:
the assertions inside the parser hold in every reachable state; messages begin and are complete by turns, and the end
of the input is an error exactly inside one (`http_brackets.dfy`); the method and header-name recognisers accept
exactly their words; the Connection list sets exactly the flags that `http_connection.dfy` says; of all values of
Transfer-Encoding exactly the word "chunked" in any case means chunks, and of all values of Content-Length exactly
those with digits up to the largest number are lengths (`http_values.dfy`); the chunked states invert a chunk encoder,
with sizes written in any way, extensions and trailers. `http_codes.dfy`, `http_refusals.dfy` and `http_wire.dfy` say
in character codes which bytes each state lets through, what the others are refused for, and what else a connection may
hold: line ends of one character, request lines without a version, parsers that wait for either kind of message. An
encoder of whole messages (`http_fields.dfy`, `http_framing.dfy`, `http_responses.dfy`) covers every method and target,
every version, header lines in any order with any number of Connection, Proxy-Connection and Upgrade lines among them,
values folded over several lines, all three kinds of body and every answer of the headers callback; any list of
requests, or of responses of which the last may extend to the end of the connection, is reported as exactly those
messages, whatever the pieces, and a message that asks for another protocol is the last thing the parser consumes.
`http_carried.dfy` says which lists of messages that each fit are refused all the same, `http_conflicts.dfy` which
heads that say twice where the body ends.

**URLs** (`url_*.dfy`, `uri*.dfy`). The two state machines are characterised without running them: a text is kept as a
list of parts, and a shape predicate says which lists of parts are URLs. What `ParseUrl` (three passes, 16-bit offsets)
accepts and records is given for every text; that these are the URLs and their components is proved exactly when
nothing is cut (`url_bounds.dfy`). On top of it are `URI::Create` on every text, and `toString`: the two round-trip
exactly when there is a scheme and the host has only host characters; `uri_grammar.dfy` and `uri_text.dfy` say in
character codes exactly which texts are URLs, what is read and printed, and what CONNECT accepts.

**Byte array** (`byte_*.dfy`). A linked list of blocks with a cursor, each method proved against one flat sequence;
scatter/gather segments that alias the blocks; fixed-width integers in either order on a host of either order, varints,
zigzag with wrap-around, and strings, each given byte by byte (`byte_wire.dfy`). Any list of values is read back as it
was written.

**I/O events** (`io_*.dfy`, `iomanager.dfy`). The table of descriptor contexts, the pending count
and the kernel's interest set, with `epoll_ctl` free to fail at any call; the invariant ties the four together and
accounts for every waiter. `IoWakes` says whom each call wakes, takes out or makes wait, from the bits of the masks
alone. `IoRuns` is the calls of several threads in their sections, with the gap between fetching a context and working
on it and with tables that shrink: a step keeps the invariant exactly if it is harmless, and `IoThreads` says whom it
wakes.

**Scheduler** (`scheduler*.dfy`). The queue search, and the interleavings of any number of threads: order, pinning, the
counts, when an idle fiber ends, when `stopping` stays true and when no task is left behind.

**Timers** (`timer*.dfy`). The ordered set with keys that change only outside it, expiry, and the wake-up flag: over a
run no deadline earlier than the last answer goes unnoticed exactly if every step is harmless, sums that wrap around
included; and how long the event loop then sleeps.

**WebSocket** (`streams.dfy`, `fallible_stream.dfy`, `ws_*.dfy`). Frames, byte by byte, over streams with arbitrary
short reads and writes, the 64-bit sum of lengths included; and what a failed read or write does to the loops that
complete short ones.

**Encodings** (`base64.dfy`, `percent.dfy`, `text_codes.dfy`). Base64, hexadecimal and percent-encoding, their
alphabets and what is accepted.

Bytes of text protocols are characters; bytes of binary data are numbers below 256; a bit operation on words is
written as the arithmetic it performs.

## Where the code does not do what one would expect

- The table for percent-encoding marks `=` as a character to keep (`luwu/ext.cpp:52-73`), although the comment above
  the function does not list it; the model keeps it.
- A parser that sees too many header bytes in the middle of a header name or value goes on to the end of the buffer or
  of the item before it notices, because the count is only checked at the start and at the end of a bulk loop
  (`luwu/http/http-parser/http_parser.c:1368-1372`), and may report another error that lies there:
  `DivisionIsFree` says exactly for which streams the division into pieces then makes a difference, `LongName` and
  `BadCharacter` are two of them, and `ShortStreams` gives a length below which there are none.
- The table of hexadecimal digits has 256 entries of which only 128 are written
  (`luwu/http/http-parser/http_parser.c:224-233`), so that in a chunk size a byte from 128 on counts as the digit 0:
  `ChunkSizeExact`.
- In a Connection list a token that is the beginning of `keep-alive`, `close` or `upgrade` hides the token after it, and
  one that begins with an underscore hides all that follow (`luwu/http/http-parser/http_parser.c:1581-1650`):
  `SeenExact` says which tokens are compared and that exactly those count, `FlagsExact` that the flags are right exactly
  if each listed word is among them or its flag was set before, and `CutHides` shows a case where it is not.
- A line that continues a value makes the parser forget what the value said
  (`luwu/http/http-parser/http_parser.c:1681-1690`), so that a Transfer-Encoding line with "chunked" and a blank line of
  continuation does not mean chunks: `FoldingForgets`.
- CONNECT accepts a target with an "@" in front of the host, with a "?" behind the port, and with "#"s behind that
  (`luwu/http/http-parser/http_parser.c:2433-2436`), because only components that are not empty count: `ConnectTargets`.
- A version with a zero in it, such as 2.0, is treated like 1.0 (`luwu/http/http-parser/http_parser.c:2111-2125`), as
  `Persists` says.
- `addEvent` releases the lock of the table before it grows it and before it locks the context it fetched
  (`luwu/iomanager.cpp:97-111`), and growth to twice a descriptor can make the table smaller. `NextExact` says exactly
  which steps do harm: growth that takes out a context someone waits in (`RacingGrowthLoses`), and registering in a
  context that the table has lost (`HeldContextLost`). While no thread makes the table smaller there is none
  (`WideningRuns`).
- A report that mixes awaited and other events stops the program at an assertion (`luwu/iomanager.cpp:361-368`);
  `MayReportExact` says when, and `MixedReportHappens` that it can come about.
- The sum of the lengths of a WebSocket message is computed in 64 bits (`luwu/http/ws_session.cpp:142`), so a frame that
  says it has nearly 2^64 bytes passes the test of the size and is read to a place behind the buffer:
  `OverrunExact` says exactly when, `WrappedLengthOverruns` shows a case.
- The error of a read or write is kept in an unsigned word (`luwu/streams/stream.cpp:8-46`), so the loop that completes
  short ones does not see it and steps back by one byte: one is lost (`FailuresLoseBytes`) or sent twice
  (`FailuresRepeatBytes`) for each failure.
- Offsets and lengths of a URL are kept in 16 bits, and the second and third pass work on what they say
  (`luwu/http/http-parser/http_parser.c:2258-2462`). `RecordedExactly`: a URL is recorded right exactly if its authority
  is shorter than 2^16 and every component begins before 2^16 and is shorter. Of others, some are refused and some
  are accepted with the beginning of the host for the host (`LongHost`); texts that are no URLs are accepted
  (`AcceptedNonUrl`); a path, query or fragment of 2^16 characters or more is never given whole (`GivenWhole`), one of
  a multiple of 2^16 is read as none (`LongPathIsLost`); and a stretch that is no number can be read for the port, on
  which `URI::Create` throws (`MisreadPortThrows`).
- The time to the next deadline is cast to `int` (`luwu/iomanager.cpp:301-306`), so that a timer due in 25 days can make
  the event loop sleep without a limit: `SleepExact`.
- The bytes of a trailer are still counted when the next head on the connection begins, because the end of a trailer
  does not set the count back (`luwu/http/http-parser/http_parser.c:1761-1766`): `ToldApartExactly` and
  `ResponsesToldApartExactly` say exactly which lists of messages that each fit are refused, `TrailerCrowdsOut` shows one.
- A header value is reported when its line ends, before its bytes are counted
  (`luwu/http/http-parser/http_parser.c:1475-1480`), so that one that ends beyond the limit is still reported; `Tells`
  gives the callbacks of a call that fails there.
- A response without a body by its code (204, 304 and 1xx) that carries a length is read with a body of that length
  (`luwu/http/http-parser/http_parser.c:1847-1858`), as `RunResponse` states.
- A timer that is refreshed, or set again at expiry, asks for no wake-up (`luwu/timer.cpp:46-59`, `luwu/timer.cpp:154-159`);
  with a sum beyond 64 bits one can be lost: `WrappedRefreshLoses` and `WrappedExpiryLoses` are runs, `RefreshExact` and
  `ExpireExact` say exactly when, and `RunsExact` for whole runs.
- A one-shot timer keeps its callback when it has fired (`luwu/timer.cpp:154-163`); cancelling it then would take the end
  of the set out (`luwu/timer.cpp:38-41`). `FiredOneShot` makes one.
- The positional read of the byte array starts in the current block whatever the position (`luwu/bytearray.cpp:393-397`):
  `ReadsFromIsRight` says exactly when that is right.

## Model

| member | source | states |
|---|---|---|
| HttpParsing.HttpParser.Execute | luwu/http/http-parser/http_parser.c:638-2084 | A call on a buffer, with its marks and bulk loops, leaves the state, the joined callbacks, the consumed count and the error of the byte-at-a-time machine; before an error only data that was still gathering is not reported, or, when there are too many header bytes, also a value that the call has read to its end is; the late notice of too many is given exactly |
| HttpParsing.Feed | luwu/http/http-parser/http_parser.c:638-712 | Feeding a stream in any non-empty pieces agrees with the machine on the whole stream, errors and the callbacks before them included |
| HttpParsing.FeedBothWays | luwu/http/http-parser/http_parser.c:2064-2083 | The same bytes in two different divisions both succeed or both fail; on success with the same state, joined callbacks and count, and on failure with the same error and count unless the division is not free |
| HttpParsing.DivideDifferently | luwu/http/http-parser/http_parser.c:1368-1372 | When the division is not free, the stream in one piece and cut before the byte too many do differ, in the error or in the count |
| HttpOverflow.ShortStreams | luwu/http/http-parser/http_parser.c:155-162 | A stream no longer than what may still be counted never has too many header bytes |
| HttpOverflow.LongName | luwu/http/http-parser/http_parser.c:1248-1382 | A header name two characters too long: its division makes a difference |
| HttpOverflow.BadCharacter | luwu/http/http-parser/http_parser.c:1469-1668 | A bad character right after the last header byte allowed: one division finds it, another too many bytes |
| HttpBulk.HeaderFieldCase | luwu/http/http-parser/http_parser.c:1248-1382 | The loop over a header name does what the machine does byte by byte, size limit included |
| HttpBulk.HeaderValueCase | luwu/http/http-parser/http_parser.c:1469-1668 | The loop over a header value, with its skip to the next line end, does the same |
| HttpBulk.BodyCase | luwu/http/http-parser/http_parser.c:1873-2028 | Taking a body or chunk in one go is taking its bytes one by one |
| HttpExecute.SwitchOnce | luwu/http/http-parser/http_parser.c:713-2055 | One pass of the switch with marks makes the callbacks the machine reports |
| HttpLog.RunAppend | luwu/http/http-parser/http_parser.c:700-712 | The machine on a concatenation is the machine on the parts in turn |
| HttpLog.RunCoherent | luwu/http/http-parser/http_parser.c:682-705 | In a data state the log ends with that data, so a mark can be set again at the next buffer |
| HttpInvariant.AssertionsAlwaysHold | luwu/http/http-parser/http_parser.c:1878-2033 | Whatever was fed before, every pass over every byte meets only true assertions and in-range indices |
| HttpInvariant.ExecKeepsInv | luwu/http/http-parser/http_parser.c:713-2055 | Re-executing a byte through any number of states keeps the invariant and ends |
| HttpInvariant.DispatchKeepsInv | luwu/http/http-parser/http_parser.c:715-2055 | Every state's case keeps the invariant or reports an error |
| HttpBrackets.MessagesTakeTurns | luwu/http/http-parser/http_parser.c:713-2084 | Over every input: message-begin and message-complete take turns, begin first, and without an error one is open exactly if the parser is inside a message |
| HttpBrackets.EndOfInput | luwu/http/http-parser/http_parser.c:658-680 | The end of the input is an error exactly if a message is open, but for one whose body is all that comes, and which is then complete |
| HttpRefusals.FirstBytes | luwu/http/http-parser/http_parser.c:726-960 | What may be the first byte of a message and what any other is refused for, by the letters |
| HttpRefusals.LastBytes | luwu/http/http-parser/http_parser.c:716-724 | After a message that ends the connection: line ends, and anything else is refused as such |
| HttpRefusals.TargetBytes | luwu/http/http-parser/http_parser.c:1016-1087 | In a target: what the URL machine lets through, a space or a line end where it may end; anything else is an invalid URL |
| HttpRefusals.WordBytes | luwu/http/http-parser/http_parser.c:781-842 | In HTTP, ICE and the version: one byte each, and the error for any other |
| HttpRefusals.VersionBytes | luwu/http/http-parser/http_parser.c:1089-1196 | Around a version: a space, H, or I after SOURCE; digits; a line end; and the errors |
| HttpRefusals.StatusBytes | luwu/http/http-parser/http_parser.c:843-918 | In a status line: digits up to three, a space, a line end, and in the reason anything |
| HttpRefusals.HeaderBytes | luwu/http/http-parser/http_parser.c:1198-1526 | In header names and ordinary values: by the codes, in lenient parsers any byte of a value |
| HttpRefusals.HeadEndBytes | luwu/http/http-parser/http_parser.c:1757-1830 | At the end of a head: LF alone |
| HttpRefusals.ChunkBytes | luwu/http/http-parser/http_parser.c:1916-2045 | Between chunks: a size must begin with a digit, an extension may hold anything, line ends are whole |
| HttpRefusals.LineEndBytes | luwu/http/http-parser/http_parser.c:1187-1196 | After a CR: LF, and the error for any other |
| HttpCodes.LettersAndDigits | luwu/http/http-parser/http_parser.c:413-420 | Letters and digits by their codes, and what folding does to letters |
| HttpCodes.TokenCharacters | luwu/http/http-parser/http_parser.c:189-221 | The characters of header names, by their codes, and how letters are folded |
| HttpCodes.ValueCharacters | luwu/http/http-parser/http_parser.c:442-447 | The characters of header values, by their codes |
| HttpCodes.SizeCharacters | luwu/http/http-parser/http_parser.c:224-233 | The digits of chunk sizes and their values, by their codes |
| HttpCodes.UrlCharacters | luwu/http/http-parser/http_parser.c:243-276 | The characters of paths, by their codes; all that RFC 3986 allows in a segment are among them |
| HttpCodes.UserinfoCharacters | luwu/http/http-parser/http_parser.c:421-426 | The characters of userinfo, by their codes |
| HttpCodes.HostCharacters | luwu/http/http-parser/http_parser.c:2176-2256 | The characters of hosts, of addresses in brackets and of zones, by their codes |
| HttpCodes.PlainMethods | luwu/http/http-parser/http_parser.h:164-172 | The words for the methods of HTTP |
| HttpCodes.ResourceMethods | luwu/http/http-parser/http_parser.h:174-181 | Those of WebDAV for resources |
| HttpCodes.BindingMethods | luwu/http/http-parser/http_parser.h:182-185 | Those for bindings, access and calendars |
| HttpCodes.VersionMethods | luwu/http/http-parser/http_parser.h:187-193 | Those for versions and announcements |
| HttpCodes.OtherMethods | luwu/http/http-parser/http_parser.h:194-205 | The others |
| HttpCodes.WordsDiffer | luwu/http/http-parser/http_parser.h:163-205 | No two methods have the same word |
| HttpWire.LineFeedAlone | luwu/http/http-parser/http_parser.c:1062-1078 | Wherever a line of a head may end, LF alone ends it as CR and LF do |
| HttpWire.LineEndsBefore | luwu/http/http-parser/http_parser.c:920-924 | Line ends before a message are skipped, as far as header bytes may go |
| HttpWire.BlanksSkipped | luwu/http/http-parser/http_parser.c:1384-1398 | Spaces before a target, a version or a code, and spaces and tabs before a value, are passed over |
| HttpWire.LateValue | luwu/http/http-parser/http_parser.c:1721-1726 | A value may begin on the line after its name |
| HttpWire.FoldingForgets | luwu/http/http-parser/http_parser.c:1681-1690 | A continuing line is reported with its value, but what the value said is forgotten, but for a length |
| HttpWire.HeadLimit | luwu/http/http-parser/http_parser.c:150-162 | The byte after the 81920th of a head is refused |
| HttpWire.OtherLetterIsRequest | luwu/http/http-parser/http_parser.c:726-744 | A parser for both kinds reads a message that does not begin with H as a parser for requests does |
| HttpWire.SecondLetterTells | luwu/http/http-parser/http_parser.c:746-761 | After H it reads on as a parser for responses if T follows, and as one for requests if E does |
| HttpWire.NoVersion | luwu/http/http-parser/http_parser.c:1068-1078 | A request line without a version counts as one of version 0.9 |
| HttpWire.IceIsForSource | luwu/http/http-parser/http_parser.c:1096-1134 | ICE stands for HTTP after the method SOURCE and after no other |
| HttpWords.HeldExactly | luwu/http/http-parser/http_parser.h:163-205 | The method recogniser ends on a method having consumed a word exactly when the word is its name |
| HttpWords.HeldIsPrefix | luwu/http/http-parser/http_parser.c:963-1014 | The bytes consumed are always the beginning of the current method's name |
| HttpWords.MethodAccepted | luwu/http/http-parser/http_parser.c:920-1014 | A word and a space reach the URL with method m exactly when the word is the name of m |
| HttpWords.RunName | luwu/http/http-parser/http_parser.c:1198-1382 | A header name is recognised as special exactly when it is, in any case, one of the five names |
| HttpConnection.ConnectionLine | luwu/http/http-parser/http_parser.c:1581-1650 | A Connection or Proxy-Connection line of any list of tokens, with any spaces after commas and its name in any case, sets exactly the flags of its list |
| HttpConnection.SeenExact | luwu/http/http-parser/http_parser.c:1581-1650 | A list sets each flag exactly if it was set or its word is among the tokens that are compared |
| HttpConnection.FlagsExact | luwu/http/http-parser/http_parser.c:1581-1650 | Each flag is set exactly if it was or its word is listed, if and only if every listed word is among the tokens compared or its flag was set |
| HttpConnection.NothingHidden | luwu/http/http-parser/http_parser.c:1581-1650 | That is so when no token is the beginning of one of the three words or begins with an underscore |
| HttpConnection.CutHides | luwu/http/http-parser/http_parser.c:1581-1650 | A list that names close and does not set its flag |
| HttpValues.CodingLine | luwu/http/http-parser/http_parser.c:1406-1421 | A Transfer-Encoding line, its name in any case: of all values exactly the word "chunked", each letter small or capital, with spaces after it or not, says chunks; no other touches a flag |
| HttpValues.LengthLine | luwu/http/http-parser/http_parser.c:1423-1557 | A Content-Length line, its name in any case: accepted exactly if it is the first and its value is digits of a number up to 2^64 - 7 with spaces after it or not; and what any other is refused for |
| HttpChunks.ContentLengthExact | luwu/http/http-parser/http_parser.c:1529-1557 | Content-Length digits are accepted exactly within the limit; the value is their decimal value, below the sentinel |
| HttpChunks.ChunkSizeExact | luwu/http/http-parser/http_parser.c:1925-1976 | What the table takes for digits of a chunk size is accepted exactly within the limit; the value is that of the digits, a byte from 128 on counting as 0, and is below the sentinel |
| HttpChunks.SizeRefuses | luwu/http/http-parser/http_parser.c:1925-1976 | Any other character but those that end the size is refused |
| HttpChunks.RunChunks | luwu/http/http-parser/http_parser.c:1916-2045 | For every list of non-empty chunks, their sizes in digits of either case with any zeros in front and any extension: each announced, delivered and completed in order, the trailer reported, the message completed once |
| HttpChunks.RunChunkData | luwu/http/http-parser/http_parser.c:2007-2045 | A chunk's data is delivered whole and nothing beyond it |
| HttpMessages.RunHeaderLine | luwu/http/http-parser/http_parser.c:1198-1720 | A header line is reported as its name and its value |
| HttpMessages.RunUrl | luwu/http/http-parser/http_parser.c:1016-1087 | A target that the URL machine accepts, for CONNECT from the authority on, is reported whole |
| HttpFraming.RunRequest | luwu/http/http-parser/http_parser.c:920-2045 | One encoded request (any method, target, version, header lines in any order with any Connection and Upgrade lines among them, folded values, and no body, a sized body or chunks, said and written in any way that has this meaning) gives its events once, in order; then the parser is ready again, or refuses what follows, or has left to another protocol, as the request says |
| HttpFraming.SteeringExact | luwu/http/http-parser/http_parser.c:1777-1792 | For every message: the connection goes on exactly as the close and keep-alive that are compared and the version say, and switches exactly as upgrade, the Upgrade lines, the callback and CONNECT say |
| HttpFraming.BodyExact | luwu/http/http-parser/http_parser.c:1826-1871 | A body comes exactly if the callback does not skip it, there is one, and CONNECT has not switched; and what tells where the message ends |
| HttpFraming.NothingMayFollow | luwu/http/http-parser/http_parser.c:715-724 | After a message that ends the connection only line ends are let through, as far as header bytes may go |
| HttpFields.RunLines | luwu/http/http-parser/http_parser.c:1198-1720 | Any list of header lines that do not steer the parser, with values folded over any number of lines, is reported line by line, the value joined, and leaves flags and length alone |
| HttpFields.EmptyValue | luwu/http/http-parser/http_parser.c:1714-1757 | A line with an empty value, its name special or not, is reported with it and says nothing, and what follows is read as the next line; an empty length is refused |
| HttpFraming.RunRequests | luwu/http/http-parser/http_parser.c:1916-1923 | Any list of requests that let another one follow is told apart |
| HttpConflicts.TwiceExactly | luwu/http/http-parser/http_parser.c:1759-1775 | A head that frames its body twice goes through exactly if both lines say chunks, and then as with one; a second length is refused at its first digit, and a length beside chunks at the end of the head, in either order |
| HttpCarried.ToldApartExactly | luwu/http/http-parser/http_parser.c:1761-1766 | Requests that each fit alone and let another one follow are told apart exactly if each fits behind the trailer of the one before; otherwise the parser fails for too many header bytes |
| HttpCarried.TrailerCrowdsOut | luwu/http/http-parser/http_parser.c:1761-1766 | Two requests that each fit and are not told apart |
| HttpResponses.RunCode | luwu/http/http-parser/http_parser.c:843-886 | A status code of up to three digits is read back |
| HttpResponses.RunStatusLine | luwu/http/http-parser/http_parser.c:763-918 | A status line of any version is reported as its reason, an empty one too |
| HttpResponses.RunResponse | luwu/http/http-parser/http_parser.c:1826-1871 | A response that says where it ends (by a length, by chunks, by its code, or because the callback skips its body) gives its events once, in order; then the next is awaited, or refused, or the parser has left to another protocol |
| HttpResponses.RunResponses | luwu/http/http-parser/http_parser.c:2088-2127 | Any list of such responses on one connection is told apart |
| HttpCarried.ResponsesToldApartExactly | luwu/http/http-parser/http_parser.c:1761-1766 | The same exact condition for responses |
| HttpResponses.RunLast | luwu/http/http-parser/http_parser.c:660-666 | Any other response takes all further bytes as its body, and only the end of the connection completes it |
| HttpStream.ParseRequests | luwu/http/http-parser/http_parser.c:638-2084 | Any pieces of the encoding of any list of requests give exactly their events; of what follows a request for another protocol nothing is consumed |
| HttpStream.ParseResponses | luwu/http/http-parser/http_parser.c:638-2084 | The same for a connection of responses, and then its end, the last response ending by itself, with the connection or in another protocol |
| Numerals.NumeralValue | luwu/http/http-parser/http_parser.c:1941-1976 | Digits written for a number stand for that number |
| UrlGrammar.UrlScanSound | luwu/http/http-parser/http_parser.c:490-636 | A surviving URL machine has split its text into the parts of a beginning of a URL |
| UrlGrammar.UrlScanComplete | luwu/http/http-parser/http_parser.c:490-636 | The URL machine survives on every beginning of a URL and splits it in the given way |
| UrlHost.HostScanSound | luwu/http/http-parser/http_parser.c:2176-2256 | A surviving authority machine has split its text into userinfo, host, zone, port and delimiters |
| UrlHost.HostScanComplete | luwu/http/http-parser/http_parser.c:2176-2256 | The authority machine survives on every beginning of an authority and splits it in the given way |
| UrlParsing.HttpUrl.ParseUrl | luwu/http/http-parser/http_parser.c:2345-2466 | For every text: succeeds exactly if both scans end well, the second on the stretch that 16 bits say, and the port read is below 2^16; and the struct then holds exactly the non-empty components of these scans, in 16 bits, and the port |
| UrlParsing.HttpUrl.MarkFields | luwu/http/http-parser/http_parser.c:2363-2422 | The first pass marks exactly the outer components, offsets and lengths modulo 2^16 |
| UrlParsing.HttpUrl.ParseHost | luwu/http/http-parser/http_parser.c:2258-2338 | The second pass succeeds exactly on complete authorities and marks userinfo, host and port, changing no other field |
| UrlParsing.ParsePort | luwu/http/http-parser/http_parser.c:2437-2462 | On any characters: stops early exactly when what it adds up goes beyond 65535; else gives it |
| UrlParsing.PortReadIsValue | luwu/http/http-parser/http_parser.c:2437-2462 | On digits what it adds up is their decimal value |
| UrlBounds.RecordedExactly | luwu/http/http-parser/http_parser.c:2363-2462 | A URL is accepted with every component at its place exactly if nothing is cut: its authority is shorter than 2^16, and each component begins before 2^16 and is shorter |
| UrlBounds.ShortHeadExact | luwu/http/http-parser/http_parser.c:2345-2466 | Of the texts whose authority ends before 2^16, all texts shorter than that among them, exactly the URLs are accepted, and split as they should be |
| UrlBounds.LongHost | luwu/http/http-parser/http_parser.c:2258-2338 | A host alone is cut to its length modulo 2^16: accepted, with that beginning, exactly if that is not 0 |
| UrlBounds.AcceptedNonUrl | luwu/http/http-parser/http_parser.c:2258-2338 | A host of a multiple of 2^16 characters and a colon without a port is no URL and is accepted |
| UrlParsing.OneWay | luwu/http/http-parser/http_parser.c:2345-2466 | A text is a URL in at most one way |
| UrlParsing.FieldsInOrder | luwu/http/http-parser/http_parser.c:2345-2466 | Components are in-bounds spans of the text, disjoint, in the order scheme, userinfo, host, port, path, query, fragment |
| UrlParsing.OnlyDelimitersBetween | luwu/http/http-parser/http_parser.c:2366-2376 | Every character of a URL is in a component or is a delimiter |
| Uris.Uri.Create | luwu/uri.cpp:10-63 | For every text: null exactly if it is refused, throws exactly if the port read for the second time has no digit in front, and otherwise the getters give what 16 bits record |
| Uris.ReadExactly | luwu/uri.cpp:22-61 | For a URL of which nothing is cut that is the components whole, and it does not throw |
| Uris.GivenWhole | luwu/uri.cpp:48-61 | A path, query or fragment of 2^16 characters or more is never given whole, and one that begins before 2^16 is exactly if it is shorter |
| Uris.LongPathIsLost | luwu/uri.cpp:48-51 | A path of a multiple of 2^16 characters is read as none |
| Uris.MisreadPortThrows | luwu/uri.cpp:35-37 | URLs of which a stretch of the scheme is read for the port: creating throws |
| UriPrinting.PrintedWritten | luwu/uri.cpp:82-97 | What a URI with a scheme and host characters prints is a URL with the same getters |
| UriPrinting.RoundTrip | luwu/uri.cpp:65-114 | Creating from what a created URI prints gives an equal one exactly when it has a scheme and only host characters in its host |
| UriPrinting.CreateAgain | luwu/uri.cpp:10-97 | The same on objects, for every text that is a URL of which nothing is cut, with printed forms below 2^16 bytes |
| UriPrinting.LongHostIsRefused | luwu/http/http-parser/http_parser.c:2258-2338 | What a URI with a host of a multiple of 2^16 characters prints is a URL and is refused |
| UriGrammar.UrlTexts | luwu/http/http-parser/http_parser.c:490-636 | Exactly which texts below 2^16 characters are URLs, by character codes: scheme, userinfo, host or address in brackets with a zone, port, path, query and fragment, each in its place, or a path alone |
| UriGrammar.CreateTells | luwu/uri.cpp:10-63 | Such a text is read back as these components; the port is the number written, else 80 for http and ws and 443 for https and wss |
| UriText.Printed | luwu/uri.cpp:82-113 | What is printed, letter by letter: the port is left out exactly if it is that of the scheme, and is decimal without zeros in front otherwise |
| UriText.GettersChoose | luwu/uri.cpp:65-80 | An empty path counts as "/", a port of 0 as that of the scheme |
| UriText.SameGetters | luwu/uri.h:29-41 | What no getter tells apart |
| UriText.ConnectTargets | luwu/http/http-parser/http_parser.c:2433-2436 | Exactly which texts below 2^16 characters are targets of CONNECT |
| UriText.RequestTargets | luwu/http/http-parser/http_parser.c:1016-1087 | Exactly which texts a request may have for its target: those that the parts of a URL, or of an authority for CONNECT, may begin with, as far as an authority, a path or a "?" |
| ByteArrays.ByteArray.Write | luwu/bytearray.cpp:322-356 | Exactly the bytes from the position on are overwritten, position and size move, no more blocks are added than needed |
| ByteArrays.ByteArray.WriteBlocks | luwu/bytearray.cpp:329-351 | The copying loop across blocks overwrites one flat range and leaves the cursor on the block of the new position |
| ByteArrays.ByteArray.Read | luwu/bytearray.cpp:358-386 | Fails changing nothing exactly when too little is left; otherwise gives the next bytes of the flat sequence |
| ByteArrays.ByteArray.ReadAt | luwu/bytearray.cpp:388-417 | The positional read gives the bytes from the same offset of the current block, limited by what is left at the current position |
| ByteArrays.ByteArray.ReadsFromIsRight | luwu/bytearray.cpp:393-417 | It begins at the position asked for exactly when that lies in the current block, and stays within the size exactly when the offset is not beyond the current one |
| ByteArrays.ByteArray.CursorAt | luwu/bytearray.cpp:329-330 | Below the capacity the current block is the one at position divided by block size |
| ByteArrays.ByteArray.CursorNull | luwu/bytearray.cpp:476-478 | The current block is null exactly at the capacity |
| ByteArrays.ByteArray.AddCapacity | luwu/bytearray.cpp:488-518 | Makes room with the fewest new blocks, old contents kept |
| ByteArrays.ByteArray.SetPosition | luwu/bytearray.cpp:462-478 | Fails beyond the capacity; otherwise position, size and current block follow |
| ByteArrays.ByteArray.Clear | luwu/bytearray.cpp:309-320 | Leaves the first block, empty |
| ByteArrays.ByteArray.GetReadBuffers | luwu/bytearray.cpp:530-559 | The segments hold, in order, exactly what a read would give, and nothing changes |
| ByteArrays.ByteArray.GetReadBuffersAt | luwu/bytearray.cpp:561-595 | The same from any position from which the bytes counted at the current one do not go beyond the capacity |
| ByteArrays.ByteArray.GetWriteBuffers | luwu/bytearray.cpp:597-625 | The segments stand for the next bytes to be written, room for them made |
| ByteArrays.ByteArray.Receive | luwu/streams/socket_stream.cpp:33-44 | Filling the segments with fewer bytes than asked for and moving the position has the effect of a write |
| ByteBlocks.GatherIsRead | luwu/bytearray.cpp:543-557 | What segments hold is the flat range they stand for |
| ByteBlocks.SegmentsApart | luwu/bytearray.cpp:543-557 | Segments are non-empty and share no byte |
| ByteBlocks.Scatter | luwu/bytearray.cpp:597-625 | Writing into segments overwrites one flat range |
| ByteBlocks.Segments | luwu/bytearray.cpp:543-557 | The segment loop covers exactly the bytes asked for |
| ByteBlocks.BackedIsContents | luwu/bytearray.cpp:329-351 | A sequence that agrees with every block is the contents |
| ByteArrays.ByteArray.WriteFix | luwu/bytearray.cpp:47-87 | The bytes are those of the chosen order, whatever the order of the host |
| ByteArrays.ByteArray.WriteUint | luwu/bytearray.cpp:101-133 | Writes the base-128 form; the scratch buffer of 5 or 10 bytes suffices |
| ByteArrays.ByteArray.ReadUint | luwu/bytearray.cpp:227-261 | Reads the base-128 form cut to the word; when bytes run out those read stay read |
| ByteArrays.ByteArray.ReadStringFix | luwu/bytearray.cpp:277-299 | Reads the length and then that many bytes, or fails |
| ByteCodec.SwapMeetsOrder | luwu/bytearray.cpp:47-87 | Swapping when the orders differ makes the bytes independent of the host |
| ByteCodec.VarintRoundTrip | luwu/bytearray.cpp:227-261 | A base-128 number is read back and what follows is left |
| ByteCodec.VarintLength | luwu/bytearray.cpp:101-133 | A number of 7n bits takes at most n bytes |
| ByteCodec.ZigzagRoundTrip | luwu/bytearray.cpp:219-221 | Zigzag with wrap-around is inverted on every value, the most negative one included |
| ByteCodec.DecodeEncode | luwu/bytearray.cpp:39-307 | Every value in every form is decoded from its encoding followed by anything |
| ByteWire.FixedExactly | luwu/bytearray.cpp:39-87 | The bytes of a word are those, and the only ones, that stand for it, read from the end the byte order says |
| ByteWire.SignedIs | luwu/bytearray.cpp:39-62 | A signed word is written as its value modulo 2^(8w) |
| ByteWire.VarintBytes | luwu/bytearray.cpp:101-133 | A varint is its groups of seven bits, lowest first, with the high bit on all but the last, and as few as possible |
| ByteWire.VarintReadExactly | luwu/bytearray.cpp:227-261 | What is read as a varint of any bytes: up to the first without the high bit or until the word is full, and of the number whose groups they hold what the word holds; short exactly if the bytes end before |
| ByteWire.EncodedForms | luwu/bytearray.cpp:39-165 | What each form is made of: fixed words, varints, zigzag numbers, and strings behind their length |
| ByteValues.WriteAll | luwu/bytearray.cpp:39-165 | A list of values is written as the concatenation of their encodings |
| ByteValues.ReadAll | luwu/bytearray.cpp:171-307 | The values that come next are read in order, whatever follows |
| ByteValues.RoundTrip | tests/test_bytearray.cpp:13-41 | Any list of values, any block size, either byte order, either host: written, rewound and read it is the same list and nothing is left |
| IoRuns.NextExact | luwu/iomanager.cpp:95-253 | A section of a call, or the handling of a report, keeps the invariant exactly if it is harmless |
| IoRuns.RunsKeepInv | luwu/iomanager.cpp:95-253 | In every state of every run of harmless steps, with epoll_ctl free to fail: count, bits, contexts, kernel set and waiters agree, and nobody waits in a context the table has lost |
| IoRuns.RunsExact | luwu/iomanager.cpp:95-253 | A run keeps that throughout exactly if all its steps are harmless |
| IoRuns.ActExact | luwu/iomanager.cpp:97-147 | Working on a fetched context keeps the invariant exactly if it does not register in one that the table has lost |
| IoRuns.GrowExact | luwu/iomanager.cpp:97-108 | Growth by a thread that looked earlier keeps the invariant exactly if nobody waits in a context it takes out |
| IoRuns.WideningRuns | luwu/iomanager.cpp:73-82 | In runs in which the table never gets smaller the invariant always holds and no context is lost |
| IoEvents.RegisterKeepsInv | luwu/iomanager.cpp:110-147 | Registering in a context of the table keeps the invariant whether or not epoll_ctl succeeds |
| IoEvents.AddKeepsInv | luwu/iomanager.cpp:95-147 | So does a whole registration, with the growth before it, by one thread |
| IoEvents.DelKeepsInv | luwu/iomanager.cpp:149-182 | Deleting does |
| IoEvents.CancelKeepsInv | luwu/iomanager.cpp:184-215 | Cancelling does, waking the waiter once |
| IoEvents.CancelAllKeepsInv | luwu/iomanager.cpp:217-253 | Cancelling everything on a descriptor does |
| IoEvents.OnReadyKeepsInv | luwu/iomanager.cpp:324-369 | Handling a readiness report does, errors and hang-ups counted as every awaited event |
| IoEvents.MayReportExact | luwu/iomanager.cpp:336-365 | No assertion fails while a report is handled exactly if nothing that is not awaited is mixed with something that is |
| IoEvents.MixedReportHappens | luwu/iomanager.cpp:324-369 | Both events are reported, one is cancelled before the loop takes the lock: such a mix comes about |
| IoEvents.RequestsAreLegal | luwu/iomanager.cpp:119-124 | epoll_ctl is never asked to add twice or to change what is not registered |
| IoEvents.NothingPending | luwu/iomanager.cpp:275-278 | With no event pending nobody waits, the kernel watches nothing and every waiter was woken or deleted |
| IoEvents.NeverTwice | luwu/iomanager.cpp:34-45 | A waiter added once is in exactly one place: waiting, woken once, or deleted |
| IoEvents.DistinctReports | luwu/iomanager.cpp:324-331 | A batch that reports each descriptor once need only fit what was awaited when it began |
| IoWakes.ReportWakes | luwu/iomanager.cpp:336-369 | A report wakes the reader exactly if one waits and the descriptor is readable or broken, likewise the writer, and nobody else; the kernel watches what is left; nothing changes if epoll_ctl fails |
| IoWakes.ReportsSurvived | luwu/iomanager.cpp:336-365 | The reports at which no assertion fails, by their bits |
| IoWakes.BatchWakes | luwu/iomanager.cpp:324-369 | A batch that reports each descriptor once wakes, in its order, exactly those who awaited what it reports |
| IoWakes.CancelWakes | luwu/iomanager.cpp:184-215 | Cancelling wakes the waiter of the event and no other |
| IoWakes.CancelAllWakes | luwu/iomanager.cpp:217-253 | Cancelling all wakes everyone who waits for the descriptor |
| IoWakes.DeleteWakesNobody | luwu/iomanager.cpp:149-182 | Deleting takes the waiter out and wakes nobody |
| IoWakes.AddWaits | luwu/iomanager.cpp:95-147 | Registering makes room, to twice the descriptor, and then the waiter waits for the event, with its scheduler, and the kernel watches for it; unless epoll_ctl fails |
| IoWakes.StartsEmpty | luwu/iomanager.cpp:68-68 | At first 32 descriptors have a context and nobody waits |
| IoRuns.ResizeKeepsInv | luwu/iomanager.cpp:73-82 | Resizing keeps the invariant of the table exactly if nobody waits in a context it takes out |
| IoRuns.RacingGrowthLoses | luwu/iomanager.cpp:97-108 | Two racing registrations: the growth of one takes the waiter of the other out of the table |
| IoRuns.HeldContextLost | luwu/iomanager.cpp:97-111 | The growth of one takes out the context that the other has fetched and then registers in |
| IoThreads.LookingFetches | luwu/iomanager.cpp:97-103 | Fetching a context changes nothing else |
| IoThreads.GrowingFetches | luwu/iomanager.cpp:103-108 | Growing makes the table twice as long as the descriptor and wakes nobody |
| IoThreads.ActingWakes | luwu/iomanager.cpp:110-253 | In every sound world: what a thread does with a fetched context of the table makes wait, takes out or wakes those it should, and the call is over |
| IoThreads.LostIsIdle | luwu/iomanager.cpp:110-253 | With a context that the table has lost it touches no waiter, unless it registers |
| IoThreads.ReportingWakes | luwu/iomanager.cpp:324-369 | A report wakes those who wait for it, whatever the threads are doing |
| IoManager.IOManager.AddEvent | luwu/iomanager.cpp:95-147 | The in-place method is the step of the machine; false exactly when epoll_ctl fails |
| IoManager.IOManager.DelEvent | luwu/iomanager.cpp:149-182 | The same for deletion |
| IoManager.IOManager.CancelEvent | luwu/iomanager.cpp:184-215 | The same for cancellation |
| IoManager.IOManager.CancelAll | luwu/iomanager.cpp:217-253 | The same for a whole descriptor |
| IoManager.IOManager.DispatchReady | luwu/iomanager.cpp:324-369 | The loop over the reports is the steps one after the other |
| IoManager.FdContext.TriggerEvent | luwu/iomanager.cpp:34-45 | Hands over the callback, or else the fiber, and clears the bit and the context |
| SchedulerRuns.RunsKeepInv | luwu/scheduler.cpp:142-217 | Over every interleaving: counts are threads in a task and in the idle fiber; for every pin, what was taken and then what is queued is what was added, in order; only permitted threads take |
| SchedulerRuns.NoTaskIsLeft | luwu/scheduler.cpp:206-215 | When no work comes from outside after an idle fiber has ended, a thread that has left run leaves nothing queued or running; all that was added was taken |
| SchedulerRuns.StoppingIsStable | luwu/scheduler.cpp:82-85 | Once true, stopping stays true in a step exactly if it brings no work from outside |
| SchedulerRuns.SettledExact | luwu/scheduler.cpp:186-215 | That an ended idle fiber means stopping is kept by a step exactly if it does not bring work from outside while one has ended |
| SchedulerRuns.TakeKeepsOrder | luwu/scheduler.cpp:160-181 | Taking the first eligible entry keeps the order for every pin |
| SchedulerRuns.OpenSystemLeavesTask | luwu/scheduler.cpp:93-97 | With work scheduled from outside after a stop, a thread can leave it behind |
| SchedulerRuns.TakersArePermitted | luwu/scheduler.cpp:160-167 | Over every interleaving each task was taken by the thread it is pinned to, if it is pinned |
| SchedulerRuns.LookingTakesTheFirst | luwu/scheduler.cpp:156-184 | A thread takes the first task that is pinned to it or not pinned, and finds none exactly if all are pinned to others |
| SchedulerRuns.ScheduledIsLast | luwu/scheduler.h:106-113 | What is scheduled is queued last, unless there is nothing to run |
| SchedulerRuns.IdleEndsExactly | luwu/scheduler.cpp:82-97 | An idle fiber ends exactly if stop was called, no task is queued and no thread runs one |
| SchedulerRuns.LeavesWhenStopped | luwu/scheduler.cpp:206-215 | When that is so a thread leaves by itself |
| Scheduling.Scheduler.TakeTask | luwu/scheduler.cpp:156-184 | Takes the first entry whose thread is -1 or this one, and nothing exactly if there is none; raises the active count; others are to be told exactly when entries remain |
| Scheduling.Scheduler.SchedulerNoLock | luwu/scheduler.h:106-113 | Appends unless there is nothing to run; answers whether the queue was empty |
| Scheduling.FirstEligibleIs | luwu/scheduler.cpp:160-167 | The first eligible entry is what a search from the front finds |
| TimerRuns.NoWakeUpIsLost | luwu/timer.cpp:119-133 | Over every run of harmless steps: unless a wake-up is under way, the last answer is no later than any pending deadline |
| TimerRuns.NextExact | luwu/timer.cpp:35-165 | A step keeps that exactly if it is harmless |
| TimerRuns.RunsExact | luwu/timer.cpp:35-165 | A run keeps it throughout exactly if all its steps are harmless |
| TimerRuns.NoWrapIsHarmless | luwu/timer.cpp:46-59 | A step whose sums stay below 2^64 is harmless |
| TimerRuns.StepsAre | luwu/timer.cpp:35-165 | What each step does to the timers, the wake-up and the answer |
| TimerRuns.InsertExactly | luwu/timer.cpp:94-105 | A timer asks for a wake-up exactly if none is under way and no other has an earlier deadline, or the same and a lower address |
| TimerRuns.AddExactly | luwu/timer.cpp:30-33 | A new timer is due its period after it was made, modulo 2^64 |
| TimerRuns.RekeyExactly | luwu/timer.cpp:46-85 | A refreshed timer is due its period from now; a reset one its new period from now or from the start of the old one |
| TimerRuns.ExpireExactly | luwu/timer.cpp:149-163 | After an expiry exactly those are pending that were due later, and the recurring ones that were due, now due their period from then |
| TimerRuns.AnswerExactly | luwu/timer.cpp:119-133 | The answer is all ones without a timer, 0 exactly if a deadline has come, and else the time to the earliest |
| TimerRuns.AddCovers | luwu/timer.cpp:94-105 | Adding loses no wake-up even if the sum wraps |
| TimerRuns.SleepExact | luwu/iomanager.cpp:297-306 | The sleep has a limit and none beyond the answer exactly if there is no timer or the low half of the answer is below 2^31; up to that it is the answer, or three seconds if that is less |
| TimerRuns.AwakeInTime | luwu/iomanager.cpp:297-306 | A loop that has polled, and for which no wake-up is under way, is awake again before any deadline still to come |
| TimerRuns.ResetKeepsInv | luwu/timer.cpp:61-85 | Resetting keeps it even if the sum wraps, asking for a wake-up when needed |
| TimerRuns.RefreshExact | luwu/timer.cpp:46-59 | Exactly when refreshing loses no wake-up, wrap-around included |
| TimerRuns.ExpireExact | luwu/timer.cpp:135-165 | Exactly when expiry, with a clock read before the lock, loses no wake-up: every recurring timer it sets again stays covered, wrap-around included |
| TimerRuns.WrappedRefreshLoses | luwu/timer.cpp:46-59 | A run from the start in which a refresh whose sum wraps loses one |
| TimerRuns.WrappedExpiryLoses | luwu/timer.cpp:154-159 | A run from the start in which an expiry does |
| TimerManagement.TimerManager.Find | luwu/timer.cpp:10-28 | The search by key finds a timer exactly when it is in the set |
| TimerManagement.TimerManager.Place | luwu/timer.cpp:94-99 | Insertion keeps the order and tells whether the timer comes first |
| TimerManagement.TimerManager.Cancel | luwu/timer.cpp:35-44 | Takes a pending timer out and clears its callback |
| TimerManagement.FiredOneShot | luwu/timer.cpp:135-165 | Added and expired, a one-shot timer keeps its callback and is not in the set |
| TimerManagement.TimerManager.Refresh | luwu/timer.cpp:46-59 | Re-keys a pending timer while it is out of the set; false for others |
| TimerManagement.TimerManager.Reset | luwu/timer.cpp:61-85 | Re-keys with a new period, from now or from the old start |
| TimerManagement.TimerManager.Insert | luwu/timer.cpp:94-105 | Turns the flag on, and calls the hook, exactly when the timer comes first and the flag was off |
| TimerManagement.TimerManager.GetNextTimer | luwu/timer.cpp:119-133 | All ones without a timer; 0 exactly if some deadline is not after now; else now and the answer make a pending deadline, and none is before it; turns the flag off |
| TimerManagement.TimerManager.ListExpiredCb | luwu/timer.cpp:135-165 | Gives the callbacks of exactly the expired timers in order, re-keys the recurring ones, removes the others, leaves the rest |
| TimerManagement.ExpiryOrder | luwu/timer.cpp:149-151 | Deadlines ascend; every timer due before now is there and none due after; ties at now go by address |
| Streams.Stream.ReadFixSize | luwu/streams/stream.cpp:8-20 | On a stream whose reads do not fail, whatever the short reads: all the bytes, or 0 when they do not come |
| Streams.Stream.WriteFixSize | luwu/streams/stream.cpp:34-46 | On a stream whose writes do not fail, whatever the short writes: all the bytes, or 0 when they do not fit |
| FallibleStreams.FallibleStream.ReadFixSize | luwu/streams/stream.cpp:8-20 | The loop in 64-bit words over reads that may fail ends as the specification says: whole, ended, or about to read to a place before the buffer |
| FallibleStreams.FailuresLoseBytes | luwu/streams/stream.cpp:12-17 | Each failed read costs one byte that had come, unnoticed: what is given is what came exactly if no read failed |
| FallibleStreams.GivesTheFirst | luwu/streams/stream.cpp:8-20 | Reads none of which fails give all the bytes exactly if so many come, and then the first ones |
| FallibleStreams.FailedReadStepsBack | luwu/streams/stream.cpp:12-17 | A failed read steps back over the last byte, and goes before the buffer when there is none |
| FallibleStreams.FallibleStream.WriteFixSize | luwu/streams/stream.cpp:34-46 | The loop in 64-bit words over writes that may fail ends as the specification says: sent, stopped, or about to write from a place before the buffer |
| FallibleStreams.FailuresRepeatBytes | luwu/streams/stream.cpp:38-43 | Each failed write sends one byte again, unnoticed: what has gone out is the buffer exactly if no write failed |
| FallibleStreams.FailedWriteStepsBack | luwu/streams/stream.cpp:38-43 | A failed write likewise |
| WsFrames.ReceiveSent | luwu/http/ws_session.cpp:101-180 | Non-empty fragments below the maximum, masked as required, with pings between them, are received as the first opcode and the concatenated payload, one pong for each ping |
| WsFrames.FrameBack | luwu/http/ws_session.cpp:118-168 | One frame of any length class is read back |
| WsWire.FrameBytes | luwu/http/ws_session.cpp:182-233 | A frame byte by byte: final bit and opcode, mask bit and length in one of three classes in network order, key, payload |
| WsWire.MaskedBit | luwu/http/ws_session.cpp:159-163 | A bit of a masked byte is set exactly if the bits of the byte and of its byte of the key differ |
| WsWire.ControlBytes | luwu/http/ws_session.cpp:239-261 | The two bytes of a ping and of a pong |
| WsWire.NextFrame | luwu/http/ws_session.cpp:118-170 | By the bytes of the input: exactly which data frames are refused, and what becomes of the others, the opcode and the end of the message included |
| WsWire.PingIsAnswered | luwu/http/ws_session.cpp:111-116 | A ping is answered by one pong if there is room, and refused otherwise |
| WsWire.OthersAreSkipped | luwu/http/ws_session.cpp:116-173 | Of pongs and frames of unknown kinds the first two bytes are skipped |
| WsWire.NothingToRead | luwu/http/ws_session.cpp:106-108 | Without the first two bytes of a frame the message is refused |
| WsWire.OpcodeIsFirst | luwu/http/ws_session.cpp:166-168 | The opcode of a message is that of its first fragment that has one |
| WsFrames.MaskedTwice | luwu/http/ws_session.cpp:159-163 | Masking twice with one key changes nothing |
| WsFrames.StaysInsideExact | luwu/http/ws_session.cpp:142-158 | The buffer made for a frame suffices exactly if the sum of the lengths does not wrap |
| WsFrames.OverrunExact | luwu/http/ws_session.cpp:142-158 | A data frame that passes the tests is read to a place outside the buffer exactly when the data so far and its length make 2^64 or more; otherwise the outcome is that of its payload appended, and the first opcode, on the rest of the input |
| WsFrames.NoOverrun | luwu/http/ws_session.cpp:142-158 | No overrun on any input that holds no eight bytes in a row within the maximum of 2^64 |
| WsFrames.WrappedLengthOverruns | luwu/http/ws_session.cpp:142-158 | Ten bytes, and a frame that says it has 2^64 - 5: an overrun |
| WsSession.WSSendMessage | luwu/http/ws_session.cpp:182-233 | Sends exactly one frame, masking the message in place for a client; an empty message fails and closes the stream |
| WsSession.WSRecvMessage | luwu/http/ws_session.cpp:101-180 | The loop over the stream ends with the outcome of the specification: message, refusal or overrun, bytes left, pongs sent |
| WsSession.Exchange | luwu/http/ws_session.cpp:101-261 | Sender and receiver over any short reads and writes and any host orders: the message arrives, with the opcode of the first fragment that has one, and each ping is answered |
| BaseEncodings.Base64RoundTrip | luwu/util/hash_util.cpp:136-242 | Decoding undoes encoding for every byte string |
| BaseEncodings.Base64Encode | luwu/util/hash_util.cpp:204-242 | The loops write the encoding, 4 characters for each 3 bytes begun |
| BaseEncodings.Base64Decode | luwu/util/hash_util.cpp:136-198 | The loops decode or give the empty string; every write is inside the buffer |
| TextCodes.SixtyFourDigits | luwu/util/hash_util.cpp:205-206 | The alphabet of base64, in its order |
| TextCodes.OnlyTheseAreDigits | luwu/util/hash_util.cpp:160-174 | The characters that the decoder takes for digits, by their codes |
| TextCodes.Base64At | luwu/util/hash_util.cpp:216-238 | Characters 4i to 4i+3 are the bits of bytes 3i to 3i+2, six at a time, with "=" for what is missing |
| TextCodes.Base64Exactly | luwu/util/hash_util.cpp:143-195 | Exactly whole groups of digits of which the last may end in one or two "=" are decoded, each to the bits of its digits |
| BaseEncodings.HexFromData | luwu/util/hash_util.cpp:361-373 | Two lower-case digits for each byte, every write inside the buffer |
| BaseEncodings.DataFromHex | luwu/util/hash_util.cpp:391-465 | Fails exactly on an odd length or a character that is no digit |
| BaseEncodings.HexRoundTrip | luwu/util/hash_util.cpp:361-465 | What the hexadecimal encoder writes decodes to the data and nothing else |
| TextCodes.HexDigits | luwu/util/hash_util.cpp:397-458 | Hexadecimal digits and their values, by their codes |
| TextCodes.HexWritten | luwu/util/hash_util.cpp:361-373 | The digits that are written: small letters in hexadecimal, capital ones after "%" |
| PercentEncoding.PercentRoundTrip | luwu/ext.cpp:98-158 | Decoding undoes encoding for every byte string and either treatment of the space |
| PercentEncoding.UrlEncode | luwu/ext.cpp:98-127 | The string made only when needed is the byte-by-byte encoding |
| PercentEncoding.UrlDecode | luwu/ext.cpp:129-158 | The same for decoding |
| TextCodes.KeptCharacters | luwu/ext.cpp:52-73 | The characters that are kept, by their codes |
| TextCodes.EncodedByte | luwu/ext.cpp:103-122 | A byte is itself, "+", or "%" and two digits |
| TextCodes.EncodedText | luwu/ext.cpp:98-127 | An encoding holds only kept characters, "%" and "+"; it is the text itself exactly if all its characters are kept |
| TextCodes.DecodedNextIs | luwu/ext.cpp:133-150 | What is decoded: "%" and two digits, "+" if spaces are written so, and anything else as it is |

## Left out

- HttpParsing.HttpParser.Execute: callbacks all succeed and do not pause the parser; the headers callback's answer is
  a field of the parser; strict mode only; a buffer is shorter than 2^32 minus the header limit, so that the 32-bit
  count of a bulk loop does not wrap.
- HttpFraming.RunRequest: the encoder folds no Connection, Upgrade or framing line, which the machine and Execute run all
  the same; a second framing line, a line with an empty value, line ends of LF alone and request lines without a version
  are those of TwiceExactly, EmptyValue, LineFeedAlone and NoVersion.
- HttpResponses.RunResponse: the same; the headers callback gives the same answer for all messages of a connection.
- Uris.Uri.Create: the characters that 16 bits record instead of a component that begins at 2^16 or later are not compared
  with it; that the component is not recorded right is what RecordedExactly says.
- ByteArrays.ByteArray.Read: a read of no bytes needs a current block, since the code looks at it first.
- ByteArrays.ByteArray.GetReadBuffersAt: a range that goes beyond the capacity, where the code has no block to look at.
- WsSession.WSRecvMessage: its streams have no failing reads and writes, which are modelled in FallibleStreams alone. The
  maximum is below 2^31, since lengths are kept in an int. After an overrun nothing is said.
- Scheduling.Scheduler.TakeTask: the rest of `run` is not one method, because its steps interleave with those of other
  threads; they are the steps of SchedulerRuns.
- SchedulerRuns.RunsKeepInv: a fiber that has scheduled or registered itself yields at once, because the guard against
  fibers that are still running is commented out.
- TimerManagement.TimerManager.Cancel: only for a timer that is pending or was cancelled, because for a fired one-shot,
  as FiredOneShot makes one, the code would erase the end of the set.
- IoManager.IOManager.DispatchReady: only reports at which the program does not stop, as MayReportExact says.
- IoManager.IOManager.AddEvent: one thread alone, so that fetching and registering are one step; the steps apart are
  those of IoRuns, on values.
- The dumps of the byte array to and from files, and float and double values.
- The luwu callbacks on top of the parser overwrite a header name or value that arrives in two pieces; only the parser
  itself is modelled.
- Sockets, epoll, pipes, threads, locks and stacks as such: a locked section is a step, and resuming a fiber is running
  its work to the next yield.
- The changeable header limit of the parser, its textual error names, and the non-strict build.
- HTTP sessions and servlets, configuration, logging, modules, the connection pool, digests and random strings: they
  would add only easy members or stand on code that is not part of this model.
