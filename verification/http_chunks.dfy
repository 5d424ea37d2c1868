/** The chunked transfer coding (section 4.1 of RFC 7230): an encoder, and the theorem that the body
    states of the parser invert it. Also the exact meaning of the two length accumulators. */
module HttpChunks {
  import opened HttpSyntax
  import opened Numerals
  import opened HttpMachine
  import opened HttpLog
  import opened HttpBulk
  import opened HttpMessages
  import opened HttpFields

  // ---------------------------------------------------------------- numbers

  /** The largest values to which the accumulators still add a digit. */
  const DECIMAL_LIMIT: nat := (UINT64_MAX - 10) / 10
  const HEX_LIMIT: nat := (UINT64_MAX - 16) / 16

  function Pow16(k: nat): nat {
    if k == 0 then 1 else 16 * Pow16(k - 1)
  }

  lemma {:induction false} NumeralLength(n: nat, k: nat)
    requires k >= 1 && n < Pow16(k)
    ensures |Numeral(16, n)| <= k
    decreases k
  {
    if n >= 16 {
      NumeralLength(n / 16, k - 1);
    }
  }

  lemma ChunkSizeIsShort(n: nat)
    requires n / 16 <= HEX_LIMIT
    ensures |Numeral(16, n)| <= 16
  {
    assert Pow16(8) == 0x1_0000_0000;
    assert Pow16(12) == 0x1_0000_0000_0000;
    assert Pow16(16) == 0x1_0000_0000_0000_0000;
    NumeralLength(n, 16);
  }

  // ---------------------------------------------------------------- the size line

  lemma ChunkByte(c: Config, ch: char, p: Parser)
    requires Live(c) && PhaseOf(c.p.state).InChunk? && ParsingHeader(c.p.state) && c.p.nread < MAX_HEADER_SIZE && p.errno.Ok?
    requires DispatchChunk(c.p.(nread := c.p.nread + 1), ch) == Micro(p, [], Break)
    ensures Step(c, ch) == Config(p, c.log, c.used + 1, false)
  {
    hide DispatchChunk;
    var q := c.p.(nread := c.p.nread + 1);
    assert Dispatch(q, ch) == DispatchChunk(q, ch);
    QuietByte(c, ch, p);
  }

  lemma FirstSizeDigit(c: Config, ch: char)
    requires Live(c) && c.p.state.ChunkSizeStart? && c.p.nread < MAX_HEADER_SIZE && IsChunkDigit(ch)
    ensures Step(c, ch) == Config(c.p.(state := ChunkSize, contentLength := ChunkDigit(ch), nread := c.p.nread + 1),
        c.log, c.used + 1, false)
  {
    hide ChunkDigit;
    ChunkByte(c, ch, c.p.(state := ChunkSize, contentLength := ChunkDigit(ch), nread := c.p.nread + 1));
  }

  lemma NextSizeDigit(c: Config, ch: char)
    requires Live(c) && c.p.state.ChunkSize? && c.p.nread < MAX_HEADER_SIZE && IsChunkDigit(ch) && c.p.contentLength <= HEX_LIMIT
    ensures Step(c, ch) == Config(c.p.(contentLength := c.p.contentLength * 16 + ChunkDigit(ch),
        nread := c.p.nread + 1), c.log, c.used + 1, false)
  {
    hide ChunkDigit;
    ChunkByte(c, ch, c.p.(contentLength := c.p.contentLength * 16 + ChunkDigit(ch), nread := c.p.nread + 1));
  }

  // ---------------------------------------------------------------- the digits of a size

  /** The digits that stand for the same number: a byte from 128 on counts as the digit 0. */
  function AsHex(s: string): (h: string)
    requires forall i :: 0 <= i < |s| ==> IsChunkDigit(s[i])
    ensures |h| == |s| && forall i :: 0 <= i < |h| ==> IsHex(h[i]) && (IsHex(s[i]) ==> h[i] == s[i])
    ensures forall i :: 0 <= i < |h| ==> HexValue(h[i]) == ChunkDigit(s[i])
  {
    seq(|s|, i requires 0 <= i < |s| => if IsHex(s[i]) then s[i] else '0')
  }

  /** The same for the digits of a chunk size after the first, with what the table takes for digits. */
  lemma {:induction false} ChunkSizeExact(c: Config, s: string)
    requires Live(c) && c.p.state.ChunkSize? && c.p.contentLength < UINT64_MAX
    requires c.p.nread + |s| <= MAX_HEADER_SIZE && forall i :: 0 <= i < |s| ==> IsChunkDigit(s[i])
    ensures var d := Run(c, s); var h := AsHex(s); var n := DigitsValue(16, c.p.contentLength, h);
            && (Live(d) <==> |s| == 0 || DigitsValue(16, c.p.contentLength, h[..|s| - 1]) <= HEX_LIMIT)
            && (Live(d) ==> d == Config(c.p.(contentLength := n, nread := c.p.nread + |s|), c.log, c.used + |s|, false) && n < UINT64_MAX)
    decreases |s|
  {
    hide Step, HexValue, ChunkDigit;
    if |s| > 0 {
      var h := AsHex(s);
      RunOne(c, s);
      if c.p.contentLength <= HEX_LIMIT {
        NextSizeDigit(c, s[0]);
        DigitSmall(s[0]);
        ChunkSizeExact(Step(c, s[0]), s[1..]);
        assert AsHex(s[1..]) == h[1..];
        if |s| > 1 {
          assert h[..|s| - 1][1..] == h[1..][..|s| - 2];
        }
      } else {
        SizeOverflows(c, s[0]);
        RunDead(Step(c, s[0]), s[1..]);
        DigitsValueGrows(16, c.p.contentLength, h[..|s| - 1]);
      }
    }
  }

  lemma DigitSmall(ch: char)
    requires IsChunkDigit(ch)
    ensures ChunkDigit(ch) < 16
  {}

  lemma SizeOverflows(c: Config, ch: char)
    requires Live(c) && c.p.state.ChunkSize? && IsChunkDigit(ch) && c.p.contentLength > HEX_LIMIT && c.p.nread < MAX_HEADER_SIZE
    ensures !Live(Step(c, ch))
  {
    hide ChunkDigit;
    var q := Count(c.p);
    assert Dispatch(q, ch) == DispatchChunk(q, ch) == Stay(q.(errno := InvalidContentLength));
    hide Dispatch;
    StepFails(c, ch);
  }

  /** How a size is written: digits, in either case and with any zeros in front, and perhaps an extension. */
  datatype Size = Size(digits: string, extension: string)

  predicate IsExtension(e: string) {
    |e| > 0 ==> (e[0] == ';' || e[0] == ' ') && forall i :: 0 <= i < |e| ==> e[i] != CR
  }

  predicate IsSizeOf(size: Size, n: nat) {
    && |size.digits| > 0 && (forall i :: 0 <= i < |size.digits| ==> IsChunkDigit(size.digits[i]))
    && DigitsValue(16, 0, AsHex(size.digits)) == n && n / 16 <= HEX_LIMIT && IsExtension(size.extension)
    && |size.digits| + |size.extension| + 2 <= MAX_HEADER_SIZE
  }

  /** The shortest way to write it. */
  lemma NumeralIsSize(n: nat)
    requires n / 16 <= HEX_LIMIT
    ensures IsSizeOf(Size(Numeral(16, n), ""), n)
  {
    ChunkSizeIsShort(n);
    NumeralValue(16, n);
    assert AsHex(Numeral(16, n)) == Numeral(16, n);
  }

  lemma SizePrefix(digits: string)
    requires |digits| > 0 && forall i :: 0 <= i < |digits| ==> IsChunkDigit(digits[i])
    ensures var h := AsHex(digits);
            && AsHex(digits[1..]) == h[1..] && HexValue(h[0]) == ChunkDigit(digits[0])
            && DigitsValue(16, 0, h) == DigitsValue(16, ChunkDigit(digits[0]), AsHex(digits[1..]))
            && (|digits| > 1 ==> DigitsValue(16, ChunkDigit(digits[0]), AsHex(digits[1..])[..|digits| - 2]) == DigitsValue(16, 0, h) / 16)
  {
    hide HexValue, ChunkDigit;
    var h, n := AsHex(digits), |digits| - 1;
    assert AsHex(digits[1..]) == h[1..];
    if n > 0 {
      assert h == h[..n] + [h[n]];
      DigitsValueSnoc(16, 0, h[..n], h[n]);
      assert h[..n][1..] == h[1..][..n - 1];
      DigitSmall(digits[n]);
    }
  }

  lemma RunSize(c: Config, digits: string)
    requires Live(c) && c.p.state.ChunkSizeStart? && |digits| > 0 && c.p.nread + |digits| <= MAX_HEADER_SIZE
    requires forall i :: 0 <= i < |digits| ==> IsChunkDigit(digits[i])
    requires DigitsValue(16, 0, AsHex(digits)) / 16 <= HEX_LIMIT
    ensures Run(c, digits) == Config(c.p.(state := ChunkSize, contentLength := DigitsValue(16, 0, AsHex(digits)),
                                          nread := c.p.nread + |digits|), c.log, c.used + |digits|, false)
  {
    hide Step, Run, HexValue, DigitsValue, AsHex;
    SizePrefix(digits);
    FirstSizeDigit(c, digits[0]);
    DigitSmall(digits[0]);
    RunOne(c, digits);
    ChunkSizeExact(Step(c, digits[0]), digits[1..]);
    if |digits| == 1 {
      assert digits[1..] == "";
    }
  }

  lemma ExtensionBegins(c: Config, ch: char)
    requires Live(c) && c.p.state.ChunkSize? && (ch == ';' || ch == ' ') && c.p.nread < MAX_HEADER_SIZE
    ensures Step(c, ch) == Config(c.p.(state := ChunkParameters, nread := c.p.nread + 1), c.log, c.used + 1, false)
  {
    ChunkByte(c, ch, c.p.(state := ChunkParameters, nread := c.p.nread + 1));
  }

  lemma ExtensionByte(c: Config, ch: char)
    requires Live(c) && c.p.state.ChunkParameters? && ch != CR && c.p.nread < MAX_HEADER_SIZE
    ensures Step(c, ch) == Config(c.p.(nread := c.p.nread + 1), c.log, c.used + 1, false)
  {
    ChunkByte(c, ch, c.p.(nread := c.p.nread + 1));
  }

  lemma {:induction false} RunParameters(c: Config, s: string)
    requires Live(c) && c.p.state.ChunkParameters? && c.p.nread + |s| <= MAX_HEADER_SIZE && forall i :: 0 <= i < |s| ==> s[i] != CR
    ensures Run(c, s) == Config(c.p.(nread := c.p.nread + |s|), c.log, c.used + |s|, false)
    decreases |s|
  {
    hide Step, Run;
    if |s| == 0 {
      RunEmpty(c);
    } else {
      RunOne(c, s);
      ExtensionByte(c, s[0]);
      RunParameters(Step(c, s[0]), s[1..]);
    }
  }

  /** An extension is passed over. */
  lemma RunExtension(c: Config, e: string)
    requires Live(c) && c.p.state.ChunkSize? && IsExtension(e) && c.p.nread + |e| <= MAX_HEADER_SIZE
    ensures Run(c, e) == Config(c.p.(state := if |e| == 0 then ChunkSize else ChunkParameters, nread := c.p.nread + |e|),
                                c.log, c.used + |e|, false)
  {
    hide Step, Run;
    if |e| == 0 {
      RunEmpty(c);
    } else {
      RunOne(c, e);
      ExtensionBegins(c, e[0]);
      RunParameters(Step(c, e[0]), e[1..]);
    }
  }

  // ---------------------------------------------------------------- the end of a size line

  lemma SizeEnd(c: Config)
    requires Live(c) && (c.p.state.ChunkSize? || c.p.state.ChunkParameters?) && c.p.nread < MAX_HEADER_SIZE
    ensures Step(c, CR) == Config(c.p.(state := ChunkSizeAlmostDone, nread := c.p.nread + 1), c.log, c.used + 1, false)
  {
    ChunkByte(c, CR, c.p.(state := ChunkSizeAlmostDone, nread := c.p.nread + 1));
  }

  lemma SizeLineFeed(c: Config)
    requires Live(c) && c.p.state.ChunkSizeAlmostDone? && c.p.nread < MAX_HEADER_SIZE
    ensures Step(c, LF) ==
            Config(if c.p.contentLength == 0 then c.p.(nread := 0, flags := c.p.flags.(trailing := true), state := HeaderFieldStart)
                   else c.p.(nread := 0, state := ChunkData),
                   Push(c.log, ChunkHeader(c.p.contentLength)), c.used + 1, false)
  {
    var q := c.p.(nread := c.p.nread + 1);
    var p := if c.p.contentLength == 0 then c.p.(nread := 0, flags := c.p.flags.(trailing := true), state := HeaderFieldStart)
             else c.p.(nread := 0, state := ChunkData);
    assert Dispatch(q, LF) == DispatchChunk(q, LF) == Micro(p, [ChunkHeader(c.p.contentLength)], Break);
    hide Dispatch;
    StepOnePass(c, p, LF, ChunkHeader(c.p.contentLength));
  }

  function SizeLine(size: Size): string {
    size.digits + (size.extension + CRLF)
  }

  lemma RunSizeLine(c: Config, size: Size, n: nat)
    requires Live(c) && c.p.state.ChunkSizeStart? && IsSizeOf(size, n) && c.p.nread == 0
    ensures var s := SizeLine(size);
            Run(c, s) == Config(if n == 0 then c.p.(contentLength := 0, flags := c.p.flags.(trailing := true), state := HeaderFieldStart)
                                else c.p.(contentLength := n, state := ChunkData),
                                Push(c.log, ChunkHeader(n)), c.used + |s|, false)
  {
    hide Step, Run, IsExtension, DigitsValue;
    RunAppend(c, size.digits, size.extension + CRLF);
    RunSize(c, size.digits);
    var d := Run(c, size.digits);
    RunAppend(d, size.extension, CRLF);
    RunExtension(d, size.extension);
    var e := Run(d, size.extension);
    SizeEnd(e);
    SizeLineFeed(Step(e, CR));
    assert CRLF == [CR, LF];
    RunTwo(e, CR, LF);
  }

  // ---------------------------------------------------------------- the data of a chunk

  lemma ChunkLastByte(c: Config, ch: char)
    requires Live(c) && c.p.state.ChunkData? && c.p.contentLength == 1
    ensures Step(c, ch) == Config(c.p.(contentLength := 0, state := ChunkDataAlmostDone), Push(c.log, Data(Body, [ch])), c.used + 1, false)
  {
    hide Dispatch;
    LastBodyPass(c.p, ch);
    StepOnePass(c, c.p.(contentLength := 0, state := ChunkDataAlmostDone), ch, Data(Body, [ch]));
  }

  lemma RunChunkData(c: Config, s: string)
    requires Live(c) && c.p.state.ChunkData? && |s| == c.p.contentLength > 0
    ensures Run(c, s) == Config(c.p.(contentLength := 0, state := ChunkDataAlmostDone), Push(c.log, Data(Body, s)), c.used + |s|, false)
  {
    hide Step, Run, Push;
    var n := |s| - 1;
    assert s == s[..n] + [s[n]];
    RunSnoc(c, s[..n], s[n]);
    if n == 0 {
      assert s[..0] == "";
      RunEmpty(c);
    } else {
      RunBody(c, s[..n]);
    }
    ChunkLastByte(Run(c, s[..n]), s[n]);
    JoinLast(c.log, s[..n], s[n]);
  }

  lemma ChunkEnd(c: Config)
    requires Live(c) && c.p.state.ChunkDataAlmostDone?
    ensures Run(c, CRLF) == Config(c.p.(nread := 0, state := ChunkSizeStart), Push(c.log, ChunkComplete), c.used + 2, false)
  {
    hide Step, Dispatch, Push;
    var p := c.p.(state := ChunkDataDone);
    ChunkEndPasses(c.p);
    StepQuiet(c, p, CR);
    var d := Config(p, c.log, c.used + 1, false);
    StepOnePass(d, c.p.(nread := 0, state := ChunkSizeStart), LF, ChunkComplete);
    assert CRLF == [CR, LF];
    RunTwo(c, CR, LF);
  }

  lemma ChunkEndPasses(p: Parser)
    requires p.state.ChunkDataAlmostDone?
    ensures Dispatch(p, CR) == Micro(p.(state := ChunkDataDone), [], Break)
    ensures Dispatch(p.(state := ChunkDataDone), LF) == Micro(p.(nread := 0, state := ChunkSizeStart), [ChunkComplete], Break)
  {
    var q := p.(state := ChunkDataDone);
    assert Dispatch(p, CR) == Expect(p, CR);
    assert Dispatch(q, LF) == DispatchChunk(q, LF);
  }

  // ---------------------------------------------------------------- the whole body

  datatype Chunk = Chunk(size: Size, data: string)

  predicate ChunkFits(x: Chunk) {
    0 < |x.data| && IsSizeOf(x.size, |x.data|)
  }

  function EncodeChunk(x: Chunk): string {
    SizeLine(x.size) + (x.data + CRLF)
  }

  /** Chunks, the chunk of size zero, and the trailer with its header lines. */
  function EncodeChunks(chunks: seq<Chunk>, last: Size, trailer: seq<Header>): string {
    if |chunks| == 0 then SizeLine(last) + (Lines(trailer) + CRLF)
    else EncodeChunk(chunks[0]) + EncodeChunks(chunks[1..], last, trailer)
  }

  function ChunkEvents(chunks: seq<Chunk>, trailer: seq<Header>): seq<Event> {
    if |chunks| == 0 then [ChunkHeader(0)] + (LineEvents(trailer) + [ChunkComplete, MessageComplete])
    else [ChunkHeader(|chunks[0].data|), Data(Body, chunks[0].data), ChunkComplete] + ChunkEvents(chunks[1..], trailer)
  }

  predicate TrailerFits(trailer: seq<Header>) {
    (forall h <- trailer :: IsPlain(h)) && |Lines(trailer)| + 2 <= MAX_HEADER_SIZE
  }

  lemma PushThree(log: seq<Event>, a: Event, b: Event, e: Event)
    ensures PushAll(log, [a, b, e]) == Push(Push(Push(log, a), b), e)
  {
    hide Push;
    assert [a, b, e] == [a] + ([b] + [e]);
    PushAllAppend(log, [a], [b] + [e]);
    PushOne(log, a);
    PushAllAppend(Push(log, a), [b], [e]);
    PushOne(Push(log, a), b);
    PushOne(Push(Push(log, a), b), e);
  }

  lemma RunChunk(c: Config, x: Chunk)
    requires Live(c) && c.p.state.ChunkSizeStart? && c.p.nread == 0 && ChunkFits(x)
    ensures Run(c, EncodeChunk(x)) ==
            Config(c.p.(contentLength := 0), PushAll(c.log, [ChunkHeader(|x.data|), Data(Body, x.data), ChunkComplete]),
                c.used + |EncodeChunk(x)|, false)
  {
    hide Step, Run, SizeLine, IsSizeOf, Push;
    var head, s := SizeLine(x.size), x.data;
    RunAppend(c, head, s + CRLF);
    RunSizeLine(c, x.size, |s|);
    var d := Run(c, head);
    RunAppend(d, s, CRLF);
    RunChunkData(d, s);
    ChunkEnd(Run(d, s));
    PushThree(c.log, ChunkHeader(|s|), Data(Body, s), ChunkComplete);
  }

  /** The parser when the blank line has completed the message. */
  function Completed(p: Parser): Parser {
    p.(state := NewMessage(p))
  }

  lemma TrailerEnd(c: Config)
    requires Live(c) && c.p.state.HeaderFieldStart? && c.p.flags.trailing && c.p.nread + 2 <= MAX_HEADER_SIZE
    ensures Run(c, CRLF) == Config(Completed(c.p.(nread := c.p.nread + 2)), PushAll(c.log, [ChunkComplete, MessageComplete]),
                                   c.used + 2, c.p.upgrade)
  {
    hide PushAll, Exec, Run;
    var p := BeforeBlankLineEnd(c.p);
    TrailerLineFeed(p);
    RunBlankLine(c, Exec(p, LF));
  }

  lemma TrailerLineFeed(p: Parser)
    requires p.errno.Ok? && p.state.HeadersAlmostDone? && p.flags.trailing
    ensures Exec(p, LF) == Micro(Completed(p), [ChunkComplete, MessageComplete], if p.upgrade then Exit else Break)
  {
    hide Dispatch;
    var m := p.(state := MessageDone);
    TrailerPass(p);
    MessageDonePass(m, LF);
    ExecAgain(p, LF);
    ExecDone(m, LF);
    assert [ChunkComplete] + [MessageComplete] == [ChunkComplete, MessageComplete];
  }

  /** `d` is `c` after a message whose last part took `n` bytes in all, with the callbacks `es`; it has left
      the connection if the message asked for that. */
  predicate Finished(c: Config, d: Config, n: nat, es: seq<Event>) {
    && d.p.errno.Ok? && d.exited == c.p.upgrade && d.used == c.used + n && d.log == PushAll(c.log, es)
    && d.p.kind == c.p.kind && d.p.lenient == c.p.lenient && d.p.reply == c.p.reply && SameMessage(c.p, d.p)
    && d.p.state == NewMessage(c.p.(contentLength := 0))
  }

  lemma RunTrailer(c: Config, trailer: seq<Header>)
    requires Live(c) && c.p.state.HeaderFieldStart? && c.p.flags.trailing && c.p.contentLength == 0 && c.p.nread == 0
    requires TrailerFits(trailer)
    ensures var d := Run(c, Lines(trailer) + CRLF);
            && Finished(c, d, |Lines(trailer)| + 2, LineEvents(trailer) + [ChunkComplete, MessageComplete])
            && d.p.nread == |Lines(trailer)| + 2
  {
    hide Run, PushAll, FinishHeader, IsPlain, Lines, LineEvents;
    RunAppend(c, Lines(trailer), CRLF);
    RunLines(c, trailer);
    var d := Run(c, Lines(trailer));
    SettleRun(d, CRLF);
    TrailerEnd(Settle(d));
    PushAllAppend(c.log, LineEvents(trailer), [ChunkComplete, MessageComplete]);
  }

  lemma RunLastChunk(c: Config, last: Size, trailer: seq<Header>)
    requires Live(c) && c.p.state.ChunkSizeStart? && c.p.nread == 0 && IsSizeOf(last, 0) && TrailerFits(trailer)
    ensures var d := Run(c, EncodeChunks([], last, trailer));
            Finished(c, d, |EncodeChunks([], last, trailer)|, ChunkEvents([], trailer)) && d.p.nread == |Lines(trailer)| + 2
  {
    hide Run, SizeLine, IsSizeOf, PushAll, TrailerFits, Lines, LineEvents;
    RunAppend(c, SizeLine(last), Lines(trailer) + CRLF);
    RunSizeLine(c, last, 0);
    var d := Run(c, SizeLine(last));
    RunTrailer(d, trailer);
    PushOne(c.log, ChunkHeader(0));
    PushAllAppend(c.log, [ChunkHeader(0)], LineEvents(trailer) + [ChunkComplete, MessageComplete]);
  }

  lemma TrailerPass(p: Parser)
    requires p.state.HeadersAlmostDone? && p.flags.trailing
    ensures Dispatch(p, LF) == Micro(p.(state := MessageDone), [ChunkComplete], Again)
  {}

  lemma MessageDonePass(p: Parser, ch: char)
    requires p.state.MessageDone?
    ensures Dispatch(p, ch) == CompleteMessage(p, if p.upgrade then Exit else Break)
  {}

  /** The body states invert the encoder: for every list of non-empty chunks, whichever way their sizes are written, each
      chunk is announced, delivered once and completed, in order, then the trailer's lines are reported, and the
      message completes exactly once, at the end. The trailer stays counted towards the next head. */
  lemma {:induction false} RunChunks(c: Config, chunks: seq<Chunk>, last: Size, trailer: seq<Header>)
    requires Live(c) && c.p.state.ChunkSizeStart? && c.p.nread == 0 && (forall x <- chunks :: ChunkFits(x))
    requires IsSizeOf(last, 0) && TrailerFits(trailer)
    ensures var d := Run(c, EncodeChunks(chunks, last, trailer));
            && Finished(c, d, |EncodeChunks(chunks, last, trailer)|, ChunkEvents(chunks, trailer))
            && d.p.nread == |Lines(trailer)| + 2
    decreases |chunks|
  {
    hide Step, Run, SizeLine, IsSizeOf, Push, PushAll, TrailerFits, Lines, LineEvents;
    if |chunks| == 0 {
      assert chunks == [];
      RunLastChunk(c, last, trailer);
    } else {
      var x := chunks[0];
      assert ChunkFits(x);
      RunAppend(c, EncodeChunk(x), EncodeChunks(chunks[1..], last, trailer));
      RunChunk(c, x);
      RunChunks(Run(c, EncodeChunk(x)), chunks[1..], last, trailer);
      PushAllAppend(c.log, [ChunkHeader(|x.data|), Data(Body, x.data), ChunkComplete], ChunkEvents(chunks[1..], trailer));
    }
  }

  // ---------------------------------------------------------------- the accumulators, exactly

  predicate AllDigits(s: string) {
    forall i :: 0 <= i < |s| ==> IsNum(s[i])
  }

  /** Content-Length digits are accepted exactly as long as the value before the last one is within
      the limit; the length is then their decimal value, which is short of the sentinel. */
  lemma {:induction false} ContentLengthExact(v: Value, s: string)
    requires v.h.ContentLengthNum? && v.errno.Ok? && v.length < UINT64_MAX && AllDigits(s)
    ensures var n := DigitsValue(10, v.length, s);
            && (Scans(v, s, v.(length := n)) <==> |s| == 0 || DigitsValue(10, v.length, s[..|s| - 1]) <= DECIMAL_LIMIT)
            && (forall r :: Scans(v, s, r) ==> r == v.(length := n) && n < UINT64_MAX)
    decreases |s|
  {
    if |s| > 0 {
      var q := NextValue(v, s[0]);
      var next := v.length * 10 + DigitValue(s[0]);
      assert HexValue(s[0]) == DigitValue(s[0]);
      if v.length <= DECIMAL_LIMIT {
        assert q == v.(length := next);
        ContentLengthExact(q, s[1..]);
        if |s| > 1 {
          assert s[..|s| - 1][1..] == s[1..][..|s| - 2];
        }
      } else {
        DigitsValueGrows(10, v.length, s[..|s| - 1]);
      }
    }
  }

  /** A chunk-size line may hold what the table takes for digits and nothing else: any other character but those
      that end the size is refused. */
  lemma SizeRefuses(c: Config, ch: char)
    requires Live(c) && (c.p.state.ChunkSizeStart? || c.p.state.ChunkSize?) && c.p.nread < MAX_HEADER_SIZE
    requires c.p.contentLength <= HEX_LIMIT || c.p.state.ChunkSizeStart?
    ensures Live(Step(c, ch)) <==> IsChunkDigit(ch) || (c.p.state.ChunkSize? && (ch == CR || ch == ';' || ch == ' '))
  {
    hide ChunkDigit;
    var q := Count(c.p);
    assert Dispatch(q, ch) == DispatchChunk(q, ch);
    if IsChunkDigit(ch) {
      if c.p.state.ChunkSizeStart? {
        FirstSizeDigit(c, ch);
      } else {
        NextSizeDigit(c, ch);
      }
    } else {
      hide Dispatch;
      ExecDone(q, ch);
      StepExec(c, ch);
    }
  }
}
