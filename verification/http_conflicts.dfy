/** Heads that say twice where the body ends. */
module HttpConflicts {
  import opened HttpSyntax
  import opened HttpMachine
  import opened HttpLog
  import opened HttpBulk
  import opened HttpWords
  import opened HttpMessages
  import opened HttpFields
  import opened HttpFraming
  import opened HttpValues
  import opened Numerals

  /** The fields of a message, a second framing line, and more lines. */
  function Twice(m: Message, second: Content, after: seq<HeadLine>): string {
    Fields(m) + (FramingLine(second) + LinesText(after))
  }

  function TwiceEvents(m: Message, second: Content, after: seq<HeadLine>): seq<Event> {
    FieldEvents(m) + (FramingEvents(second) + EventsOfLines(after))
  }

  predicate Frames(content: Content) {
    ContentFits(content) && !content.NoBody?
  }

  // ---------------------------------------------------------------- a second length

  lemma SecondLengthRefused(c: Config, second: Content, more: string)
    requires AtLine(c) && Settle(c).p.flags.contentLength && second.Sized? && ContentFits(second)
    requires c.p.nread + |FramingLine(second)| <= MAX_HEADER_SIZE
    ensures Run(c, FramingLine(second) + more).p.errno.UnexpectedContentLength?
  {
    hide Run, Push, FinishHeader, HeaderLine, IsLength, LengthOf;
    FramingStarts(second);
    SettleRun(c, FramingLine(second) + more);
    SettledLine(c);
    LengthIsValue(second.length);
    LengthLine(Settle(c), second.name, second.length, more);
  }

  // ---------------------------------------------------------------- a length and chunks

  lemma BothPass(p: Parser)
    requires p.state.HeadersAlmostDone? && p.flags.chunked && p.flags.contentLength && !p.flags.trailing
    ensures Dispatch(p, LF).p.errno.UnexpectedContentLength?
  {}

  lemma BothRefused(c: Config, more: string)
    requires AtLine(c) && c.p.nread + 2 <= MAX_HEADER_SIZE
    requires var f := Settle(c).p.flags; f.chunked && f.contentLength && !f.trailing
    ensures Run(c, CRLF + more).p.errno.UnexpectedContentLength?
  {
    hide Run, Dispatch, FinishHeader;
    SettleRun(c, CRLF + more);
    var e := Settle(c);
    SettledLine(c);
    var q := e.p.(state := HeadersAlmostDone, nread := e.p.nread + 1);
    BlankLinePass(e.p.(nread := e.p.nread + 1));
    QuietByte(e, CR, q);
    RunOne(e, CRLF + more);
    assert (CRLF + more)[1..] == [LF] + more;
    BothPass(q.(nread := q.nread + 1));
    ErrorStays(Step(e, CR), LF, more);
  }

  // ---------------------------------------------------------------- heads that frame twice

  lemma {:induction false} LinesFlagsAppend(flags: Flags, ls: seq<HeadLine>, more: seq<HeadLine>)
    ensures LinesFlags(flags, ls + more) == LinesFlags(LinesFlags(flags, ls), more)
    decreases |ls|
  {
    hide LineFlags;
    if |ls| == 0 {
      assert ls + more == more;
    } else {
      assert (ls + more)[1..] == ls[1..] + more;
      LinesFlagsAppend(LineFlags(flags, ls[0]), ls[1..], more);
    }
  }

  /** The lines of a head that frames its body twice, up to the blank line, unless that is a second length. */
  lemma RunTwice(c: Config, m: Message, second: Content, after: seq<HeadLine>)
    requires FirstLineRead(c, |Twice(m, second, after)|) && MessageFits(m) && Frames(second) && forall l <- after :: LineFits(l)
    requires second.Sized? ==> !m.content.Sized?
    ensures var d := Run(c, Twice(m, second, after));
            && HeadFrame(c, d, |Twice(m, second, after)|, TwiceEvents(m, second, after))
            && Settle(d).p.flags == LinesFlags(FramingFlags(HeadFlags(m), second), after)
            && (second.Chunks? ==> Settle(d).p.contentLength == FramingLength(m.content))
  {
    hide Run, PushAll, FinishHeader, HeadFlags, LinesFlags, LinesText, FramingLine, LineFits, ContentFits, EventsOfLines, FramingEvents,
      FramingLength, Fields, FieldEvents;
    RunAppend(c, Fields(m), FramingLine(second) + LinesText(after));
    RunFields(c, m);
    HeadFlagsAre(m);
    var d := Run(c, Fields(m));
    RunAppend(d, FramingLine(second), LinesText(after));
    RunFraming(d, second);
    var e := Run(d, FramingLine(second));
    RunHeadLines(e, after);
    var f := Run(e, LinesText(after));
    HeadFrameThen(d, e, f, |FramingLine(second)|, |LinesText(after)|, FramingEvents(second), EventsOfLines(after));
    HeadFrameThen(c, d, f, |Fields(m)|, |FramingLine(second)| + |LinesText(after)|, FieldEvents(m), FramingEvents(second) + EventsOfLines(after));
  }

  /** A head that frames its body twice goes through exactly if both lines say chunks, and then as with one; any other
      is refused, a second length at its first digit and a length beside chunks at the end of the head. */
  lemma TwiceExactly(c: Config, m: Message, second: Content, after: seq<HeadLine>, more: string)
    requires FirstLineRead(c, |Twice(m, second, after)| + 2) && MessageFits(m) && Frames(m.content) && Frames(second)
    requires forall l <- after :: LineFits(l)
    ensures if m.content.Chunks? && second.Chunks? then
              var d := Run(c, Twice(m, second, after)); var once := m.(after := m.after + after);
              && HeadFrame(c, d, |Twice(m, second, after)|, TwiceEvents(m, second, after))
              && Settle(d).p.flags == HeadFlags(once) && Settle(d).p.contentLength == FramingLength(once.content)
            else Run(c, Twice(m, second, after) + CRLF + more).p.errno.UnexpectedContentLength?
  {
    hide Run, PushAll, FinishHeader, LinesFlags, Fields, LinesText, Numeral, Twice, HeadFlags, TwiceEvents, LineFits;
    HeadFlagsAre(m);
    if m.content.Sized? && second.Sized? {
      RefusedAtOnce(c, m, second, after, CRLF + more);
      assert Twice(m, second, after) + CRLF + more == Twice(m, second, after) + (CRLF + more);
    } else {
      RunTwice(c, m, second, after);
      var flags := FramingFlags(HeadFlags(m), second);
      if second.Chunks? && m.content.Chunks? {
        OnceIs(m, after);
        assert flags == HeadFlags(m);
      } else {
        LinesKeepFraming(flags, after);
        var d := Run(c, Twice(m, second, after));
        assert Twice(m, second, after) + CRLF + more == Twice(m, second, after) + (CRLF + more);
        RunAppend(c, Twice(m, second, after), CRLF + more);
        BothRefused(d, more);
      }
    }
  }

  lemma OnceIs(m: Message, after: seq<HeadLine>)
    ensures HeadFlags(m.(after := m.after + after)) == LinesFlags(HeadFlags(m), after)
  {
    hide LinesFlags;
    LinesFlagsAppend(FramingFlags(LinesFlags(NO_FLAGS, m.before), m.content), m.after, after);
  }

  lemma RefusedAtOnce(c: Config, m: Message, second: Content, after: seq<HeadLine>, more: string)
    requires FirstLineRead(c, |Twice(m, second, after)|) && MessageFits(m) && m.content.Sized? && second.Sized? && ContentFits(second)
    ensures Run(c, Twice(m, second, after) + more).p.errno.UnexpectedContentLength?
  {
    hide Run, PushAll, FinishHeader, Fields, LinesText, Numeral, HeadFlags, HeaderLine;
    RunFields(c, m);
    HeadFlagsAre(m);
    var d := Run(c, Fields(m));
    var rest := FramingLine(second) + LinesText(after) + more;
    assert Twice(m, second, after) + more == Fields(m) + rest;
    RunAppend(c, Fields(m), rest);
    assert rest == FramingLine(second) + (LinesText(after) + more);
    SecondLengthRefused(d, second, LinesText(after) + more);
  }
}
