/** The values of the two header lines that say where a body ends: exactly which values mean chunks, and which are
    lengths. */
module HttpValues {
  import opened HttpSyntax
  import opened Numerals
  import opened HttpMachine
  import opened HttpLog
  import opened HttpBulk
  import opened HttpWords
  import opened HttpMessages
  import opened HttpFields
  import opened HttpChunks

  // ---------------------------------------------------------------- Transfer-Encoding

  /** Each character is the letter of "chunked" at its place, small or capital. */
  predicate Spells(s: string) {
    |s| <= 7 && forall i :: 0 <= i < |s| ==> s[i] == "chunked"[i] || s[i] == "CHUNKED"[i]
  }

  /** The word "chunked", in any mixture of small and capital letters, and perhaps spaces after it. */
  predicate IsChunked(value: string) {
    |value| >= 7 && Spells(value[..7]) && forall i :: 7 <= i < |value| ==> value[i] == ' '
  }

  lemma FoldedLetter(ch: char, i: nat)
    requires i < 7
    ensures Lower(ch) == "chunked"[i] <==> ch == "chunked"[i] || ch == "CHUNKED"[i]
  {
    if i == 0 {
    } else if i == 1 {
    } else if i == 2 {
    } else if i == 3 {
    } else if i == 4 {
    } else if i == 5 {
    }
  }

  /** What the matcher holds after the beginning `s` of a value. */
  function CodingState(s: string): HeaderState {
    if Spells(s) then (if |s| == 7 then TransferEncodingChunked else MatchingTransferEncodingChunked)
    else if IsChunked(s) then TransferEncodingChunked
    else General
  }

  /** The matcher `v` has read the value `s` of a Transfer-Encoding line that began in `v0`. */
  predicate ReadsCoding(v0: Value, s: string, v: Value) {
    && v == v0.(h := CodingState(s), index := v.index)
    && (v.h.MatchingTransferEncodingChunked? ==> v.index == |s| - 1)
  }

  lemma CodingBegins(v0: Value, ch: char)
    requires v0.h.TransferEncoding? && v0.errno.Ok?
    ensures ReadsCoding(v0, [ch], StartValue(v0, ch))
  {
    FoldedLetter(ch, 0);
  }

  lemma SpellsMore(s: string, ch: char)
    requires |s| > 0
    ensures Spells(s + [ch]) <==> Spells(s) && |s| < 7 && (ch == "chunked"[|s|] || ch == "CHUNKED"[|s|])
    ensures !Spells(s + [ch]) ==> (IsChunked(s + [ch]) <==> IsChunked(s) && ch == ' ')
    ensures |s| == 7 && Spells(s) ==> IsChunked(s)
    ensures IsChunked(s) && |s| == 7 ==> Spells(s)
  {
    var t := s + [ch];
    if |s| >= 7 {
      assert t[..7] == s[..7] && t[|s|] == ch;
      assert forall i :: 7 <= i < |s| ==> t[i] == s[i];
    }
    if |s| == 7 {
      assert s[..7] == s;
    }
    if |t| == 7 {
      assert t[..7] == t;
    }
  }

  lemma CodingNext(v0: Value, s: string, v: Value, ch: char)
    requires |s| > 0 && v0.errno.Ok? && ReadsCoding(v0, s, v)
    ensures NextValue(v, ch).errno.Ok? && ReadsCoding(v0, s + [ch], NextValue(v, ch))
  {
    SpellsMore(s, ch);
    if |s| < 7 {
      FoldedLetter(ch, |s|);
    }
    hide Spells, IsChunked, Lower;
  }

  /** The whole of a value is read without an error, whatever it is. */
  lemma {:induction false} CodingScans(v0: Value, s: string) returns (r: Value)
    requires |s| > 0 && v0.h.TransferEncoding? && v0.errno.Ok?
    ensures Scans(StartValue(v0, s[0]), s[1..], r) && ReadsCoding(v0, s, r)
    decreases |s|
  {
    hide StartValue, NextValue, CodingState, ReadsCoding;
    var n := |s| - 1;
    if n == 0 {
      CodingBegins(v0, s[0]);
      r := StartValue(v0, s[0]);
      assert s == [s[0]] && s[1..] == "";
    } else {
      var front := s[..n];
      var v := CodingScans(v0, front);
      CodingNext(v0, front, v, s[n]);
      r := NextValue(v, s[n]);
      assert front + [s[n]] == s;
      assert [s[n]][1..] == "" && Scans(v, [s[n]], r);
      ScansAppend(StartValue(v0, s[0]), front[1..], v, [s[n]], r);
      assert s[1..] == front[1..] + [s[n]];
    }
  }

  predicate IsCodingName(name: string) {
    IsName(name) && LowerName(name) == "transfer-encoding"
  }

  /** Of all values exactly the word "chunked" says that the body comes in chunks; no other sets or clears a flag. */
  lemma CodingLine(c: Config, name: string, value: string)
    requires Live(c) && c.p.state.HeaderFieldStart? && IsCodingName(name) && IsValue(value)
    requires c.p.nread + |HeaderLine(name, value)| <= MAX_HEADER_SIZE
    ensures var line := HeaderLine(name, value); var d := Run(c, line);
            && HeadFrame(c, d, |line|, [Data(HeaderFieldData, name), Data(HeaderValueData, value)])
            && Settle(d).p.flags == (if IsChunked(value) then c.p.flags.(chunked := true) else c.p.flags)
            && Settle(d).p.contentLength == c.p.contentLength
  {
    hide Run, Scans, PushAll, NameState, IsName, LowerName, Spells, IsChunked;
    CodingName(name);
    var v0 := Value(TransferEncoding, 0, c.p.flags, c.p.contentLength, Ok);
    var r := CodingScans(v0, value);
    RunHeaderLine(c, name, value, r);
    CodingFinishes(value, c.p.flags);
  }

  lemma CodingName(name: string)
    requires IsCodingName(name)
    ensures NameState(LowerName(name)) == TransferEncoding
  {}

  lemma CodingFinishes(value: string, flags: Flags)
    ensures FinishHeader(CodingState(value), flags) == if IsChunked(value) then flags.(chunked := true) else flags
  {
    if Spells(value) && |value| == 7 {
      assert value[..7] == value;
    }
  }

  // ---------------------------------------------------------------- a value that is refused

  /** The matcher refuses a character of `s`, with error `e`. */
  predicate Fails(v: Value, s: string, e: Errno)
    decreases |s|
  {
    |s| > 0 && var u := NextValue(v, s[0]); if u.errno.Ok? then Fails(u, s[1..], e) else u.errno == e
  }

  lemma RefusedPass(p: Parser, ch: char)
    requires p.state.HeaderValue? && ch != CR && ch != LF && IsHeaderChar(ch) && !NextValue(ValueOf(p), ch).errno.Ok?
    ensures Dispatch(p, ch) == Micro(ValueByte(p, ch), [], Break)
  {
    ValueDispatch(p, ch);
  }

  lemma RefusedStep(c: Config, ch: char)
    requires Live(c) && c.p.state.HeaderValue? && c.p.nread < MAX_HEADER_SIZE && ch != CR && ch != LF && IsHeaderChar(ch)
    requires !NextValue(ValueOf(c.p), ch).errno.Ok?
    ensures Step(c, ch).p.errno == NextValue(ValueOf(c.p), ch).errno
  {
    hide NextValue, Dispatch, IsHeaderChar;
    var q := Count(c.p);
    RefusedPass(q, ch);
    ExecDone(q, ch);
    StepExec(c, ch);
  }

  lemma {:induction false} RunFails(c: Config, s: string, e: Errno, more: string)
    requires Live(c) && c.p.state.HeaderValue? && ValueChars(s) && c.p.nread + |s| <= MAX_HEADER_SIZE && Fails(ValueOf(c.p), s, e)
    ensures Run(c, s + more).p.errno == e
    decreases |s|
  {
    hide NextValue, Step, Run, Push, IsHeaderChar;
    RunOne(c, s + more);
    assert (s + more)[1..] == s[1..] + more && (s + more)[0] == s[0];
    if NextValue(ValueOf(c.p), s[0]).errno.Ok? {
      ValueCharStep(c, s[0]);
      RunFails(Step(c, s[0]), s[1..], e, more);
    } else {
      RefusedStep(c, s[0]);
      RunDead(Step(c, s[0]), s[1..] + more);
    }
  }

  // ---------------------------------------------------------------- Content-Length

  function LeadingDigits(s: string): (k: nat)
    ensures k <= |s| && AllDigits(s[..k]) && (k < |s| ==> !IsNum(s[k]))
  {
    if |s| == 0 || !IsNum(s[0]) then 0 else 1 + LeadingDigits(s[1..])
  }

  /** The largest length that is accepted. */
  const LONGEST := 18_446_744_073_709_551_609

  /** Digits of a number up to the largest, and perhaps spaces after them. */
  predicate IsLength(value: string) {
    var k := LeadingDigits(value);
    k >= 1 && (forall i :: k <= i < |value| ==> value[i] == ' ') && LengthOf(value) <= LONGEST
  }

  function LengthOf(value: string): nat {
    DigitsValue(10, 0, value[..LeadingDigits(value)])
  }

  lemma LongestIs()
    ensures LONGEST == DECIMAL_LIMIT * 10 + 9 < UINT64_MAX
  {}

  lemma SpacesScan(v: Value, s: string)
    requires v.h.ContentLengthWs? && v.errno.Ok?
    ensures if forall i :: 0 <= i < |s| ==> s[i] == ' ' then Scans(v, s, v) else Fails(v, s, InvalidContentLength)
    decreases |s|
  {
    if |s| > 0 {
      SpacesScan(v, s[1..]);
      if s[0] == ' ' && !forall i :: 0 <= i < |s| ==> s[i] == ' ' {
        var i :| 0 <= i < |s| && s[i] != ' ';
        assert s[1..][i - 1] != ' ';
      }
    }
  }

  lemma {:induction false} LengthScans(v: Value, s: string)
    requires v.h.ContentLengthNum? && v.errno.Ok?
    ensures var k := LeadingDigits(s); var n := DigitsValue(10, v.length, s[..k]);
            if (forall i :: k <= i < |s| ==> s[i] == ' ') && (k == 0 || n <= LONGEST)
            then Scans(v, s, v.(length := n, h := if k < |s| then ContentLengthWs else ContentLengthNum))
            else Fails(v, s, InvalidContentLength)
    decreases |s|
  {
    LongestIs();
    var k := LeadingDigits(s);
    if |s| == 0 {
    } else if !IsNum(s[0]) {
      SpacesScan(v.(h := ContentLengthWs), s[1..]);
      RestOfSpaces(s);
    } else {
      DigitScans(v, s);
    }
  }

  lemma RestOfSpaces(s: string)
    requires |s| > 0
    ensures (forall i :: 0 <= i < |s| ==> s[i] == ' ') <==> s[0] == ' ' && forall i :: 0 <= i < |s[1..]| ==> s[1..][i] == ' '
  {
    if s[0] == ' ' && forall i :: 0 <= i < |s[1..]| ==> s[1..][i] == ' ' {
      forall i | 0 <= i < |s| ensures s[i] == ' ' {
        assert i > 0 ==> s[1..][i - 1] == s[i];
      }
    }
  }

  lemma {:induction false} DigitScans(v: Value, s: string)
    requires v.h.ContentLengthNum? && v.errno.Ok? && |s| > 0 && IsNum(s[0])
    ensures var k := LeadingDigits(s); var n := DigitsValue(10, v.length, s[..k]);
            if (forall i :: k <= i < |s| ==> s[i] == ' ') && n <= LONGEST
            then Scans(v, s, v.(length := n, h := if k < |s| then ContentLengthWs else ContentLengthNum))
            else Fails(v, s, InvalidContentLength)
    decreases |s|, 0
  {
    LongestIs();
    var k := LeadingDigits(s);
    var next := v.length * 10 + DigitValue(s[0]);
    assert HexValue(s[0]) == DigitValue(s[0]);
    assert s[..k][1..] == s[1..][..k - 1] && s[..k][0] == s[0];
    DigitsValueGrows(10, next, s[..k][1..]);
    if v.length <= DECIMAL_LIMIT {
      LengthScans(v.(length := next), s[1..]);
      assert forall i :: k <= i < |s| ==> s[i] == s[1..][i - 1];
      assert forall i :: k - 1 <= i < |s[1..]| ==> s[1..][i] == s[i + 1];
    }
  }

  predicate IsLengthName(name: string) {
    IsName(name) && LowerName(name) == "content-length"
  }

  lemma LengthName(name: string)
    requires IsLengthName(name)
    ensures NameState(LowerName(name)) == ContentLength
  {}

  lemma LengthFirst(value: string)
    requires |value| > 0 && IsNum(value[0])
    ensures var k := LeadingDigits(value);
            && k == 1 + LeadingDigits(value[1..])
            && LengthOf(value) == DigitsValue(10, DigitValue(value[0]), value[1..][..k - 1])
            && ((forall i :: k <= i < |value| ==> value[i] == ' ') <==> forall i :: k - 1 <= i < |value[1..]| ==> value[1..][i] == ' ')
            && (k == 1 ==> LengthOf(value) < 10)
  {
    var k := LeadingDigits(value);
    assert value[..k][1..] == value[1..][..k - 1] && value[..k][0] == value[0];
    assert HexValue(value[0]) == DigitValue(value[0]);
    assert forall i :: k <= i < |value| ==> value[i] == value[1..][i - 1];
    assert forall i :: k - 1 <= i < |value[1..]| ==> value[1..][i] == value[i + 1];
  }

  /** A value that begins with a digit, when no length has come before. */
  lemma LengthReads(v0: Value, value: string)
    requires v0.h.ContentLength? && v0.errno.Ok? && !v0.flags.contentLength && |value| > 0 && IsNum(value[0])
    ensures var v := StartValue(v0, value[0]); var k := LeadingDigits(value);
            && v.errno.Ok?
            && if IsLength(value)
               then Scans(v, value[1..], Value(if k < |value| then ContentLengthWs else ContentLengthNum, 0,
                                               v0.flags.(contentLength := true), LengthOf(value), Ok))
               else Fails(v, value[1..], InvalidContentLength)
  {
    LengthFirst(value);
    LongestIs();
    var v := StartValue(v0, value[0]);
    assert v == Value(ContentLengthNum, 0, v0.flags.(contentLength := true), DigitValue(value[0]), Ok);
    LengthScans(v, value[1..]);
    hide Scans, Fails, StartValue, DigitsValue;
  }

  /** A header line whose value is refused at its first character. */
  lemma FirstRefused(c: Config, name: string, value: string, more: string)
    requires Live(c) && c.p.state.HeaderFieldStart? && IsName(name) && IsValue(value)
    requires c.p.nread + |HeaderLine(name, value)| <= MAX_HEADER_SIZE && !AfterFirst(c.p, name, value[0]).errno.Ok?
    ensures Run(c, HeaderLine(name, value) + more).p.errno == AfterFirst(c.p, name, value[0]).errno
  {
    hide Run, NameState, Push, Dispatch, StartValue, LowerName, IsHeaderChar;
    var rest := value + CRLF + more;
    assert HeaderLine(name, value) + more == (name + ": ") + rest;
    RunAppend(c, name + ": ", rest);
    RunNameColon(c, name);
    var d := Run(c, name + ": ");
    StartValueIgnoresIndex(Value(NameState(LowerName(name)), 0, c.p.flags, c.p.contentLength, Ok), d.p.index, value[0]);
    RefusedStart(Count(d.p), value[0]);
    ErrorStays(d, value[0], rest[1..]);
    assert [rest[0]] + rest[1..] == rest;
  }

  lemma RefusedStart(p: Parser, ch: char)
    requires p.state.HeaderValueDiscardWs? && ch != ' ' && ch != '\t' && ch != CR && ch != LF
    ensures Dispatch(p, ch).p.errno == StartValue(ValueOf(p), ch).errno
  {
    assert Dispatch(p, ch) == DispatchHeaderValue(p, ch);
  }

  lemma ErrorStays(c: Config, ch: char, s: string)
    requires Live(c) && c.p.nread < MAX_HEADER_SIZE && !Dispatch(c.p.(nread := c.p.nread + 1), ch).p.errno.Ok? && ParsingHeader(c.p.state)
    ensures Run(c, [ch] + s).p.errno == Dispatch(c.p.(nread := c.p.nread + 1), ch).p.errno
  {
    hide Dispatch, Run, Exec, Step;
    RunOne(c, [ch] + s);
    ExecDone(Count(c.p), ch);
    StepExec(c, ch);
    assert ([ch] + s)[1..] == s;
    RunDead(Step(c, ch), s);
  }

  /** A header line whose value is refused later. */
  lemma LaterRefused(c: Config, name: string, value: string, e: Errno, more: string)
    requires Live(c) && c.p.state.HeaderFieldStart? && IsName(name) && IsValue(value)
    requires c.p.nread + |HeaderLine(name, value)| <= MAX_HEADER_SIZE
    requires AfterFirst(c.p, name, value[0]).errno.Ok? && Fails(AfterFirst(c.p, name, value[0]), value[1..], e)
    ensures Run(c, HeaderLine(name, value) + more).p.errno == e
  {
    hide Run, Step, NameState, Push, StartValue, LowerName, IsHeaderChar, Fails;
    var rest := value + CRLF + more;
    assert HeaderLine(name, value) + more == (name + ": ") + rest;
    RunAppend(c, name + ": ", rest);
    RunNameColon(c, name);
    var d := Run(c, name + ": ");
    StartValueIgnoresIndex(Value(NameState(LowerName(name)), 0, c.p.flags, c.p.contentLength, Ok), d.p.index, value[0]);
    ValueFirstStep(d, value[0]);
    RunOne(d, rest);
    assert rest[1..] == value[1..] + (CRLF + more);
    RunFails(Step(d, value[0]), value[1..], e, CRLF + more);
  }

  /** Exactly which Content-Length lines are accepted: the first one, if its value is digits of a number up to the largest
      and perhaps spaces after them; and what the others are refused for. */
  lemma LengthLine(c: Config, name: string, value: string, more: string)
    requires Live(c) && c.p.state.HeaderFieldStart? && IsLengthName(name) && IsValue(value)
    requires c.p.nread + |HeaderLine(name, value)| <= MAX_HEADER_SIZE
    ensures var line := HeaderLine(name, value);
            if !c.p.flags.contentLength && IsLength(value) then
              var d := Run(c, line);
              && HeadFrame(c, d, |line|, [Data(HeaderFieldData, name), Data(HeaderValueData, value)])
              && Settle(d).p.flags == c.p.flags.(contentLength := true) && Settle(d).p.contentLength == LengthOf(value)
            else
              Run(c, line + more).p.errno == if IsNum(value[0]) && c.p.flags.contentLength then UnexpectedContentLength else InvalidContentLength
  {
    hide Run, Scans, PushAll, NameState, LowerName, IsName, IsLength, Fails, StartValue, DigitsValue, IsHeaderChar;
    LengthName(name);
    var v0 := Value(ContentLength, 0, c.p.flags, c.p.contentLength, Ok);
    LengthStarts(v0, value[0]);
    if !IsNum(value[0]) {
      NotALength(value);
      FirstRefused(c, name, value, more);
    } else if c.p.flags.contentLength {
      FirstRefused(c, name, value, more);
    } else {
      LengthReads(v0, value);
      if IsLength(value) {
        var k := LeadingDigits(value);
        RunHeaderLine(c, name, value, Value(if k < |value| then ContentLengthWs else ContentLengthNum, 0,
                                            c.p.flags.(contentLength := true), LengthOf(value), Ok));
      } else {
        LaterRefused(c, name, value, InvalidContentLength, more);
      }
    }
  }

  lemma NotALength(value: string)
    requires |value| > 0 && !IsNum(value[0])
    ensures !IsLength(value)
  {}

  lemma LengthStarts(v0: Value, ch: char)
    requires v0.h.ContentLength? && v0.errno.Ok?
    ensures StartValue(v0, ch).errno ==
            if !IsNum(ch) then InvalidContentLength else if v0.flags.contentLength then UnexpectedContentLength else Ok
  {}

  lemma LengthIsValue(value: string)
    requires IsLength(value)
    ensures IsValue(value) && IsNum(value[0])
  {
    var k := LeadingDigits(value);
    forall i | 0 <= i < |value| ensures IsNum(value[i]) || value[i] == ' ' {
      if i < k {
        assert value[..k][i] == value[i];
      }
    }
    assert value[..k][0] == value[0];
  }

  lemma ChunkedIsValue(value: string)
    requires IsChunked(value)
    ensures IsValue(value)
  {
    forall i | 0 <= i < |value| ensures value[i] == ' ' || IsAlpha(value[i]) {
      if i < 7 {
        assert value[..7][i] == value[i];
        ChunkedLetter(value[i], i);
      }
    }
    assert value[..7][0] == value[0];
  }

  lemma ChunkedLetter(ch: char, i: nat)
    requires i < 7 && (ch == "chunked"[i] || ch == "CHUNKED"[i])
    ensures IsAlpha(ch)
  {
    if i == 0 {
    } else if i == 1 {
    } else if i == 2 {
    } else if i == 3 {
    } else if i == 4 {
    } else if i == 5 {
    }
  }
}
