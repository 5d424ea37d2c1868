/** The two word recognisers of the parser: request methods and special header names. */
module HttpWords {
  import opened HttpSyntax
  import opened HttpMachine
  import opened HttpLog
  import opened Wrappers

  /** The method the recogniser holds after `w`, which it has accepted so far. */
  function Held(w: string): Option<Method>
    requires |w| > 0
    decreases |w|
  {
    if |w| == 1 then (if IsFirstLetter(w[0]) then Some(FirstLetter(w[0])) else None)
    else match Held(w[..|w| - 1])
      case None => None
      case Some(m) => MethodByte(m, |w| - 1, w[|w| - 1])
  }

  /** `n` is a method whose name shares its first `index` letters with that of `m` and goes on with `ch`. */
  predicate TurnsTo(m: Method, index: nat, ch: char, n: Method) {
    index < |MethodName(n)| && index <= |MethodName(m)| && MethodName(n)[..index] == MethodName(m)[..index] && MethodName(n)[index] == ch
  }

  predicate SwitchReads(m: Method, index: nat, ch: char) {
    var n := SwitchMethod(m, index, ch); n.Some? ==> TurnsTo(m, index, ch, n.value)
  }

  lemma SwitchFromP(m: Method, index: nat, ch: char)
    requires m.POST? || m.PUT? || m.PROPFIND?
    ensures SwitchReads(m, index, ch)
  {}

  lemma SwitchFromMkcol(m: Method, index: nat, ch: char)
    requires m.MKCOL?
    ensures SwitchReads(m, index, ch)
  {}

  lemma SwitchFromUnlock(m: Method, index: nat, ch: char)
    requires m.UNLOCK? || m.SUBSCRIBE?
    ensures SwitchReads(m, index, ch)
  {}

  lemma SwitchFromOther(m: Method, index: nat, ch: char)
    requires !m.POST? && !m.PUT? && !m.PROPFIND? && !m.MKCOL? && !m.UNLOCK? && !m.SUBSCRIBE?
    ensures SwitchReads(m, index, ch)
  {}

  lemma SwitchMethodReads(m: Method, index: nat, ch: char)
    ensures SwitchReads(m, index, ch)
  {
    hide SwitchReads;
    if m.POST? || m.PUT? || m.PROPFIND? {
      SwitchFromP(m, index, ch);
    } else if m.MKCOL? {
      SwitchFromMkcol(m, index, ch);
    } else if m.UNLOCK? || m.SUBSCRIBE? {
      SwitchFromUnlock(m, index, ch);
    } else {
      SwitchFromOther(m, index, ch);
    }
  }

  lemma {:induction false} HeldIsPrefix(w: string)
    requires |w| > 0 && Held(w).Some?
    ensures |w| <= |MethodName(Held(w).value)| && w == MethodName(Held(w).value)[..|w|]
    decreases |w|
  {
    hide MethodName, SwitchMethod;
    if |w| == 1 {
      FirstLetterReads(w[0]);
    } else {
      var m := Held(w[..|w| - 1]).value;
      HeldIsPrefix(w[..|w| - 1]);
      SwitchMethodReads(m, |w| - 1, w[|w| - 1]);
      assert w == w[..|w| - 1] + [w[|w| - 1]];
    }
  }

  lemma FirstLetterReads(ch: char)
    requires IsFirstLetter(ch)
    ensures MethodName(FirstLetter(ch))[0] == ch
  {}

  /** The method whose name the recogniser follows before it turns to `m`, and where it turns. */
  function Origin(m: Method): Option<(Method, nat)> {
    if m.PUT? || m.PATCH? || m.PROPFIND? then Some((POST, 1))
    else if m.PURGE? then Some((PUT, 2))
    else if m.PROPPATCH? then Some((PROPFIND, 4))
    else if m.CHECKOUT? then Some((CONNECT, 1))
    else if m.COPY? then Some((CONNECT, 2))
    else if m.MOVE? || m.MERGE? || m.MSEARCH? then Some((MKCOL, 1))
    else if m.MKACTIVITY? then Some((MKCOL, 2))
    else if m.MKCALENDAR? then Some((MKCOL, 3))
    else if m.SEARCH? || m.SOURCE? then Some((SUBSCRIBE, 1))
    else if m.REBIND? then Some((REPORT, 2))
    else if m.LINK? then Some((LOCK, 1))
    else if m.UNSUBSCRIBE? || m.UNBIND? then Some((UNLOCK, 2))
    else if m.UNLINK? then Some((UNLOCK, 3))
    else None
  }

  function Depth(m: Method): nat {
    if Origin(m).None? then 0 else if m.PURGE? || m.PROPPATCH? then 2 else 1
  }

  /** The origin of a method has been turned to before, if it is one to which the recogniser turns. */
  lemma OriginEarlier(m: Method)
    requires Origin(m).Some?
    ensures var (p, n) := Origin(m).value; Depth(p) < Depth(m) && (Origin(p).Some? ==> Origin(p).value.1 < n)
  {}

  /** The method held after the first `i` letters of the name of `m`. */
  function Holder(m: Method, i: nat): Method
    decreases Depth(m)
  {
    if Origin(m).None? || i > Origin(m).value.1 then m
    else
      OriginEarlier(m);
      Holder(Origin(m).value.0, i)
  }

  /** The first letter of every name is that of the method it is tried with first. */
  function Root(m: Method): Method {
    if Origin(m).None? then m
    else if Origin(Origin(m).value.0).None? then Origin(m).value.0
    else Origin(Origin(m).value.0).value.0
  }

  lemma RootStarts(m: Method)
    requires Origin(m).None?
    ensures IsFirstLetter(MethodName(m)[0]) && FirstLetter(MethodName(m)[0]) == m
  {}

  lemma RootShares(m: Method)
    ensures MethodName(Root(m))[0] == MethodName(m)[0] && Origin(Root(m)).None? && Holder(m, 1) == Root(m)
  {
    hide MethodName;
    if Origin(m).Some? {
      OriginEarlier(m);
      OriginShares(m, 0);
      if Origin(Origin(m).value.0).Some? {
        OriginShares(Origin(m).value.0, 0);
      }
    }
  }

  lemma HolderStarts(m: Method)
    ensures IsFirstLetter(MethodName(m)[0]) && FirstLetter(MethodName(m)[0]) == Holder(m, 1)
  {
    hide MethodName, FirstLetter, IsFirstLetter, Root, Holder;
    RootShares(m);
    RootStarts(Root(m));
  }

  predicate Turns(m: Method)
    requires Origin(m).Some?
  {
    var (p, n) := Origin(m).value;
    && 1 <= n < |MethodName(m)| && n < |MethodName(p)|
    && MethodName(p)[n] != MethodName(m)[n] && SwitchMethod(p, n, MethodName(m)[n]) == Some(m)
  }

  lemma TurnsFromP(m: Method)
    requires m.PUT? || m.PATCH? || m.PROPFIND? || m.PURGE? || m.PROPPATCH? || m.CHECKOUT? || m.COPY?
    ensures Turns(m)
  {}

  lemma TurnsFromMkcol(m: Method)
    requires m.MOVE? || m.MERGE? || m.MSEARCH? || m.MKACTIVITY? || m.MKCALENDAR?
    ensures Turns(m)
  {}

  lemma TurnsFromSubscribe(m: Method)
    requires m.SEARCH? || m.SOURCE? || m.REBIND? || m.LINK?
    ensures Turns(m)
  {}

  lemma TurnsFromUnlock(m: Method)
    requires m.UNSUBSCRIBE? || m.UNBIND? || m.UNLINK?
    ensures Turns(m)
  {}

  lemma LettersOfSome(m: Method, i: nat)
    requires m.DELETE? || m.GET? || m.HEAD? || m.POST? || m.PUT? || m.CONNECT? || m.OPTIONS? || m.TRACE? || m.COPY? || m.LOCK? ||
             m.MKCOL? || m.MOVE? || m.PROPFIND? || m.PROPPATCH? || m.SEARCH? || m.UNLOCK? || m.BIND?
    ensures i < |MethodName(m)| ==> 'A' <= MethodName(m)[i] <= 'Z' || MethodName(m)[i] == '-'
  {}

  lemma LettersOfOthers(m: Method, i: nat)
    requires !(m.DELETE? || m.GET? || m.HEAD? || m.POST? || m.PUT? || m.CONNECT? || m.OPTIONS? || m.TRACE? || m.COPY? || m.LOCK? ||
               m.MKCOL? || m.MOVE? || m.PROPFIND? || m.PROPPATCH? || m.SEARCH? || m.UNLOCK? || m.BIND?)
    ensures i < |MethodName(m)| ==> 'A' <= MethodName(m)[i] <= 'Z' || MethodName(m)[i] == '-'
  {}

  /** Names are written in capitals and hyphens. */
  lemma Letters(m: Method, i: nat)
    ensures i < |MethodName(m)| ==> 'A' <= MethodName(m)[i] <= 'Z' || MethodName(m)[i] == '-'
  {
    hide MethodName;
    if m.DELETE? || m.GET? || m.HEAD? || m.POST? || m.PUT? || m.CONNECT? || m.OPTIONS? || m.TRACE? || m.COPY? || m.LOCK? ||
       m.MKCOL? || m.MOVE? || m.PROPFIND? || m.PROPPATCH? || m.SEARCH? || m.UNLOCK? || m.BIND? {
      LettersOfSome(m, i);
    } else {
      LettersOfOthers(m, i);
    }
  }

  /** Where the recogniser turns to `m`, the names differ for the first time. */
  lemma HolderTurns(m: Method)
    requires Origin(m).Some?
    ensures var (p, n) := Origin(m).value;
            Turns(m) && ('A' <= MethodName(m)[n] <= 'Z' || MethodName(m)[n] == '-')
  {
    hide Turns, MethodName;
    if m.MOVE? || m.MERGE? || m.MSEARCH? || m.MKACTIVITY? || m.MKCALENDAR? {
      TurnsFromMkcol(m);
    } else if m.SEARCH? || m.SOURCE? || m.REBIND? || m.LINK? {
      TurnsFromSubscribe(m);
    } else if m.UNSUBSCRIBE? || m.UNBIND? || m.UNLINK? {
      TurnsFromUnlock(m);
    } else {
      TurnsFromP(m);
    }
    Letters(m, Origin(m).value.1);
  }

  lemma OriginShares(m: Method, i: nat)
    requires Origin(m).Some? && i < Origin(m).value.1
    ensures var (p, n) := Origin(m).value; MethodName(p)[i] == MethodName(m)[i]
  {}

  lemma HolderMoves(m: Method, i: nat)
    requires 1 <= i < |MethodName(m)|
    ensures MethodByte(Holder(m, i), i, MethodName(m)[i]) == Some(Holder(m, i + 1))
    decreases Depth(m)
  {
    hide MethodName, SwitchMethod, Origin, Depth;
    if Origin(m).Some? && i <= Origin(m).value.1 {
      var (p, n) := Origin(m).value;
      OriginEarlier(m);
      HolderTurns(m);
      if i < n {
        OriginShares(m, i);
        HolderMoves(p, i);
      }
    }
  }

  lemma {:induction false} HeldOnNames(m: Method, i: nat)
    requires 1 <= i <= |MethodName(m)|
    ensures Held(MethodName(m)[..i]) == Some(Holder(m, i))
    decreases i
  {
    hide MethodName, Holder, MethodByte;
    if i == 1 {
      HolderStarts(m);
    } else {
      HeldOnNames(m, i - 1);
      HolderMoves(m, i - 1);
      assert MethodName(m)[..i][..i - 1] == MethodName(m)[..i - 1];
    }
  }

  lemma HolderOfAll(m: Method)
    ensures Holder(m, |MethodName(m)|) == m
  {}

  /** The recogniser accepts exactly the names in the table, each with its own code. */
  lemma HeldExactly(w: string, m: Method)
    requires |w| > 0
    ensures Held(w) == Some(m) && |w| == |MethodName(m)| <==> w == MethodName(m)
  {
    hide MethodName, Held;
    if Held(w) == Some(m) && |w| == |MethodName(m)| {
      HeldIsPrefix(w);
      assert MethodName(m)[..|w|] == MethodName(m);
    }
    if w == MethodName(m) {
      HeldOnNames(m, |w|);
      HolderOfAll(m);
      assert MethodName(m)[..|w|] == MethodName(m);
    }
  }

  /** A parser waiting for a request, with room for the request line. */
  predicate AwaitsRequest(c: Config, room: nat) {
    Live(c) && c.p.state.StartReq? && c.p.nread + room <= MAX_HEADER_SIZE
  }

  predicate MethodLike(w: string) {
    |w| > 0 && w[0] != CR && w[0] != LF && (forall i :: 0 <= i < |w| ==> w[i] != ' ')
  }

  /** The parser after the letters `w` of a method that `Held` accepts. */
  function AfterMethodLetters(c: Config, w: string, m: Method): Config {
    Config(ResetMessage(c.p).(verb := m, index := |w|, state := ReqMethod, nread := c.p.nread + |w|),
           Push(c.log, MessageBegin), c.used + |w|, false)
  }

  lemma FirstMethodByte(c: Config, ch: char)
    requires AwaitsRequest(c, 1) && ch != CR && ch != LF
    ensures if IsFirstLetter(ch) then Step(c, ch) == AfterMethodLetters(c, [ch], FirstLetter(ch))
            else !Step(c, ch).p.errno.Ok?
  {
    hide FirstLetter;
    PushOne(c.log, MessageBegin);
    assert Dispatch(Count(c.p), ch) == StartRequest(Count(c.p), ch);
  }

  lemma MoreMethodByte(c: Config, ch: char)
    requires Live(c) && c.p.state.ReqMethod? && c.p.nread < MAX_HEADER_SIZE && c.p.index <= 11 && ch != ' '
    ensures match MethodByte(c.p.verb, c.p.index, ch)
            case Some(m) => Step(c, ch) == Config(c.p.(verb := m, index := c.p.index + 1, nread := c.p.nread + 1), c.log, c.used + 1, false)
            case None => !Step(c, ch).p.errno.Ok?
  {
    hide SwitchMethod, MethodName;
    assert Dispatch(Count(c.p), ch) == RequestMethod(Count(c.p), ch);
    NoNul(c.p.verb, c.p.index);
  }

  lemma NoNul(m: Method, index: nat)
    ensures MethodByte(m, index, '\0').None?
    ensures index < |MethodName(m)| ==> MethodName(m)[index] != ' '
  {
    hide MethodName, SwitchMethod;
    Letters(m, index);
  }

  lemma {:induction false} RunMethodLetters(c: Config, w: string)
    requires MethodLike(w) && AwaitsRequest(c, |w|)
    ensures match Held(w)
            case Some(m) => Run(c, w) == AfterMethodLetters(c, w, m) && |w| <= 11
            case None => !Run(c, w).p.errno.Ok?
    decreases |w|
  {
    hide Step, MethodByte;
    var n := |w| - 1;
    assert w == w[..n] + [w[n]];
    RunSnoc(c, w[..n], w[n]);
    if n == 0 {
      assert w[..0] == "" && w == [w[0]];
      FirstMethodByte(c, w[0]);
    } else {
      RunMethodLetters(c, w[..n]);
      if Held(w[..n]).Some? {
        MoreMethodByte(Run(c, w[..n]), w[n]);
      } else {
        RunDead(Run(c, w[..n]), [w[n]]);
      }
      if Held(w).Some? {
        HeldIsPrefix(w);
      }
    }
  }

  lemma MethodEnd(c: Config)
    requires Live(c) && c.p.state.ReqMethod? && c.p.nread < MAX_HEADER_SIZE && c.p.index <= |MethodName(c.p.verb)|
    ensures var d := Step(c, ' ');
            if c.p.index == |MethodName(c.p.verb)|
            then d == Config(c.p.(index := c.p.index + 1, state := ReqSpacesBeforeUrl, nread := c.p.nread + 1), c.log, c.used + 1, false)
            else !d.p.errno.Ok?
  {
    hide SwitchMethod, MethodName;
    assert Dispatch(Count(c.p), ' ') == RequestMethod(Count(c.p), ' ');
    NoNul(c.p.verb, c.p.index);
  }

  /** From the start of a request, a word followed by a space gets the parser to the URL with method
      `m` exactly when the word is the name of `m`; every other word is refused. */
  lemma MethodAccepted(c: Config, w: string, m: Method)
    requires MethodLike(w) && AwaitsRequest(c, |w| + 1)
    ensures var d := Run(c, w + " ");
            && (d.p.errno.Ok? && d.p.verb == m <==> w == MethodName(m))
            && (d.p.errno.Ok? ==> d == Config(AfterMethodLetters(c, w, d.p.verb).p.(index := |w| + 1,
                state := ReqSpacesBeforeUrl, nread := c.p.nread + |w| + 1),
                                              Push(c.log, MessageBegin), c.used + |w| + 1, false))
  {
    hide Step, MethodName, Held, Run, Push;
    RunSnoc(c, w, ' ');
    RunMethodLetters(c, w);
    HeldExactly(w, m);
    if Held(w).Some? {
      HeldIsPrefix(w);
      HeldExactly(w, Held(w).value);
      MethodEnd(Run(c, w));
    } else {
      StepDead(Run(c, w), ' ');
    }
  }

  lemma StepDead(c: Config, ch: char)
    requires !Live(c)
    ensures Step(c, ch) == c
  {}

  // ---------------------------------------------------------------- special header names

  predicate AllTokens(w: string) {
    forall i :: 0 <= i < |w| ==> IsToken(w[i])
  }

  /** The header name in lower case. */
  function LowerName(w: string): (r: string)
    requires AllTokens(w)
    ensures |r| == |w| && forall i :: 0 <= i < |w| ==> r[i] == TokenLower(w[i])
  {
    seq(|w|, i requires 0 <= i < |w| => TokenLower(w[i]))
  }

  /** Which special header a complete lower-case name is, and otherwise whether it may still become one. */
  function NameState(w: string): HeaderState {
    if w == "connection" || w == "proxy-connection" then Connection
    else if w == "content-length" then ContentLength
    else if w == "transfer-encoding" then TransferEncoding
    else if w == "upgrade" then Upgrade
    else if w <= "connection" then (if |w| <= 1 then C else if |w| == 2 then CO else if |w| == 3 then CON else MatchingConnection)
    else if w <= "content-length" then MatchingContentLength
    else if w <= "proxy-connection" then MatchingProxyConnection
    else if w <= "transfer-encoding" then MatchingTransferEncoding
    else if w <= "upgrade" then MatchingUpgrade
    else General
  }

  lemma PrefixGrows(w: string, c: char, word: string)
    ensures w + [c] <= word <==> w <= word && |w| < |word| && word[|w|] == c
    ensures w + [c] == word <==> w <= word && |w| + 1 == |word| && word[|w|] == c
  {}

  /** One character more of a word, or no longer of it. */
  lemma MatchStep(w: string, c: char, word: string, same: HeaderState, found: HeaderState, miss: HeaderState)
    requires w < word
    ensures MatchWord(word, |w|, c, same, found, miss) ==
            if w + [c] == word then found else if w + [c] <= word then same else miss
  {
    PrefixGrows(w, c, word);
  }

  lemma OtherStart(w: string, word: string, c: char)
    requires |w| > 0 && |word| > 0 && w[0] != word[0]
    ensures !(w <= word) && !(w + [c] <= word)
  {}

  lemma OtherFourth(w: string, word: string, other: string, c: char)
    requires w <= word && |w| > 3 && |other| > 3 && |word| > 3 && word[3] != other[3]
    ensures !(w <= other) && !(w + [c] <= other)
  {}

  lemma FirstNameByte(c: char)
    ensures FirstFieldByte(c) == NameState([c])
  {
    assert [c] == "" + [c];
    PrefixGrows("", c, "connection");
    PrefixGrows("", c, "proxy-connection");
    PrefixGrows("", c, "content-length");
    PrefixGrows("", c, "transfer-encoding");
    PrefixGrows("", c, "upgrade");
  }

  /** One more character of a name; the recogniser's index is that of the last character. */
  predicate NextName(w: string, ch: char)
    requires |w| > 0 && IsToken(ch)
  {
    FieldByte(NameState(w), |w| - 1, ch).0 == NameState(w + [TokenLower(ch)])
  }

  lemma NextNameOther(w: string, ch: char)
    requires |w| > 0 && IsToken(ch) && w[0] != 'c' && w[0] != 'p' && w[0] != 't' && w[0] != 'u'
    ensures NextName(w, ch)
  {
    var c := TokenLower(ch);
    hide TokenLower;
    OtherStart(w, "connection", c);
    OtherStart(w, "content-length", c);
    OtherStart(w, "proxy-connection", c);
    OtherStart(w, "transfer-encoding", c);
    OtherStart(w, "upgrade", c);
  }

  lemma StateOfP(w: string)
    requires |w| > 0 && w[0] == 'p'
    ensures NameState(w) == if w == "proxy-connection" then Connection else if w < "proxy-connection" then MatchingProxyConnection else General
  {
    assert "connection"[0] == 'c';
    assert "content-length"[0] == 'c';
    assert "transfer-encoding"[0] == 't';
    assert "upgrade"[0] == 'u';
  }

  lemma NextNameP(w: string, ch: char)
    requires |w| > 0 && IsToken(ch) && w[0] == 'p'
    ensures NextName(w, ch)
  {
    hide TokenLower, MatchWord, NameState;
    var c := TokenLower(ch);
    StateOfP(w);
    StateOfP(w + [c]);
    PrefixGrows(w, c, "proxy-connection");
    if w < "proxy-connection" {
      MatchStep(w, c, "proxy-connection", MatchingProxyConnection, Connection, General);
    }
  }

  lemma StateOfT(w: string)
    requires |w| > 0 && w[0] == 't'
    ensures NameState(w) == if w == "transfer-encoding" then TransferEncoding else if w < "transfer-encoding" then MatchingTransferEncoding else General
  {
    assert "connection"[0] == 'c';
    assert "content-length"[0] == 'c';
    assert "proxy-connection"[0] == 'p';
    assert "upgrade"[0] == 'u';
  }

  lemma NextNameT(w: string, ch: char)
    requires |w| > 0 && IsToken(ch) && w[0] == 't'
    ensures NextName(w, ch)
  {
    hide TokenLower, MatchWord, NameState;
    var c := TokenLower(ch);
    StateOfT(w);
    StateOfT(w + [c]);
    PrefixGrows(w, c, "transfer-encoding");
    if w < "transfer-encoding" {
      MatchStep(w, c, "transfer-encoding", MatchingTransferEncoding, TransferEncoding, General);
    }
  }

  lemma StateOfU(w: string)
    requires |w| > 0 && w[0] == 'u'
    ensures NameState(w) == if w == "upgrade" then Upgrade else if w < "upgrade" then MatchingUpgrade else General
  {
    assert "connection"[0] == 'c';
    assert "content-length"[0] == 'c';
    assert "proxy-connection"[0] == 'p';
    assert "transfer-encoding"[0] == 't';
  }

  lemma NextNameU(w: string, ch: char)
    requires |w| > 0 && IsToken(ch) && w[0] == 'u'
    ensures NextName(w, ch)
  {
    hide TokenLower, MatchWord, NameState;
    var c := TokenLower(ch);
    StateOfU(w);
    StateOfU(w + [c]);
    PrefixGrows(w, c, "upgrade");
    if w < "upgrade" {
      MatchStep(w, c, "upgrade", MatchingUpgrade, Upgrade, General);
    }
  }

  lemma NextNameC(w: string, ch: char)
    requires |w| > 0 && IsToken(ch) && w[0] == 'c'
    ensures NextName(w, ch)
  {
    hide NextName;
    if |w| <= 3 {
      NextNameShortC(w, ch);
    } else if w <= "connection" {
      NextNameConnection(w, ch);
    } else {
      NextNameContent(w, ch);
    }
  }

  lemma NextNameShortC(w: string, ch: char)
    requires 0 < |w| <= 3 && IsToken(ch) && w[0] == 'c'
    ensures NextName(w, ch)
  {
    var c := TokenLower(ch);
    hide TokenLower;
    OtherStart(w, "proxy-connection", c);
    OtherStart(w, "transfer-encoding", c);
    OtherStart(w, "upgrade", c);
    PrefixGrows(w, c, "connection");
    PrefixGrows(w, c, "content-length");
    SharedStart(w);
  }

  lemma StateOfC(w: string)
    requires |w| > 3 && w[0] == 'c'
    ensures NameState(w) == if w == "connection" then Connection
                            else if w == "content-length" then ContentLength
                            else if w < "connection" then MatchingConnection
                            else if w < "content-length" then MatchingContentLength
                            else General
  {
    assert "proxy-connection"[0] == 'p' && "transfer-encoding"[0] == 't' && "upgrade"[0] == 'u';
  }

  lemma NextNameConnection(w: string, ch: char)
    requires |w| > 3 && IsToken(ch) && w[0] == 'c' && w <= "connection"
    ensures NextName(w, ch)
  {
    hide TokenLower, MatchWord, NameState;
    var c := TokenLower(ch);
    StateOfC(w);
    StateOfC(w + [c]);
    OtherFourth(w, "connection", "content-length", c);
    PrefixGrows(w, c, "connection");
    if w < "connection" {
      MatchStep(w, c, "connection", MatchingConnection, Connection, General);
    }
  }

  lemma NextNameContent(w: string, ch: char)
    requires |w| > 3 && IsToken(ch) && w[0] == 'c' && !(w <= "connection")
    ensures NextName(w, ch)
  {
    hide TokenLower, MatchWord, NameState;
    var c := TokenLower(ch);
    StateOfC(w);
    StateOfC(w + [c]);
    PrefixGrows(w, c, "connection");
    PrefixGrows(w, c, "content-length");
    if w < "content-length" {
      MatchStep(w, c, "content-length", MatchingContentLength, ContentLength, General);
    }
  }

  /** The two words agree on their first three letters. */
  lemma SharedStart(w: string)
    requires |w| <= 3
    ensures w <= "connection" <==> w <= "content-length"
  {}

  /** The states in which the recogniser no longer looks at its index. */
  predicate Settled(h: HeaderState) {
    h.General? || h.Connection? || h.ContentLength? || h.TransferEncoding? || h.Upgrade?
  }

  lemma NameStateShort(w: string)
    ensures !Settled(NameState(w)) ==> |w| <= 17
  {}

  lemma FieldByteSettled(h: HeaderState, index: nat, ch: char)
    requires IsToken(ch) && Settled(h)
    ensures FieldByte(h, index, ch) == (General, index)
  {}

  lemma FieldByteIndex(h: HeaderState, index: nat, ch: char)
    requires IsToken(ch) && index <= 17
    ensures !Settled(FieldByte(h, index, ch).0) ==> FieldByte(h, index, ch).1 == index + 1
  {
    hide TokenLower;
  }

  lemma NameStateNext(w: string, ch: char)
    requires |w| > 0 && IsToken(ch)
    ensures NextName(w, ch)
  {
    hide NextName;
    if w[0] == 'c' {
      NextNameC(w, ch);
    } else if w[0] == 'p' {
      NextNameP(w, ch);
    } else if w[0] == 't' {
      NextNameT(w, ch);
    } else if w[0] == 'u' {
      NextNameU(w, ch);
    } else {
      NextNameOther(w, ch);
    }
  }

  /** The parser inside a header name of which it has read `w`. */
  predicate ReadingName(c: Config, d: Config, w: string)
    requires AllTokens(w)
  {
    && d == Config(c.p.(state := HeaderField, headerState := NameState(LowerName(w)), index := d.p.index,
                        nread := c.p.nread + |w|),
                   Push(c.log, Data(HeaderFieldData, w)), c.used + |w|, false)
    && (!Settled(NameState(LowerName(w))) ==> d.p.index == |w| - 1)
  }

  /** A header name is recognised as special exactly when it is, in any case, one of the five names. */
  lemma {:induction false} RunName(c: Config, w: string)
    requires Live(c) && c.p.state.HeaderFieldStart? && AllTokens(w) && |w| > 0 && c.p.nread + |w| <= MAX_HEADER_SIZE
    ensures ReadingName(c, Run(c, w), w)
    decreases |w|
  {
    hide Step, NameState, Settled, FieldByte, Push;
    var n := |w| - 1;
    assert w == w[..n] + [w[n]];
    RunSnoc(c, w[..n], w[n]);
    var low := LowerName(w);
    if n == 0 {
      assert w[..0] == "" && w == [w[0]];
      assert low == [TokenLower(w[0])];
      FirstNameByte(TokenLower(w[0]));
      FieldStartStep(c, w[0]);
    } else {
      RunName(c, w[..n]);
      var d := Run(c, w[..n]);
      var before := LowerName(w[..n]);
      assert low == before + [TokenLower(w[n])];
      NameStateNext(before, w[n]);
      NameStateShort(before);
      FieldStep(d, w[n]);
      if Settled(NameState(before)) {
        FieldByteSettled(NameState(before), d.p.index, w[n]);
        FieldByteSettled(NameState(before), |before| - 1, w[n]);
      } else {
        FieldByteIndex(NameState(before), d.p.index, w[n]);
      }
      SettledGeneral();
      PushJoins(c.log, HeaderFieldData, w[..n], [w[n]]);
    }
  }

  lemma SettledGeneral()
    ensures Settled(General)
  {}

  lemma FieldStartStep(c: Config, ch: char)
    requires Live(c) && c.p.state.HeaderFieldStart? && IsToken(ch) && c.p.nread < MAX_HEADER_SIZE
    ensures Step(c, ch) == Config(c.p.(state := HeaderField, headerState := FirstFieldByte(TokenLower(ch)), index := 0,
                                       nread := c.p.nread + 1),
                                  Push(c.log, Data(HeaderFieldData, [ch])), c.used + 1, false)
  {
    hide FirstFieldByte, TokenLower;
    PushOne(c.log, Data(HeaderFieldData, [ch]));
    assert Dispatch(Count(c.p), ch) == DispatchHeaderName(Count(c.p), ch);
  }

  lemma FieldStep(c: Config, ch: char)
    requires Live(c) && c.p.state.HeaderField? && IsToken(ch) && c.p.nread < MAX_HEADER_SIZE
    ensures var (h, i) := FieldByte(c.p.headerState, c.p.index, ch);
            Step(c, ch) == Config(c.p.(headerState := h, index := i, nread := c.p.nread + 1),
                                  Push(c.log, Data(HeaderFieldData, [ch])), c.used + 1, false)
  {
    hide FieldByte;
    PushOne(c.log, Data(HeaderFieldData, [ch]));
    assert Dispatch(Count(c.p), ch) == DispatchHeaderName(Count(c.p), ch);
  }
}
