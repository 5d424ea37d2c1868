/** The Connection header: which flags a list of tokens sets. */
module HttpConnection {
  import opened HttpSyntax
  import opened HttpMachine
  import opened HttpLog
  import opened HttpBulk
  import opened HttpWords
  import opened HttpMessages
  import opened HttpFields

  /** A token of the list, and how many spaces come before it. */
  datatype Item = Item(gap: nat, token: string)

  function LowerText(s: string): (low: string)
    ensures |low| == |s| && forall i :: 0 <= i < |s| ==> low[i] == Lower(s[i])
  {
    seq(|s|, i requires 0 <= i < |s| => Lower(s[i]))
  }

  predicate IsListToken(t: string) {
    |t| > 0 && AllTokens(t)
  }

  function Spaces(n: nat): (s: string)
    ensures |s| == n && forall i :: 0 <= i < n ==> s[i] == ' '
  {
    seq(n, _ => ' ')
  }

  /** The list as it is written. */
  function Text(items: seq<Item>): string
    decreases |items|
  {
    if |items| == 0 then ""
    else items[0].token + if |items| == 1 then "" else "," + (Spaces(items[1].gap) + Text(items[1..]))
  }

  /** The beginning of one of the three words that is not all of it. */
  predicate IsCut(low: string) {
    low < "keep-alive" || low < "close" || low < "upgrade"
  }

  function Marked(flags: Flags, low: string): Flags {
    if low == "keep-alive" then flags.(keepAlive := true)
    else if low == "close" then flags.(close := true)
    else if low == "upgrade" then flags.(connectionUpgrade := true)
    else flags
  }

  /** A token that the matcher does not take for the beginning of one. */
  predicate Underscored(t: string) {
    |t| > 0 && t[0] == '_'
  }

  /** The flags after a list, or after the items that follow its first one: a token is compared with the three
      words whatever its case; one that is the beginning of a word hides the token after it, since the comma
      between them is taken for a character that does not belong to the word; and one that begins with an
      underscore, unless it is the first, hides itself and all that follow. */
  function FlagsAfter(flags: Flags, items: seq<Item>, first: bool): Flags
    decreases |items|
  {
    if |items| == 0 || (!first && Underscored(items[0].token)) then flags
    else
      var low := LowerText(items[0].token);
      if IsCut(low) then (if |items| == 1 then flags else FlagsAfter(flags, items[2..], false))
      else FlagsAfter(Marked(flags, low), items[1..], false)
  }

  // ---------------------------------------------------------------- one token

  /** Where the matcher is after a token. */
  function AfterToken(low: string): HeaderState {
    if low == "keep-alive" then ConnectionKeepAlive
    else if low == "close" then ConnectionClose
    else if low == "upgrade" then ConnectionUpgrade
    else if low < "keep-alive" then MatchingConnectionKeepAlive
    else if low < "close" then MatchingConnectionClose
    else if low < "upgrade" then MatchingConnectionUpgrade
    else MatchingConnectionToken
  }

  /** The words begin with different letters. */
  lemma OneWordOnly(low: string)
    requires |low| > 0
    ensures low <= "keep-alive" ==> low[0] == 'k'
    ensures low <= "close" ==> low[0] == 'c'
    ensures low <= "upgrade" ==> low[0] == 'u'
  {
    assert "keep-alive"[0] == 'k' && "close"[0] == 'c' && "upgrade"[0] == 'u';
  }

  predicate AtToken(v: Value, low: string) {
    v.h == AfterToken(low) && v.errno.Ok? && (IsCut(low) ==> v.index == |low| - 1)
  }

  lemma CompleteStep(low: string, c: char, w: string)
    ensures low == w || !(low <= w) ==> !(low + [c] <= w)
  {
    PrefixGrows(low, c, w);
  }

  lemma WordStep(v: Value, low: string, ch: char)
    requires |low| > 0 && AtToken(v, low) && IsCut(low)
    ensures var r := NextValue(v, ch); AtToken(r, low + [Lower(ch)]) && r == v.(h := r.h, index := r.index)
  {
    hide Lower, MatchWord, FinishHeader, ContentLengthByte;
    var c := Lower(ch);
    OneWordOnly(low);
    OneWordOnly(low + [c]);
    assert (low + [c])[0] == low[0];
    if low < "keep-alive" {
      MatchStep(low, c, "keep-alive", v.h, ConnectionKeepAlive, MatchingConnectionToken);
    } else if low < "close" {
      MatchStep(low, c, "close", v.h, ConnectionClose, MatchingConnectionToken);
    } else {
      MatchStep(low, c, "upgrade", v.h, ConnectionUpgrade, MatchingConnectionToken);
    }
  }

  lemma OtherTokenStep(v: Value, low: string, ch: char)
    requires |low| > 0 && AtToken(v, low) && !IsCut(low) && ch != ',' && ch != ' '
    ensures var r := NextValue(v, ch); AtToken(r, low + [Lower(ch)]) && r == v.(h := r.h, index := r.index)
  {
    hide Lower, MatchWord, FinishHeader, ContentLengthByte;
    var c := Lower(ch);
    CompleteStep(low, c, "keep-alive");
    CompleteStep(low, c, "close");
    CompleteStep(low, c, "upgrade");
  }

  lemma TokenStep(v: Value, low: string, ch: char)
    requires |low| > 0 && AtToken(v, low) && ch != ',' && ch != ' '
    ensures var r := NextValue(v, ch); AtToken(r, low + [Lower(ch)]) && r == v.(h := r.h, index := r.index)
  {
    hide *;
    if IsCut(low) {
      WordStep(v, low, ch);
    } else {
      OtherTokenStep(v, low, ch);
    }
  }

  lemma FirstStep(v: Value, ch: char)
    requires v.h.MatchingConnectionTokenStart? && v.errno.Ok? && v.index == 0 && IsToken(ch) && ch != '_'
    ensures var r := NextValue(v, ch); AtToken(r, [Lower(ch)]) && r == v.(h := r.h, index := r.index)
  {
    var low := [Lower(ch)];
    OneWordOnly(low);
    assert "keep-alive"[..1] == "k" && "close"[..1] == "c" && "upgrade"[..1] == "u";
  }

  predicate TokenRest(s: string) {
    forall i :: 0 <= i < |s| ==> s[i] != ',' && s[i] != ' '
  }

  /** The rest of a token that has begun as `low`. */
  lemma {:induction false} TokenScans(v: Value, low: string, s: string) returns (r: Value)
    requires |low| > 0 && AtToken(v, low) && TokenRest(s)
    ensures Scans(v, s, r) && AtToken(r, low + LowerText(s)) && r == v.(h := r.h, index := r.index)
    decreases |s|
  {
    hide NextValue, AfterToken, IsCut;
    if |s| == 0 {
      r := v;
      assert low + LowerText(s) == low;
    } else {
      TokenStep(v, low, s[0]);
      r := TokenScans(NextValue(v, s[0]), low + [Lower(s[0])], s[1..]);
      assert low + [Lower(s[0])] + LowerText(s[1..]) == low + LowerText(s);
      AtTokenIsOk(v, low);
      AtTokenIsOk(NextValue(v, s[0]), low + [Lower(s[0])]);
    }
  }

  lemma AtTokenIsOk(v: Value, low: string)
    requires AtToken(v, low)
    ensures v.errno.Ok?
  {}

  /** Text that the matcher passes over until the next comma. */
  lemma {:induction false} PassedOver(v: Value, s: string)
    requires v.h.MatchingConnectionToken? && v.errno.Ok? && forall i :: 0 <= i < |s| ==> s[i] != ','
    ensures Scans(v, s, v)
    decreases |s|
  {
    if |s| > 0 {
      PassedOver(v, s[1..]);
    }
  }

  lemma {:induction false} SpacesSkipped(v: Value, s: string)
    requires v.h.MatchingConnectionTokenStart? && v.errno.Ok? && forall i :: 0 <= i < |s| ==> s[i] == ' '
    ensures Scans(v, s, v)
    decreases |s|
  {
    if |s| > 0 {
      assert Lower(s[0]) == ' ';
      SpacesSkipped(v, s[1..]);
    }
  }

  lemma OneScan(v: Value, ch: char, s: string, r: Value)
    requires NextValue(v, ch).errno.Ok? && Scans(NextValue(v, ch), s, r)
    ensures Scans(v, [ch] + s, r)
  {
    hide NextValue;
    assert ([ch] + s)[1..] == s;
  }

  // ---------------------------------------------------------------- the list

  predicate IsList(items: seq<Item>) {
    |items| > 0 && forall i :: 0 <= i < |items| ==> IsListToken(items[i].token)
  }

  /** What a value that has been read leaves in the flags. */
  predicate Leaves(r: Value, flags: Flags) {
    r.errno.Ok? && FinishHeader(r.h, r.flags) == flags
  }

  /** What the comma after a token does. */
  lemma CommaStep(v: Value, low: string)
    requires |low| > 0 && AtToken(v, low)
    ensures var r := NextValue(v, ',');
            && r.errno.Ok? && r.length == v.length
            && (IsCut(low) ==> r.h.MatchingConnectionToken? && r.flags == v.flags)
            && (!IsCut(low) ==> r.h.MatchingConnectionTokenStart? && r.index == 0 && r.flags == Marked(v.flags, low))
  {
    OneWordOnly(low);
    PrefixGrows(low, Lower(','), "keep-alive");
    PrefixGrows(low, Lower(','), "close");
    PrefixGrows(low, Lower(','), "upgrade");
    assert forall i :: 0 <= i < 10 ==> "keep-alive"[i] != ',';
    assert forall i :: 0 <= i < 5 ==> "close"[i] != ',';
    assert forall i :: 0 <= i < 7 ==> "upgrade"[i] != ',';
  }

  lemma LastToken(v: Value, low: string)
    requires |low| > 0 && AtToken(v, low)
    ensures Leaves(v, if IsCut(low) then v.flags else Marked(v.flags, low))
  {
    OneWordOnly(low);
  }

  /** The matcher at the beginning of an item. */
  lemma {:induction false} ListScans(v: Value, items: seq<Item>) returns (r: Value)
    requires v.h.MatchingConnectionTokenStart? && v.errno.Ok? && v.index == 0 && IsList(items)
    ensures Scans(v, Text(items), r) && Leaves(r, FlagsAfter(v.flags, items, false)) && r.length == v.length
    decreases |items|, 1
  {
    hide NextValue, AtToken, IsCut, Marked, Leaves, Scans;
    var t := items[0].token;
    if Underscored(t) {
      r := UnderscoreHides(v, Text(items));
    } else {
      FirstIs(v, t);
      r := ListGoesOn(NextValue(v, t[0]), items, v.flags);
      assert Text(items) == [t[0]] + Text(items)[1..];
      OneScan(v, t[0], Text(items)[1..], r);
    }
  }

  lemma FirstIs(v: Value, t: string)
    requires v.h.MatchingConnectionTokenStart? && v.errno.Ok? && v.index == 0 && IsListToken(t) && t[0] != '_'
    ensures var r := NextValue(v, t[0]); AtToken(r, [Lower(t[0])]) && r == v.(h := r.h, index := r.index)
  {
    hide NextValue, AtToken;
    FirstStep(v, t[0]);
  }

  lemma UnderscoreHides(v: Value, s: string) returns (r: Value)
    requires v.h.MatchingConnectionTokenStart? && v.errno.Ok? && |s| > 0 && s[0] == '_'
    ensures Scans(v, s, r) && Leaves(r, v.flags) && r.length == v.length
  {
    r := NextValue(v, '_');
    assert r == v.(h := General);
    ScansGeneral(r, s[1..]);
    assert s == [s[0]] + s[1..];
    hide NextValue;
    OneScan(v, s[0], s[1..], r);
  }

  /** The matcher after the first character of an item. */
  lemma {:induction false} ListGoesOn(v: Value, items: seq<Item>, flags: Flags) returns (r: Value)
    requires IsList(items) && v.flags == flags
    requires AtToken(v, [Lower(items[0].token[0])])
    ensures Scans(v, Text(items)[1..], r) && Leaves(r, FlagsAfter(flags, items, true)) && r.length == v.length
    decreases |items|, 0
  {
    hide NextValue, AtToken, IsCut, Marked, Leaves, Scans, AllTokens;
    var t := items[0].token;
    var low := LowerText(t);
    TokenIsRest(t);
    var q := TokenScans(v, [Lower(t[0])], t[1..]);
    assert [Lower(t[0])] + LowerText(t[1..]) == low;
    LastToken(q, low);
    if |items| == 1 {
      assert Text(items)[1..] == t[1..];
      r := q;
      assert items[1..] == [];
    } else {
      CommaStep(q, low);
      var rest := Spaces(items[1].gap) + Text(items[1..]);
      var p := NextValue(q, ',');
      if IsCut(low) {
        r := HiddenItem(p, items[1].gap, items[1..]);
        assert items[1..][1..] == items[2..];
      } else {
        SpacesSkipped(p, Spaces(items[1].gap));
        r := ListScans(p, items[1..]);
        ScansAppend(p, Spaces(items[1].gap), p, Text(items[1..]), r);
      }
      OneScan(q, ',', rest, r);
      ScansAppend(v, t[1..], q, [','] + rest, r);
      assert Text(items)[1..] == t[1..] + ([','] + rest);
    }
  }

  lemma TokenIsRest(t: string)
    requires IsListToken(t)
    ensures TokenRest(t) && TokenRest(t[1..])
  {}

  /** An item that is passed over, and those after it. */
  lemma {:induction false} HiddenItem(v: Value, gap: nat, items: seq<Item>) returns (r: Value)
    requires v.h.MatchingConnectionToken? && v.errno.Ok? && IsList(items)
    ensures Scans(v, Spaces(gap) + Text(items), r) && Leaves(r, FlagsAfter(v.flags, items[1..], false)) && r.length == v.length
    decreases |items|, 0
  {
    hide Marked, IsCut, Scans;
    var t := items[0].token;
    TokenIsRest(t);
    PassedOver(v, Spaces(gap) + t);
    if |items| == 1 {
      assert Spaces(gap) + Text(items) == Spaces(gap) + t;
      r := v;
    } else {
      var p := NextValue(v, ',');
      var rest := Spaces(items[1].gap) + Text(items[1..]);
      SpacesSkipped(p, Spaces(items[1].gap));
      r := ListScans(p, items[1..]);
      ScansAppend(p, Spaces(items[1].gap), p, Text(items[1..]), r);
      OneScan(v, ',', rest, r);
      ScansAppend(v, Spaces(gap) + t, v, [','] + rest, r);
      assert Spaces(gap) + Text(items) == Spaces(gap) + t + ([','] + rest);
    }
  }

  // ---------------------------------------------------------------- the header line

  /** The two names, in any case. */
  predicate IsConnectionName(name: string) {
    IsName(name) && (LowerName(name) == "connection" || LowerName(name) == "proxy-connection")
  }

  lemma ConnectionName(name: string)
    requires IsConnectionName(name)
    ensures NameState(LowerName(name)) == Connection
  {}

  lemma StartStep(v: Value, ch: char)
    requires v.h.Connection? && v.errno.Ok? && IsToken(ch)
    ensures var r := StartValue(v, ch); AtToken(r, [Lower(ch)]) && r.flags == v.flags && r.length == v.length
  {
    var low := [Lower(ch)];
    OneWordOnly(low);
    assert "keep-alive"[..1] == "k" && "close"[..1] == "c" && "upgrade"[..1] == "u";
  }

  lemma {:induction false} TextIsValue(items: seq<Item>)
    requires IsList(items)
    ensures IsValue(Text(items)) && Text(items)[0] == items[0].token[0]
    decreases |items|
  {
    var t := items[0].token;
    TokenChars(t);
    if |items| > 1 {
      TextIsValue(items[1..]);
    }
  }

  lemma TokenChars(t: string)
    requires IsListToken(t)
    ensures IsValue(t)
  {}

  /** A Connection line sets exactly the flags of its list. */
  lemma ConnectionLine(c: Config, name: string, items: seq<Item>)
    requires Live(c) && c.p.state.HeaderFieldStart? && IsConnectionName(name) && IsList(items)
    requires c.p.nread + |HeaderLine(name, Text(items))| <= MAX_HEADER_SIZE
    ensures var line := HeaderLine(name, Text(items)); var d := Run(c, line);
            && HeadFrame(c, d, |line|, [Data(HeaderFieldData, name), Data(HeaderValueData, Text(items))])
            && Settle(d).p.flags == FlagsAfter(c.p.flags, items, true) && Settle(d).p.contentLength == c.p.contentLength
  {
    hide Run, Scans, PushAll, NameState, FlagsAfter, Text, AtToken, NextValue, StartValue, IsValue, IsList, AllTokens, LowerName;
    ConnectionName(name);
    FirstIsToken(items);
    TextIsValue(items);
    var value := Text(items);
    var v := Value(Connection, 0, c.p.flags, c.p.contentLength, Ok);
    StartStep(v, value[0]);
    AtTokenIsOk(StartValue(v, value[0]), [Lower(value[0])]);
    var r := ListGoesOn(StartValue(v, value[0]), items, c.p.flags);
    RunHeaderLine(c, name, value, r);
  }

  lemma FirstIsToken(items: seq<Item>)
    requires IsList(items)
    ensures |items| > 0 && |items[0].token| > 0 && IsToken(items[0].token[0])
  {}

  /** A list leaves the other flags alone. */
  predicate OnlyConnection(flags: Flags, r: Flags) {
    r == flags.(keepAlive := r.keepAlive, close := r.close, connectionUpgrade := r.connectionUpgrade)
  }

  lemma {:induction false} OtherFlagsStay(flags: Flags, items: seq<Item>, first: bool)
    ensures OnlyConnection(flags, FlagsAfter(flags, items, first))
    decreases |items|
  {
    hide LowerText, IsCut, Marked, Underscored;
    if |items| > 0 && (first || !Underscored(items[0].token)) {
      var low := LowerText(items[0].token);
      if !IsCut(low) {
        MarkedIs(flags, low);
        OtherFlagsStay(Marked(flags, low), items[1..], false);
      } else if |items| > 1 {
        OtherFlagsStay(flags, items[2..], false);
      }
    }
  }

  // ---------------------------------------------------------------- lists that hide nothing

  predicate Lists(items: seq<Item>, word: string) {
    exists i :: 0 <= i < |items| && LowerText(items[i].token) == word
  }

  /** No token is the beginning of a word or begins with an underscore. */
  predicate HidesNothing(items: seq<Item>) {
    forall i :: 0 <= i < |items| ==> !IsCut(LowerText(items[i].token)) && !Underscored(items[i].token)
  }

  /** Each flag is set exactly if it was or its word is listed; the others are as they were. */
  predicate SetBy(flags: Flags, items: seq<Item>, r: Flags) {
    && OnlyConnection(flags, r)
    && (r.keepAlive <==> flags.keepAlive || Lists(items, "keep-alive"))
    && (r.close <==> flags.close || Lists(items, "close"))
    && (r.connectionUpgrade <==> flags.connectionUpgrade || Lists(items, "upgrade"))
  }

  /** The items that are compared with the words. */
  function Seen(items: seq<Item>, first: bool): seq<Item>
    decreases |items|
  {
    if |items| == 0 || (!first && Underscored(items[0].token)) then []
    else [items[0]] +
         if IsCut(LowerText(items[0].token)) then (if |items| == 1 then [] else Seen(items[2..], false)) else Seen(items[1..], false)
  }

  /** A list sets each flag exactly if its word is among them. */
  lemma {:induction false} SeenExact(flags: Flags, items: seq<Item>, first: bool)
    ensures SetBy(flags, Seen(items, first), FlagsAfter(flags, items, first))
    decreases |items|
  {
    hide LowerText, IsCut, SetBy, Marked, Underscored;
    if |items| == 0 || (!first && Underscored(items[0].token)) {
      NoneListed(flags, []);
    } else {
      var low := LowerText(items[0].token);
      var rest := if IsCut(low) then (if |items| == 1 then [] else items[2..]) else items[1..];
      var after := if IsCut(low) then flags else Marked(flags, low);
      if IsCut(low) {
        CutMarksNothing(flags, low);
      }
      if IsCut(low) && |items| == 1 {
        NoneListed(after, []);
      } else {
        SeenExact(after, rest, false);
      }
      var seen := Seen(items, first);
      assert seen[1..] == if IsCut(low) && |items| == 1 then [] else Seen(rest, false);
      SetByNext(flags, seen, FlagsAfter(flags, items, first));
    }
  }

  lemma CutMarksNothing(flags: Flags, low: string)
    requires IsCut(low)
    ensures Marked(flags, low) == flags
  {
    if |low| > 0 {
      OneWordOnly(low);
    }
    assert |"keep-alive"| == 10 && |"close"| == 5 && |"upgrade"| == 7;
  }

  /** No listed word is hidden, unless its flag was set before. */
  predicate HidesNoWord(flags: Flags, items: seq<Item>, first: bool) {
    var seen := Seen(items, first);
    && (Lists(items, "keep-alive") ==> flags.keepAlive || Lists(seen, "keep-alive"))
    && (Lists(items, "close") ==> flags.close || Lists(seen, "close"))
    && (Lists(items, "upgrade") ==> flags.connectionUpgrade || Lists(seen, "upgrade"))
  }

  /** A list sets each flag exactly if its word is listed, exactly when no listed word is hidden. */
  lemma FlagsExact(flags: Flags, items: seq<Item>, first: bool)
    ensures SetBy(flags, items, FlagsAfter(flags, items, first)) <==> HidesNoWord(flags, items, first)
  {
    hide Lists, FlagsAfter, Seen, OnlyConnection;
    SeenExact(flags, items, first);
    SeenAreListed(items, first, "keep-alive");
    SeenAreListed(items, first, "close");
    SeenAreListed(items, first, "upgrade");
  }

  lemma {:induction false} SeenAreListed(items: seq<Item>, first: bool, word: string)
    ensures Lists(Seen(items, first), word) ==> Lists(items, word)
    decreases |items|
  {
    hide LowerText, IsCut, Underscored, Lists;
    if |items| == 0 || (!first && Underscored(items[0].token)) {
      NoneIn(word);
    } else {
      var seen := Seen(items, first);
      ListsNext(items, word);
      ListsNext(seen, word);
      if !IsCut(LowerText(items[0].token)) {
        assert seen[1..] == Seen(items[1..], false);
        SeenAreListed(items[1..], false, word);
      } else if |items| == 1 {
        assert seen[1..] == [];
        NoneIn(word);
      } else {
        assert seen[1..] == Seen(items[2..], false) && items[1..][1..] == items[2..];
        SeenAreListed(items[2..], false, word);
        ListsNext(items[1..], word);
      }
    }
  }

  lemma NoneIn(word: string)
    ensures !Lists([], word)
  {}

  /** What a caller can see to: a list in which no token is the beginning of a word or begins with an underscore. */
  lemma {:induction false} NothingHidden(items: seq<Item>, first: bool)
    requires HidesNothing(items)
    ensures Seen(items, first) == items
    decreases |items|
  {
    hide LowerText, IsCut, Underscored;
    if |items| > 0 {
      NothingHidden(items[1..], false);
    }
  }

  lemma NoneListed(flags: Flags, items: seq<Item>)
    requires |items| == 0
    ensures SetBy(flags, items, flags)
  {}

  lemma SetByNext(flags: Flags, items: seq<Item>, r: Flags)
    requires |items| > 0 && SetBy(Marked(flags, LowerText(items[0].token)), items[1..], r)
    ensures SetBy(flags, items, r)
  {
    hide LowerText, Lists, Marked;
    ListsNext(items, "keep-alive");
    ListsNext(items, "close");
    ListsNext(items, "upgrade");
    MarkedIs(flags, LowerText(items[0].token));
  }

  lemma MarkedIs(flags: Flags, low: string)
    ensures var m := Marked(flags, low);
            && m == flags.(keepAlive := m.keepAlive, close := m.close, connectionUpgrade := m.connectionUpgrade)
            && (m.keepAlive <==> flags.keepAlive || low == "keep-alive")
            && (m.close <==> flags.close || low == "close")
            && (m.connectionUpgrade <==> flags.connectionUpgrade || low == "upgrade")
  {}

  lemma ListsNext(items: seq<Item>, word: string)
    requires |items| > 0
    ensures Lists(items, word) <==> LowerText(items[0].token) == word || Lists(items[1..], word)
  {
    hide LowerText;
    if i :| 0 <= i < |items| && LowerText(items[i].token) == word {
      assert i > 0 ==> items[1..][i - 1] == items[i];
    }
    if i :| 0 <= i < |items[1..]| && LowerText(items[1..][i].token) == word {
      assert items[i + 1] == items[1..][i];
    }
  }

  /** A list that names the word and does not set the flag. */
  lemma CutHides()
    ensures var items := [Item(0, "keep"), Item(0, "close")];
            Text(items) == "keep,close" && Lists(items, "close") && !FlagsAfter(NO_FLAGS, items, true).close
  {
    var items := [Item(0, "keep"), Item(0, "close")];
    assert LowerText("keep") == "keep" && LowerText("close") == "close";
    assert "keep-alive"[..4] == "keep";
    assert items[1..] == [Item(0, "close")] && items[2..] == [];
    assert LowerText(items[1].token) == "close";
    assert Spaces(0) == "";
  }
}
