/** The characters and words of the two parsers by their codes and letters. */
module HttpCodes {
  import opened HttpSyntax
  import opened HttpMachine
  import opened HttpWords
  import opened UrlHost

  /** "A" to "Z" and "a" to "z". */
  predicate IsLetterCode(n: int) {
    65 <= n <= 90 || 97 <= n <= 122
  }

  /** "0" to "9". */
  predicate IsDigitCode(n: int) {
    48 <= n <= 57
  }

  lemma LettersAndDigits(c: char)
    ensures IsAlpha(c) <==> IsLetterCode(c as int)
    ensures IsNum(c) <==> IsDigitCode(c as int)
    ensures IsAlphaNum(c) <==> IsLetterCode(c as int) || IsDigitCode(c as int)
    ensures IsNum(c) ==> DigitValue(c) == c as int - 48
    ensures IsAlpha(c) ==> Lower(c) as int == if c as int <= 90 then c as int + 32 else c as int
  {}

  /** In a header name: letters, digits and ! # $ % & ' * + - . ^ _ ` | ~; letters are compared as small ones. */
  lemma TokenCharacters(c: char)
    ensures var n := c as int;
            IsToken(c) <==> IsLetterCode(n) || IsDigitCode(n) || n == 33 || 35 <= n <= 39 || n == 42 || n == 43 || n == 45 || n == 46 ||
                            94 <= n <= 96 || n == 124 || n == 126
    ensures IsToken(c) ==> TokenLower(c) as int == if 65 <= c as int <= 90 then c as int + 32 else c as int
  {}

  /** In a path: all visible characters but "#" and "?". In particular those that RFC 3986 allows in a segment, with "/":
      unreserved ones, "%" of an escape, and ! $ & ' ( ) * + , ; = : @. */
  lemma UrlCharacters(c: char)
    ensures var n := c as int;
            && (IsUrlChar(c) <==> 33 <= n <= 126 && n != 35 && n != 63)
            && ((IsLetterCode(n) || IsDigitCode(n) || n == 45 || n == 46 || n == 95 || n == 126 || n == 37 || n == 33 || n == 36 ||
                 38 <= n <= 44 || n == 59 || n == 61 || n == 58 || n == 64 || n == 47) ==> IsUrlChar(c))
  {}

  /** In userinfo: letters, digits, and ! $ % & ' ( ) * + , - . : ; = _ ~. */
  lemma UserinfoCharacters(c: char)
    ensures var n := c as int;
            IsUserinfoChar(c) <==> IsLetterCode(n) || IsDigitCode(n) || n == 33 || 36 <= n <= 46 || n == 58 || n == 59 || n == 61 ||
                                   n == 95 || n == 126
  {}

  /** In a host: letters, digits, "." and "-"; between brackets hexadecimal digits, ":" and "."; in a zone letters, digits,
      and % . - _ ~. */
  lemma HostCharacters(c: char)
    ensures var n := c as int;
            && (IsHostChar(c) <==> IsLetterCode(n) || IsDigitCode(n) || n == 45 || n == 46)
            && (IsV6Char(c) <==> IsDigitCode(n) || 65 <= n <= 70 || 97 <= n <= 102 || n == 58 || n == 46)
            && (IsZoneChar(c) <==> IsLetterCode(n) || IsDigitCode(n) || n == 37 || n == 46 || n == 45 || n == 95 || n == 126)
  {}

  /** In a header value: the tab, and everything from the space on but the delete character; and line ends, which the
      states around it look at first. */
  lemma ValueCharacters(c: char)
    ensures var n := c as int; IsHeaderChar(c) <==> n == 9 || n == 10 || n == 13 || (32 <= n && n != 127)
  {}

  /** In a chunk size: hexadecimal digits in either case, and bytes from 128 on, which count as 0. */
  lemma SizeCharacters(c: char)
    ensures var n := c as int;
            && (IsChunkDigit(c) <==> IsDigitCode(n) || 65 <= n <= 70 || 97 <= n <= 102 || n >= 128)
            && (IsChunkDigit(c) ==> ChunkDigit(c) == if n <= 57 then n - 48 else if n <= 70 then n - 55 else if n <= 102 then n - 87 else 0)
  {}

  /** The words for the methods: those of HTTP itself, */
  lemma PlainMethods()
    ensures MethodName(DELETE) == "DELETE" && MethodName(GET) == "GET" && MethodName(HEAD) == "HEAD" && MethodName(POST) == "POST"
    ensures MethodName(PUT) == "PUT" && MethodName(CONNECT) == "CONNECT" && MethodName(OPTIONS) == "OPTIONS" && MethodName(TRACE) == "TRACE"
    ensures MethodName(PATCH) == "PATCH"
  {}

  /** of WebDAV for resources, */
  lemma ResourceMethods()
    ensures MethodName(COPY) == "COPY" && MethodName(LOCK) == "LOCK" && MethodName(UNLOCK) == "UNLOCK" && MethodName(MKCOL) == "MKCOL"
    ensures MethodName(MOVE) == "MOVE" && MethodName(PROPFIND) == "PROPFIND" && MethodName(PROPPATCH) == "PROPPATCH"
  {}

  /** for bindings and access, */
  lemma BindingMethods()
    ensures MethodName(BIND) == "BIND" && MethodName(REBIND) == "REBIND" && MethodName(UNBIND) == "UNBIND" && MethodName(ACL) == "ACL"
    ensures MethodName(SEARCH) == "SEARCH" && MethodName(MKCALENDAR) == "MKCALENDAR"
  {}

  /** for versions and announcements, */
  lemma VersionMethods()
    ensures MethodName(REPORT) == "REPORT" && MethodName(MKACTIVITY) == "MKACTIVITY" && MethodName(CHECKOUT) == "CHECKOUT"
    ensures MethodName(MERGE) == "MERGE"
    ensures MethodName(MSEARCH) == "M-SEARCH" && MethodName(NOTIFY) == "NOTIFY"
  {}

  /** and the rest. */
  lemma OtherMethods()
    ensures MethodName(SUBSCRIBE) == "SUBSCRIBE" && MethodName(UNSUBSCRIBE) == "UNSUBSCRIBE" && MethodName(PURGE) == "PURGE"
    ensures MethodName(LINK) == "LINK"
    ensures MethodName(UNLINK) == "UNLINK" && MethodName(SOURCE) == "SOURCE"
  {}

  /** No two are the same. */
  lemma WordsDiffer(m: Method, n: Method)
    requires MethodName(m) == MethodName(n)
    ensures m == n
  {
    hide MethodName, Held;
    HeldExactly(MethodName(m), m);
    HeldExactly(MethodName(m), n);
  }
}
