/**
 The first line of a message, written and read back.
 */
module HttpStart {
  import opened Wrappers
  import opened HttpText
  import opened HttpDecoder
  import opened HttpEncoder

  // ---------------------------------------------------------------- status codes

  lemma AtoiDigits(ds: string, rest: string)
    requires ds != "" && forall i :: 0 <= i < |ds| ==> IsDigit(ds[i], DECIMAL)
    requires rest == "" || !IsDigit(rest[0], DECIMAL)
    requires Value(ds, DECIMAL) < 0x8000_0000
    ensures Atoi(ds + rest) == Value(ds, DECIMAL)
  {
    hide Value, SkipSpaces, DigitRun;
    DigitsFirst(ds + rest, DECIMAL);
    DigitRunAppend(ds, rest, DECIMAL);
    assert (ds + rest)[..|ds|] == ds;
  }

  lemma ToIntSame(n: int)
    requires -0x8000_0000 <= n < 0x8000_0000
    ensures ToInt(n) == n
  {
  }

  lemma AtoiMinus(t: string, v: nat)
    requires v < 0x8000_0000 && Value(t[..DigitRun(t, DECIMAL)], DECIMAL) == v
    ensures Atoi("-" + t) + v == 0
  {
    hide Value, SkipSpaces, DigitRun, ToInt;
    var u := "-" + t;
    assert u[1..] == t;
    MinusFirst(u);
    ToIntSame(0 - v);
  }

  lemma AtoiMinusDigits(ds: string, rest: string)
    requires ds != "" && forall i :: 0 <= i < |ds| ==> IsDigit(ds[i], DECIMAL)
    requires rest == "" || !IsDigit(rest[0], DECIMAL)
    requires Value(ds, DECIMAL) < 0x8000_0000
    ensures Atoi("-" + ds + rest) + Value(ds, DECIMAL) == 0
  {
    hide Value, Atoi, DigitRun;
    DigitRunAppend(ds, rest, DECIMAL);
    assert (ds + rest)[..|ds|] == ds;
    AtoiMinus(ds + rest, Value(ds, DECIMAL));
    assert "-" + ds + rest == "-" + (ds + rest);
  }

  lemma MinusFirst(t: string)
    requires t != "" && t[0] == '-'
    ensures SkipSpaces(t) == t
  {
  }

  /** The first digits of a number are a smaller number. */
  lemma {:induction false} FirstDigits(n: nat, k: nat)
    requires 0 < k < |Print(n, DECIMAL)|
    ensures Value(Print(n, DECIMAL)[..k], DECIMAL) < n
  {
    var p, q := Print(n, DECIMAL), Print(n / 10, DECIMAL);
    ValuePrint(n / 10, DECIMAL);
    assert p == q + [DigitChar(n % 10)];
    if k == |q| {
      assert p[..k] == q;
    } else {
      assert p[..k] == q[..k];
      FirstDigits(n / 10, k);
    }
  }

  lemma {:induction false} PrintLength(n: nat, k: nat)
    requires 1 <= k && n < Power10(k)
    ensures |Print(n, DECIMAL)| <= k
  {
    if n >= 10 {
      assert Power10(k) == 10 * Power10(k - 1);
      PrintLength(n / 10, k - 1);
    }
  }

  function Power10(k: nat): nat {
    if k == 0 then 1 else 10 * Power10(k - 1)
  }

  /** A code printed in at most six characters. */
  predicate Short(code: int) {
    |PrintInt(code)| <= 6
  }

  lemma ShortCodes(code: int)
    requires 0 <= code < 1000000
    ensures Short(code)
  {
    assert Power10(6) == 1000000;
    PrintLength(code, 6);
  }

  lemma IntScanned(n: int, rest: string)
    requires -0x8000_0000 < n < 0x8000_0000 && (rest == "" || !IsDigit(rest[0], DECIMAL))
    ensures Atoi(PrintInt(n) + rest) == n
  {
    hide Atoi, Print, Value;
    var m: nat := if n < 0 then -n else n;
    ValuePrint(m, DECIMAL);
    PrintShape(m, DECIMAL);
    AtoiDigits(Print(m, DECIMAL), rest);
    AtoiMinusDigits(Print(m, DECIMAL), rest);
  }

  lemma CutScanned(n: int, rest: string)
    requires -0x8000_0000 < n < 0x8000_0000 && rest != "" && !IsDigit(rest[0], DECIMAL) && !Short(n)
    ensures Atoi(PrintInt(n)[..6] + rest) != n
  {
    hide Atoi, Print, Value;
    var m: nat := if n < 0 then -n else n;
    var k := if n < 0 then 5 else 6;
    var ds := Print(m, DECIMAL);
    PrintShape(m, DECIMAL);
    FirstDigits(m, k);
    AtoiDigits(ds[..k], rest);
    AtoiMinusDigits(ds[..k], rest);
    if n < 0 {
      assert PrintInt(n)[..6] == "-" + ds[..5];
    }
  }

  /** A status code is read back exactly when it is printed in at most six characters. */
  lemma StatusCode(code: int, rest: string)
    requires -0x8000_0000 < code < 0x8000_0000
    ensures Atoi(GetStatus(code) + CRLF + rest) == code <==> Short(code)
  {
    hide Atoi, PrintInt;
    var p := PrintInt(code);
    if Reason(code) != "" {
      ReasonCodes(code);
      ShortCodes(code);
      var more := " " + Reason(code) + CRLF + rest;
      assert GetStatus(code) + CRLF + rest == p + more;
      IntScanned(code, more);
    } else {
      UnknownCode(code, rest);
    }
  }

  lemma UnknownCode(code: int, rest: string)
    requires -0x8000_0000 < code < 0x8000_0000 && Reason(code) == ""
    ensures Atoi(GetStatus(code) + CRLF + rest) == code <==> Short(code)
  {
    hide Atoi, PrintInt;
    var p, text := PrintInt(code), " Unknow Code";
    if Short(code) {
      var more := text[..6 - |p|] + CRLF + rest;
      assert (p + text)[..6] == p + text[..6 - |p|];
      assert GetStatus(code) + CRLF + rest == p + more;
      IntScanned(code, more);
    } else {
      assert (p + text)[..6] == p[..6];
      assert GetStatus(code) + CRLF + rest == p[..6] + (CRLF + rest);
      CutScanned(code, CRLF + rest);
    }
  }

  lemma ReasonCodes(code: int)
    requires Reason(code) != ""
    ensures 0 <= code < 1000000
  {
  }

  lemma PlainStatus(code: int)
    ensures Plain(GetStatus(code))
  {
    hide Print;
    PrintShape(if code < 0 then -code else code, DECIMAL);
    PlainReason(code);
  }

  lemma PlainReason(code: int)
    ensures Plain(Reason(code))
  {
    if code < 300 {
      PlainReason200(code);
    } else if code < 400 {
      PlainReason300(code);
    } else if code < 500 {
      PlainReason400(code);
    } else if code < 503 {
      PlainReason500(code);
    } else {
      PlainReason503(code);
    }
  }

  lemma PlainReason200(code: int)
    requires code < 300
    ensures Plain(Reason(code))
  {
  }

  lemma PlainReason300(code: int)
    requires 300 <= code < 400
    ensures Plain(Reason(code))
  {
  }

  lemma PlainReason400(code: int)
    requires 400 <= code < 500
    ensures Plain(Reason(code))
  {
  }

  lemma PlainReason500(code: int)
    requires 500 <= code < 503
    ensures Plain(Reason(code))
  {
  }

  lemma PlainReason503(code: int)
    requires 503 <= code
    ensures Plain(Reason(code))
  {
  }

  // ---------------------------------------------------------------- the status line

  lemma NotBegins(s: string, word: string, i: nat)
    requires i < |word| && i < |s| && Lower(s[i]) != word[i]
    ensures !Begins(s, word)
  {
  }

  lemma BeginsWith(s: string, word: string)
    requires |word| <= |s| && forall i :: 0 <= i < |word| ==> Lower(s[i]) == word[i]
    ensures Begins(s, word)
  {
  }

  /** A response does not look like a request. */
  lemma NoVerb(s: string)
    requires |s| >= 5 && s[..5] == "HTTP/"
    ensures VerbLength(s) == 0 && Begins(s, "http/")
  {
    hide Begins;
    assert s[0] == s[..5][0] && s[1] == s[..5][1];
    NotBegins(s, "get", 0);
    NotBegins(s, "post", 0);
    NotBegins(s, "head", 1);
    NotBegins(s, "trace", 0);
    NotBegins(s, "put", 0);
    NotBegins(s, "delete", 0);
    NotBegins(s, "options", 0);
    NotBegins(s, "connect", 0);
    assert forall i :: 0 <= i < 5 ==> s[i] == s[..5][i];
    BeginsWith(s, "http/");
  }

  lemma VersionRead(m: Message, v: Version, s: string)
    requires |s| >= 3 && s[..3] == VersionText(v)[5..]
    ensures WithVersion(m, s) == Some(m.(version := v, keepalive := v == HTTP_1_1))
  {
    hide Begins;
    assert s[0] == s[..3][0] && s[1] == s[..3][1] && s[2] == s[..3][2];
    if v == HTTP_1_1 {
      BeginsWith(s, "1.1");
    } else {
      NotBegins(s, "1.1", 2);
      BeginsWith(s, "1.0");
    }
  }

  lemma PlainVersion(v: Version)
    ensures Plain(VersionText(v))
  {
  }

  function StatusText(v: Version, status: string): string {
    VersionText(v) + " " + status + CRLF
  }

  lemma StatusLineRead(v: Version, status: string, rest: string, len: nat)
    requires Plain(status)
    requires 16 <= len <= |StatusText(v, status) + rest| && |StatusText(v, status)| <= len
    ensures StartLine(StatusText(v, status) + rest, len)
         == Start(BLANK.(response := true, version := v, keepalive := v == HTTP_1_1,
                          code := Atoi(status + CRLF + rest)),
                  |StatusText(v, status)|)
  {
    hide Atoi, FindCrLf, VerbLength, WithVersion, Begins;
    var s := StatusText(v, status) + rest;
    var line := VersionText(v) + " " + status;
    assert s == line + CRLF + rest;
    NoVerb(s);
    assert s[5..][..3] == VersionText(v)[5..];
    VersionRead(BLANK.(response := true), v, s[5..]);
    assert s[8] == ' ';
    assert s[1..] == line[1..] + CRLF + rest;
    PlainVersion(v);
    assert Plain(line);
    FindCrLfAfter(line[1..], rest);
    assert s[9..] == status + CRLF + rest;
  }

  // ---------------------------------------------------------------- the request line

  const VERBS := ["get", "post", "head", "trace", "put", "delete", "options", "connect"]

  predicate KnownVerb(verb: string) {
    LowerAll(verb) in VERBS
  }

  lemma VerbRead(verb: string, rest: string)
    requires KnownVerb(verb)
    ensures VerbLength(verb + rest) == |verb|
  {
    var s, w := verb + rest, LowerAll(verb);
    hide LowerAll;
    var k :| 0 <= k < |VERBS| && VERBS[k] == w;
    VerbBegins(verb, rest, w);
    hide Begins;
    if w == "get" {
    } else if w == "post" {
      NotBegins(s, "get", 0);
    } else if w == "head" {
      NotBegins(s, "get", 0);
      NotBegins(s, "post", 0);
    } else if w == "trace" {
      NotBegins(s, "get", 0);
      NotBegins(s, "post", 0);
      NotBegins(s, "head", 0);
    } else if w == "put" {
      NotBegins(s, "get", 0);
      NotBegins(s, "post", 1);
      NotBegins(s, "head", 0);
      NotBegins(s, "trace", 0);
    } else if w == "delete" {
      NotBegins(s, "get", 0);
      NotBegins(s, "post", 0);
      NotBegins(s, "head", 0);
      NotBegins(s, "trace", 0);
      NotBegins(s, "put", 0);
    } else if w == "options" {
      NotBegins(s, "get", 0);
      NotBegins(s, "post", 0);
      NotBegins(s, "head", 0);
      NotBegins(s, "trace", 0);
      NotBegins(s, "put", 0);
      NotBegins(s, "delete", 0);
    } else {
      NotBegins(s, "get", 0);
      NotBegins(s, "post", 0);
      NotBegins(s, "head", 0);
      NotBegins(s, "trace", 0);
      NotBegins(s, "put", 0);
      NotBegins(s, "delete", 0);
      NotBegins(s, "options", 0);
    }
  }

  lemma VerbBegins(verb: string, rest: string, w: string)
    requires w == LowerAll(verb)
    ensures Begins(verb + rest, w) && |w| == |verb|
    ensures forall i :: 0 <= i < |w| ==> Lower((verb + rest)[i]) == w[i]
  {
    assert (verb + rest)[..|verb|] == verb;
  }

  function RequestText(verb: string, path: string, v: Version): string {
    verb + " " + path + " " + VersionText(v) + CRLF
  }

  /** The first `len` characters of memory are those of a text, as far as it goes; what is behind them is left over. */
  predicate Received(s: string, len: nat, text: string) {
    var n := if len < |text| then len else |text|;
    n <= |s| && s[..n] == text[..n]
  }

  /**
   The request line is read once all of it but its line end has arrived, whatever is in memory behind it; before that it
   is taken for an error.
   */
  lemma RequestLineRead(verb: string, path: string, v: Version, s: string, len: nat)
    requires KnownVerb(verb) && NUL !in path && ' ' !in path
    requires 16 <= len <= |s| && Received(s, len, RequestText(verb, path, v))
    ensures StartLine(s, len)
         == if |RequestText(verb, path, v)| - 2 < len
            then Start(BLANK.(verb := verb, url := path, version := v, keepalive := v == HTTP_1_1),
                       |RequestText(verb, path, v)|)
            else NoStart
  {
    hide VerbLength, WithVersion, FindChar, KnownVerb, RequestText, Received;
    var end := |verb| + 1 + |path|;
    VerbShort(verb);
    ReceivedParts(verb, path, v, s, len);
    VerbRead(verb, s[|verb|..]);
    assert verb + s[|verb|..] == s;
    if len <= end {
      FindCharLater(path[..len - |verb| - 1], ' ', s[len..]);
      assert s[|verb| + 1..] == path[..len - |verb| - 1] + s[len..];
    } else {
      FindCharAfter(path, ' ', s[end + 1..]);
      assert s[|verb| + 1..] == path + [' '] + s[end + 1..];
      if end + 9 < len {
        VersionRead(BLANK.(verb := verb, url := path), v, s[end + 6..]);
      }
    }
  }

  lemma ReceivedParts(verb: string, path: string, v: Version, s: string, len: nat)
    requires |verb| < 16 <= len <= |s| && Received(s, len, RequestText(verb, path, v))
    ensures var end := |verb| + 1 + |path|;
            && |RequestText(verb, path, v)| == end + 11 && s[..|verb|] == verb
            && (len <= end ==> len > |verb| && s[|verb| + 1..len] == path[..len - |verb| - 1])
            && (end < len ==> s[|verb| + 1..end] == path && s[end] == ' ')
            && (end + 9 < len ==> s[end + 6..][..3] == VersionText(v)[5..])
  {
    var text, end := RequestText(verb, path, v), |verb| + 1 + |path|;
    TextParts(verb, path, v);
    hide RequestText;
    SameSlice(s, text, len, 0, |verb|);
    if len <= end {
      SameSlice(s, text, len, |verb| + 1, len);
      SliceFront(text, |verb| + 1, len, end);
    } else {
      SameSlice(s, text, len, |verb| + 1, end);
      SameSlice(s, text, len, end, end + 1);
      assert s[end..end + 1][0] == s[end];
    }
    if end + 9 < len {
      SameSlice(s, text, len, end + 6, end + 9);
    }
  }

  lemma SameSlice(s: string, text: string, len: nat, i: nat, j: nat)
    requires Received(s, len, text) && i <= j <= len && j <= |text| && len <= |s|
    ensures s[i..j] == text[i..j]
  {
    var n := if len < |text| then len else |text|;
    assert s[i..j] == s[..n][i..j];
  }

  lemma SliceFront(text: string, i: nat, j: nat, k: nat)
    requires i <= j <= k <= |text|
    ensures text[i..j] == text[i..k][..j - i]
  {
  }

  lemma TextParts(verb: string, path: string, v: Version)
    ensures var text, end := RequestText(verb, path, v), |verb| + 1 + |path|;
            && |text| == end + 11 && text[..|verb|] == verb && text[|verb| + 1..end] == path && text[end] == ' '
            && text[end + 6..end + 9] == VersionText(v)[5..]
  {
  }

  lemma {:induction false} FindCharLater(a: string, c: char, b: string)
    requires NUL !in a && c !in a
    ensures FindChar(a + b, c) >= |a|
  {
    if a != "" {
      assert (a + b)[1..] == a[1..] + b;
      FindCharLater(a[1..], c, b);
    }
  }

  lemma VerbShort(verb: string)
    requires KnownVerb(verb)
    ensures 0 < |verb| < 16
  {
    var k :| 0 <= k < |VERBS| && VERBS[k] == LowerAll(verb);
    assert 0 < |VERBS[k]| < 16;
  }

  /**
   While a request line is still arriving, the decoder does not wait for the rest: it calls the message illegal, from
   the sixteenth character on, exactly until the line is there, and whatever is in memory behind what has arrived.
   */
  lemma PartialRequestIllegal(verb: string, path: string, v: Version, s: string, len: nat)
    requires KnownVerb(verb) && NUL !in path && ' ' !in path
    requires len <= |s| && len <= |RequestText(verb, path, v)| - 2 && Received(s, len, RequestText(verb, path, v))
    ensures Decode(s, len) == if len < 16 then Incomplete else Illegal
  {
    hide StartLine, RequestText, Received;
    if len >= 16 {
      RequestLineRead(verb, path, v, s, len);
    }
  }

  /**
   A request whose line is followed by the empty line at once, with no header in between, is never seen to be complete,
   whatever is in memory behind it: the empty line is looked for behind the end of the request line, of which it is the
   second half.
   */
  lemma HeadlessIncomplete(verb: string, path: string, v: Version, s: string, len: nat)
    requires KnownVerb(verb) && NUL !in path && ' ' !in path && len <= |s|
    requires var text := RequestText(verb, path, v) + CRLF; |text| - 2 <= len <= |text| && Received(s, len, text)
    ensures Decode(s, len) == Incomplete
  {
    hide StartLine, RequestText, Received, Body, HeaderLines;
    var text := RequestText(verb, path, v);
    if len >= 16 {
      ReceivedFront(s, len, text);
      RequestLineRead(verb, path, v, s, len);
      var h := FindBlank(s[|text|..]);
      if h < |s[|text|..]| && |text| + h <= len {
        var d := Draft(BLANK.(verb := verb, url := path, version := v, keepalive := v == HTTP_1_1), 0, false);
        ShortHead(d, s[|text|..], h, len - |text|);
        BodyMissing(s, len, |text| + h + 4, d);
      }
    }
  }

  lemma ReceivedFront(s: string, len: nat, text: string)
    requires Received(s, len, text + CRLF) && |text| <= len <= |text + CRLF| && len <= |s|
    ensures Received(s, len, text)
    ensures forall i :: 0 <= i < len - |text| ==> s[|text|..][i] == CRLF[i]
  {
    assert s[..|text|] == s[..len][..|text|];
    forall i | 0 <= i < len - |text| ensures s[|text|..][i] == CRLF[i] {
      assert s[|text|..][i] == s[..len][|text| + i] == (text + CRLF)[..len][|text| + i];
    }
  }

  /** At most two characters of an empty line hold no header. */
  lemma ShortHead(d: Draft, t: string, h: nat, n: nat)
    requires h <= n <= 2 && n <= |t| && h + 4 <= |t| && forall i :: 0 <= i < n ==> t[i] == CRLF[i]
    ensures HeaderLines(d, t, h) == d
  {
    var e := FindCrLf(t);
    if e < |t| && 0 < h && e <= h {
      assert ':' !in t[..e];
      NoChar(t[..e], ':');
      assert HeaderLine(d, t[..e]) == d;
      assert HeaderLines(d, t[e + 2..], h - (e + 2)) == d;
    }
  }

  lemma BodyMissing(s: string, len: nat, begin: nat, d: Draft)
    requires len <= |s| && len < begin <= |s| && !d.chunked && d.contentLength == 0
    ensures Body(s, len, begin, d) == Incomplete
  {
  }

  /** And when a message follows, the line it begins with is passed over as a header of the headless one. */
  lemma FollowerSwallowed(verb: string, path: string, v: Version, line: string, rest: string, len: nat)
    requires KnownVerb(verb) && NUL !in path && ' ' !in path && line != "" && Plain(line) && ':' !in line
    requires var text := RequestText(verb, path, v) + (CRLF + (line + CRLF + (CRLF + rest)));
             16 <= len && |text| - |rest| <= len <= |text|
    ensures var text := RequestText(verb, path, v) + (CRLF + (line + CRLF + (CRLF + rest)));
            var m := BLANK.(verb := verb, url := path, version := v, keepalive := v == HTTP_1_1);
            Decode(text, len) == Done(m, |text| - |rest|)
  {
    hide StartLine, RequestText, FindBlank, FindCrLf, Plain, HeaderLines;
    var head, more := RequestText(verb, path, v), line + CRLF + (CRLF + rest);
    assert (head + (CRLF + more))[|head|..] == CRLF + more;
    assert Received(head + (CRLF + more), len, head);
    RequestLineRead(verb, path, v, head + (CRLF + more), len);
    FindBlankHere(line, rest);
    assert "" + CRLF + more == CRLF + more;
    assert more[0] != '\r' by { NotReturn(line, CRLF + (CRLF + rest)); }
    assert Plain("") by { NothingPlain(); }
    FindBlankLater("", more);
    var d := Draft(BLANK.(verb := verb, url := path, version := v, keepalive := v == HTTP_1_1), 0, false);
    PassedOver(d, line, CRLF + rest);
  }

  lemma NothingPlain()
    ensures Plain("")
  {
  }

  lemma NotReturn(line: string, rest: string)
    requires Plain(line) && line != ""
    ensures (line + rest)[0] != '\r'
  {
    assert line[0] in line;
  }

  lemma {:induction false} NoChar(s: string, c: char)
    requires c !in s
    ensures FindChar(s, c) == |s|
  {
    if s != "" {
      NoChar(s[1..], c);
    }
  }

  /** An empty line and a line without a colon add no header. */
  lemma PassedOver(d: Draft, line: string, rest: string)
    requires Plain(line) && ':' !in line && line != ""
    ensures HeaderLines(d, CRLF + (line + CRLF + rest), |line| + 2) == d
  {
    hide FindCrLf, Plain, FindChar, AddHeader;
    var t, more := CRLF + (line + CRLF + rest), line + CRLF + rest;
    assert "" + CRLF + more == t;
    assert Plain("") by { NothingPlain(); }
    FindCrLfAfter("", more);
    FindCrLfAfter(line, rest);
    NoChar("", ':');
    NoChar(line, ':');
    assert t[..0] == "" && t[2..] == more && more[..|line|] == line;
    assert HeaderLines(d, more, |line|) == d;
  }
}
