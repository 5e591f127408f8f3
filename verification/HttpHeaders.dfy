/**
 What single header lines say, in whatever letter case and with whatever blanks they are written.
 */
module HttpHeaders {
  import opened Wrappers
  import opened HttpText
  import opened HttpDecoder
  import opened HttpStart
  import opened HttpTargets
  import opened HttpNumbers
  import opened Digits

  /** A word in any letter case, given in lower and in upper case. */
  predicate SpelledAs(s: string, low: string, high: string)
    requires |low| == |high|
  {
    |s| == |low| && forall i :: 0 <= i < |s| ==> s[i] == low[i] || s[i] == high[i]
  }

  predicate Cases(low: string, high: string) {
    |low| == |high| && forall i :: 0 <= i < |low| ==> Pair(low[i], high[i])
  }

  lemma LowerSpells(s: string, low: string, high: string)
    requires Cases(low, high)
    ensures LowerAll(s) == low <==> SpelledAs(s, low, high)
  {
    hide Lower, Pair;
    if |s| == |low| {
      forall i | 0 <= i < |s| ensures Lower(s[i]) == low[i] <==> s[i] == low[i] || s[i] == high[i] {
        LowerChar(s[i], low[i], high[i]);
      }
      assert forall i :: 0 <= i < |s| ==> LowerAll(s)[i] == Lower(s[i]);
    }
  }

  // ---------------------------------------------------------------- the methods

  predicate StartsWith(s: string, low: string, high: string)
    requires |low| == |high|
  {
    |low| <= |s| && SpelledAs(s[..|low|], low, high)
  }

  /** The methods of requests, in any letter case. */
  predicate NamesMethod(s: string) {
    || StartsWith(s, "get", "GET") || StartsWith(s, "post", "POST") || StartsWith(s, "head", "HEAD")
    || StartsWith(s, "trace", "TRACE") || StartsWith(s, "put", "PUT") || StartsWith(s, "delete", "DELETE")
    || StartsWith(s, "options", "OPTIONS") || StartsWith(s, "connect", "CONNECT")
  }

  predicate NamesProtocol(s: string) {
    StartsWith(s, "http/", "HTTP/")
  }

  lemma BeginsSpelled(s: string, low: string, high: string)
    requires Cases(low, high)
    ensures Begins(s, low) <==> StartsWith(s, low, high)
  {
    hide LowerAll, SpelledAs;
    if |low| <= |s| {
      LowerSpells(s[..|low|], low, high);
    }
  }

  lemma MethodCases()
    ensures Cases("get", "GET") && Cases("post", "POST") && Cases("head", "HEAD") && Cases("trace", "TRACE")
    ensures Cases("put", "PUT") && Cases("delete", "DELETE") && Cases("options", "OPTIONS")
    ensures Cases("connect", "CONNECT") && Cases("http/", "HTTP/")
  {
  }

  lemma MethodRead(s: string)
    ensures VerbLength(s) > 0 <==> NamesMethod(s)
    ensures Begins(s, "http/") <==> NamesProtocol(s)
  {
    hide Begins, StartsWith, Cases;
    MethodCases();
    BeginsSpelled(s, "get", "GET");
    BeginsSpelled(s, "post", "POST");
    BeginsSpelled(s, "head", "HEAD");
    BeginsSpelled(s, "trace", "TRACE");
    BeginsSpelled(s, "put", "PUT");
    BeginsSpelled(s, "delete", "DELETE");
    BeginsSpelled(s, "options", "OPTIONS");
    BeginsSpelled(s, "connect", "CONNECT");
    BeginsSpelled(s, "http/", "HTTP/");
  }

  /** What begins neither with a method nor with the protocol is illegal as soon as sixteen characters are there. */
  lemma UnknownMethod(s: string, len: nat)
    requires len <= |s| && !NamesMethod(s) && !NamesProtocol(s)
    ensures Decode(s, len) == if len < 16 then Incomplete else Illegal
  {
    hide VerbLength, NamesMethod, NamesProtocol;
    MethodRead(s);
  }

  // ---------------------------------------------------------------- the names

  predicate IsConnection(key: string) {
    SpelledAs(key, "connection", "CONNECTION")
  }

  predicate IsForwarded(key: string) {
    SpelledAs(key, "x-forwarded-for", "X-FORWARDED-FOR")
  }

  predicate IsLength(key: string) {
    SpelledAs(key, "content-length", "CONTENT-LENGTH")
  }

  predicate IsEncoding(key: string) {
    SpelledAs(key, "transfer-encoding", "TRANSFER-ENCODING")
  }

  predicate IsClose(value: string) {
    SpelledAs(value, "close", "CLOSE")
  }

  predicate IsKeepAlive(value: string) {
    SpelledAs(value, "keep-alive", "KEEP-ALIVE")
  }

  predicate IsChunked(value: string) {
    SpelledAs(value, "chunked", "CHUNKED")
  }

  lemma Names(s: string)
    ensures LowerAll(s) == "connection" <==> IsConnection(s)
    ensures LowerAll(s) == "x-forwarded-for" <==> IsForwarded(s)
    ensures LowerAll(s) == "content-length" <==> IsLength(s)
    ensures LowerAll(s) == "transfer-encoding" <==> IsEncoding(s)
  {
    hide LowerAll, SpelledAs, Cases;
    ShortCases();
    LongCases();
    LowerSpells(s, "connection", "CONNECTION");
    LowerSpells(s, "x-forwarded-for", "X-FORWARDED-FOR");
    LowerSpells(s, "content-length", "CONTENT-LENGTH");
    LowerSpells(s, "transfer-encoding", "TRANSFER-ENCODING");
  }

  lemma ShortCases()
    ensures Cases("connection", "CONNECTION") && Cases("content-length", "CONTENT-LENGTH")
  {
  }

  lemma LongCases()
    ensures Cases("x-forwarded-for", "X-FORWARDED-FOR") && Cases("transfer-encoding", "TRANSFER-ENCODING")
  {
  }

  lemma Values(s: string)
    ensures LowerAll(s) == "close" <==> IsClose(s)
    ensures LowerAll(s) == "keep-alive" <==> IsKeepAlive(s)
    ensures LowerAll(s) == "chunked" <==> IsChunked(s)
  {
    hide LowerAll, SpelledAs;
    assert Cases("close", "CLOSE");
    assert Cases("keep-alive", "KEEP-ALIVE");
    assert Cases("chunked", "CHUNKED");
    LowerSpells(s, "close", "CLOSE");
    LowerSpells(s, "keep-alive", "KEEP-ALIVE");
    LowerSpells(s, "chunked", "CHUNKED");
  }

  lemma {:induction false} LowerAgain(s: string)
    ensures LowerAll(LowerAll(s)) == LowerAll(s)
  {
    if s != "" {
      LowerAgain(s[1..]);
    }
  }

  // ---------------------------------------------------------------- the lines

  /** A line with one colon behind its name, and blanks around name and value. */
  function LineOf(a: nat, key: string, b: nat, c: nat, value: string, d: nat): string {
    Blanks(a) + key + Blanks(b) + ":" + (Blanks(c) + value + Blanks(d))
  }

  predicate Writable(key: string, value: string) {
    Solid(key) && Solid(value) && NUL !in key && ':' !in key
  }

  lemma LineSplit(a: nat, key: string, b: nat, c: nat, value: string, d: nat)
    requires Writable(key, value)
    ensures var line, at := LineOf(a, key, b, c, value, d), a + |key| + b;
            && FindChar(line, ':') == at < |line| && Trim(line[..at]) == key && Trim(line[at + 1..]) == value
  {
    hide Trim, Blanks, Solid, FindChar;
    var front, back := Blanks(a) + key + Blanks(b), Blanks(c) + value + Blanks(d);
    var line := front + ":" + back;
    BlanksOnly(a);
    BlanksOnly(b);
    FindCharAfter(front, ':', back);
    assert line == front + [':'] + back;
    assert line[..|front|] == front && line[|front| + 1..] == back;
    TrimSolid(a, key, b);
    TrimSolid(c, value, d);
  }

  lemma BlanksOnly(n: nat)
    ensures |Blanks(n)| == n && forall c :: c in Blanks(n) ==> c == ' '
  {
  }

  /**
   A header line is kept under its name in lower case, with its value as it is. `Connection` decides about keeping the
   connection, `Content-Length` and `Transfer-Encoding` about the body, and of `X-Forwarded-For` the first address
   counts.
   */
  lemma LineSays(d: Draft, a: nat, key: string, b: nat, c: nat, value: string, e: nat)
    requires Writable(key, value)
    ensures var r := HeaderLine(d, LineOf(a, key, b, c, value, e));
            && r.message.headers == d.message.headers[LowerAll(key) := value]
            && r.message.keepalive == (if IsConnection(key) && IsClose(value) then false
                                       else if IsConnection(key) && IsKeepAlive(value) then true
                                       else d.message.keepalive)
            && r.chunked == (d.chunked || (IsEncoding(key) && IsChunked(value)))
            && (!IsLength(key) ==> r.contentLength == d.contentLength)
            && (!IsForwarded(key) ==> r.message.forwarded == d.message.forwarded)
            && d.message == r.message.(headers := d.message.headers, keepalive := d.message.keepalive,
                                       forwarded := d.message.forwarded)
  {
    hide LineOf, Trim, FindChar, LowerAll, ParseHeader, IsConnection, IsForwarded, IsLength, IsEncoding;
    hide IsClose, IsKeepAlive, IsChunked, UpToComma, Atoi, Writable;
    LineSplit(a, key, b, c, value, e);
    LowerAgain(key);
    ParseSays(d.(message := d.message.(headers := d.message.headers[LowerAll(key) := value])), LowerAll(key), value);
    SameNames(key);
    OneName(key);
  }

  lemma SameNames(key: string)
    ensures IsConnection(LowerAll(key)) == IsConnection(key) && IsForwarded(LowerAll(key)) == IsForwarded(key)
    ensures IsLength(LowerAll(key)) == IsLength(key) && IsEncoding(LowerAll(key)) == IsEncoding(key)
  {
    hide LowerAll, IsConnection, IsForwarded, IsLength, IsEncoding;
    LowerAgain(key);
    Names(key);
    Names(LowerAll(key));
  }

  /** A header's effect, by its name and value. */
  function Parsed(d: Draft, key: string, value: string): Draft {
    if IsConnection(key) then
      if IsClose(value) then d.(message := d.message.(keepalive := false))
      else if IsKeepAlive(value) then d.(message := d.message.(keepalive := true))
      else d
    else if IsForwarded(key) then d.(message := d.message.(forwarded := UpToComma(value)))
    else if IsLength(key) then d.(contentLength := Atoi(value))
    else if IsEncoding(key) && IsChunked(value) then d.(chunked := true)
    else d
  }

  lemma ParseSays(d: Draft, key: string, value: string)
    ensures ParseHeader(d, key, value) == Parsed(d, key, value)
  {
    hide LowerAll, IsConnection, IsForwarded, IsLength, IsEncoding, IsClose, IsKeepAlive, IsChunked, UpToComma, Atoi;
    Names(key);
    Values(value);
  }

  lemma OneName(key: string)
    ensures IsConnection(key) ==> !IsForwarded(key) && !IsLength(key) && !IsEncoding(key)
    ensures IsForwarded(key) ==> !IsLength(key) && !IsEncoding(key)
    ensures IsLength(key) ==> !IsEncoding(key)
  {
    NamesApart(key);
  }

  lemma NamesApart(key: string)
    ensures IsConnection(key) ==> |key| == 10
    ensures IsForwarded(key) ==> |key| == 15
    ensures IsLength(key) ==> |key| == 14
    ensures IsEncoding(key) ==> |key| == 17
    ensures |"connection"| == 10 && |"x-forwarded-for"| == 15 && |"content-length"| == 14 && |"transfer-encoding"| == 17
  {
  }

  /** A line without a colon says nothing. */
  lemma NoColonNothing(d: Draft, line: string)
    requires ':' !in line
    ensures HeaderLine(d, line) == d
  {
    NoChar(line, ':');
  }

  /** A length in decimal digits is the length. */
  lemma LengthSays(d: Draft, a: nat, key: string, b: nat, c: nat, value: string, digits: seq<nat>, e: nat)
    requires Writable(key, value) && IsLength(key)
    requires SpellsAll(value, digits, false) && Positional(digits, false) < 0x8000_0000
    ensures HeaderLine(d, LineOf(a, key, b, c, value, e)).contentLength == Positional(digits, false)
  {
    hide LineOf, Trim, FindChar, LowerAll, ParseHeader, IsConnection, IsForwarded, IsLength, IsEncoding, SpellsAll;
    hide IsClose, IsKeepAlive, IsChunked, UpToComma, Atoi;
    LineSplit(a, key, b, c, value, e);
    LowerAgain(key);
    ParseSays(d.(message := d.message.(headers := d.message.headers[LowerAll(key) := value])), LowerAll(key), value);
    SameNames(key);
    OneName(key);
    DigitsScanned(value, digits);
  }

  lemma DigitsScanned(value: string, digits: seq<nat>)
    requires value != "" && SpellsAll(value, digits, false) && Positional(digits, false) < 0x8000_0000
    ensures Atoi(value) == Positional(digits, false)
  {
    hide Atoi, Positional;
    AtoiMeans("", "", value, digits, "");
    assert "" + ("" + (value + "")) == value;
  }

  /** The first of the addresses, which are separated by commas. */
  lemma ForwardedSays(d: Draft, a: nat, key: string, b: nat, c: nat, first: string, others: string, e: nat)
    requires Writable(key, first + others) && IsForwarded(key)
    requires ',' !in first && (others == "" || others[0] == ',')
    ensures HeaderLine(d, LineOf(a, key, b, c, first + others, e)).message.forwarded == first
  {
    hide LineOf, Trim, FindChar, LowerAll, ParseHeader, IsConnection, IsForwarded, IsLength, IsEncoding, Writable;
    hide IsClose, IsKeepAlive, IsChunked, UpToComma, Atoi;
    var value := first + others;
    LineSplit(a, key, b, c, value, e);
    LowerAgain(key);
    ParseSays(d.(message := d.message.(headers := d.message.headers[LowerAll(key) := value])), LowerAll(key), value);
    SameNames(key);
    OneName(key);
    CommaEnds(first, others);
  }

  lemma {:induction false} CommaEnds(first: string, others: string)
    requires ',' !in first && (others == "" || others[0] == ',')
    ensures UpToComma(first + others) == first
  {
    if first == "" {
      assert first + others == others;
    } else {
      assert (first + others)[1..] == first[1..] + others;
      CommaEnds(first[1..], others);
    }
  }
}
