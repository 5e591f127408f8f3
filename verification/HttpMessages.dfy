/**
 Whole HTTP messages: what is written is what is read, and reading stops where the next message begins.
 */
module HttpMessages {
  import opened Wrappers
  import opened HttpText
  import opened HttpDecoder
  import opened HttpEncoder
  import opened HttpRoundTrip
  import opened HttpStart

  // ---------------------------------------------------------------- the head of a message

  lemma HeadRead(s: string, len: nat, first: string, hs: seq<Header>, m: Message, tail: string)
    requires 16 <= len <= |s| && s == first + Lines(hs) + CRLF + tail && |first| + |Lines(hs)| <= len
    requires StartLine(s, len) == Start(m, |first|)
    requires hs != [] && AllClean(hs)
    ensures var begin := |first| + |Lines(hs)| + 2;
            begin <= |s| && s[begin..] == tail && Decode(s, len) == Body(s, len, begin, AddAll(Draft(m, 0, false), hs))
  {
    hide StartLine, FindBlank, HeaderLines, Body, Lines, AllClean;
    LinesRead(Draft(m, 0, false), hs, tail);
    HeadParts(s, first, Lines(hs), tail);
    LinesLength(hs);
  }

  lemma HeadParts(s: string, first: string, lines: string, tail: string)
    requires s == first + lines + CRLF + tail
    ensures s[|first|..] == lines + (CRLF + tail) && s[|first| + |lines| + 2..] == tail
  {
  }

  lemma LinesLength(hs: seq<Header>)
    requires hs != []
    ensures |Lines(hs)| >= 2
  {
  }

  // ---------------------------------------------------------------- headers that survive

  /**
   The message's own headers, in some order: each clean, none that speaks of the connection, the length, a cookie or
   the date, no two that differ only in case, and none that differs only in case from a default one.
   */
  ghost predicate CleanHeaders(headers: map<string, string>, order: seq<string>, defaults: seq<Header>) {
    && (forall k :: k in order <==> k in headers)
    && (forall k :: k in headers ==> Survives(Header(k, headers[k])))
    && (forall k, l :: k in headers && l in headers && LowerAll(k) == LowerAll(l) ==> k == l)
    && forall k, d :: k in headers && d in defaults && LowerAll(k) == LowerAll(d.key) ==> k == d.key
  }

  predicate Survives(h: Header) {
    Clean(h) && Neutral(h) && LowerAll(h.key) != "set-cookie" && LowerAll(h.key) != "date"
  }

  lemma OwnClean(headers: map<string, string>, order: seq<string>, defaults: seq<Header>)
    requires CleanHeaders(headers, order, defaults)
    ensures AllClean(Own(headers, order)) && AllNeutral(Own(headers, order))
  {
    hide Clean, Neutral, Own;
    var own := Own(headers, order);
    forall h | h in own ensures Clean(h) && Neutral(h) {
      var i :| 0 <= i < |own| && own[i] == h;
      OwnAt(headers, order, i);
      OwnEntry(headers, order, defaults, order[i]);
    }
  }

  lemma OwnAt(headers: map<string, string>, order: seq<string>, i: nat)
    requires (forall k :: k in order ==> k in headers) && i < |order|
    ensures |Own(headers, order)| == |order|
    ensures Own(headers, order)[i] == Header(CStr(order[i]), CStr(headers[order[i]]))
  {
  }

  lemma OwnEntry(headers: map<string, string>, order: seq<string>, defaults: seq<Header>, k: string)
    requires CleanHeaders(headers, order, defaults) && k in headers
    ensures var h := Header(CStr(k), CStr(headers[k]));
            h == Header(k, headers[k]) && Survives(h) && Clean(h) && Neutral(h)
  {
    hide Neutral;
    CStrWhole(k);
    CStrWhole(headers[k]);
    assert Survives(Header(k, headers[k]));
  }

  lemma {:induction false} LastNone(hs: seq<Header>, name: string)
    requires forall h :: h in hs ==> LowerAll(h.key) != name
    ensures Last(hs, name).None?
  {
    if hs != [] {
      assert hs[|hs| - 1] in hs;
      LastNone(hs[..|hs| - 1], name);
    }
  }

  lemma {:induction false} LastJoin(a: seq<Header>, b: seq<Header>, name: string)
    requires Last(b, name).None?
    ensures Last(a + b, name) == Last(a, name)
    decreases |b|
  {
    if b == [] {
      assert a + b == a;
    } else {
      assert (a + b)[..|a + b| - 1] == a + b[..|b| - 1];
      LastJoin(a, b[..|b| - 1], name);
    }
  }

  /** Headers of one name that all have one value. */
  lemma {:induction false} LastOf(hs: seq<Header>, h: Header)
    requires h in hs && forall g :: g in hs && LowerAll(g.key) == LowerAll(h.key) ==> g == h
    ensures Last(hs, LowerAll(h.key)) == Some(h.value)
  {
    hide LowerAll;
    var g := hs[|hs| - 1];
    assert g in hs;
    if LowerAll(g.key) != LowerAll(h.key) {
      assert hs == hs[..|hs| - 1] + [g];
      LastOf(hs[..|hs| - 1], h);
    }
  }

  lemma {:induction false} LastWins(a: seq<Header>, b: seq<Header>, name: string)
    requires Last(b, name).Some?
    ensures Last(a + b, name) == Last(b, name)
    decreases |b|
  {
    hide LowerAll;
    assert (a + b)[..|a + b| - 1] == a + b[..|b| - 1];
    if LowerAll(b[|b| - 1].key) != name {
      LastWins(a, b[..|b| - 1], name);
    }
  }

  /**
   A reader finds each of the message's own headers under its name in lower case, unless a later header has that name.
   */
  lemma OwnFound(headers: map<string, string>, order: seq<string>, defaults: seq<Header>, before: seq<Header>,
                 after: seq<Header>, k: string)
    requires CleanHeaders(headers, order, defaults) && k in headers
    requires forall h :: h in after ==> LowerAll(h.key) != LowerAll(k)
    ensures Last(before + Own(headers, order) + after, LowerAll(k)) == Some(headers[k])
  {
    hide LowerAll, Own, Survives;
    var own, h := Own(headers, order), Header(k, headers[k]);
    var i :| 0 <= i < |order| && order[i] == k;
    OwnAt(headers, order, i);
    OwnEntry(headers, order, defaults, k);
    forall g | g in own && LowerAll(g.key) == LowerAll(h.key) ensures g == h {
      var j :| 0 <= j < |own| && own[j] == g;
      OwnAt(headers, order, j);
      OwnEntry(headers, order, defaults, order[j]);
    }
    LastOf(own, h);
    LastWins(before, own, LowerAll(k));
    LastNone(after, LowerAll(k));
    LastJoin(before + own, after, LowerAll(k));
  }

  // ---------------------------------------------------------------- the headers every message gets

  predicate Fixed(h: Header) {
    Clean(h) && Neutral(h)
  }

  /** No header about the connection or the length has a name as long as this, or begins so. */
  lemma NeutralBy(h: Header)
    requires |h.key| != 14 && |h.key| != 17 && (|h.key| == 10 ==> h.key[0] == 'U')
    ensures Neutral(h)
  {
    Length(h.key);
    hide LowerAll;
  }

  lemma CleanBy(key: string, value: string)
    requires Plain(key) && Solid(key) && ':' !in key && Plain(value) && Solid(value)
    ensures Clean(Header(key, value))
  {
  }

  lemma CacheControl()
    ensures Fixed(Header("Cache-Control", "no-cache"))
  {
    hide Clean, Neutral;
    CleanBy("Cache-Control", "no-cache");
    NeutralBy(Header("Cache-Control", "no-cache"));
  }

  lemma ContentTypeName()
    ensures Plain("Content-Type") && Solid("Content-Type") && ':' !in "Content-Type"
  {
  }

  lemma ContentTypeValue()
    ensures Plain("text/html; charset=utf-8") && Solid("text/html; charset=utf-8")
  {
  }

  lemma ContentType()
    ensures Fixed(Header("Content-Type", "text/html; charset=utf-8"))
  {
    hide Clean, Neutral, Plain, Solid;
    ContentTypeName();
    ContentTypeValue();
    CleanBy("Content-Type", "text/html; charset=utf-8");
    NeutralBy(Header("Content-Type", "text/html; charset=utf-8"));
  }

  lemma ServerName()
    ensures Plain("Server") && Solid("Server") && ':' !in "Server"
  {
  }

  lemma ServerValue()
    ensures Plain("Ape Http Server 1.0") && Solid("Ape Http Server 1.0")
  {
  }

  lemma Server()
    ensures Fixed(Header("Server", "Ape Http Server 1.0"))
  {
    hide Clean, Neutral, Plain, Solid;
    ServerName();
    ServerValue();
    CleanBy("Server", "Ape Http Server 1.0");
    NeutralBy(Header("Server", "Ape Http Server 1.0"));
  }

  lemma UserAgent()
    ensures Fixed(Header("User-Agent", "ApeHttpClient"))
  {
    hide Clean, Neutral;
    CleanBy("User-Agent", "ApeHttpClient");
    NeutralBy(Header("User-Agent", "ApeHttpClient"));
  }

  lemma ShortName(h: Header)
    requires Clean(h) && |h.key| == 4
    ensures Fixed(h)
  {
    hide Clean, Neutral;
    NeutralBy(h);
  }

  lemma Length(s: string)
    ensures |LowerAll(s)| == |s|
    ensures forall i :: 0 <= i < |s| ==> LowerAll(s)[i] == Lower(s[i])
  {
  }

  lemma DefaultsFixed(headers: map<string, string>)
    ensures forall h :: h in Missing(RESPONSE_DEFAULTS, headers) ==> Fixed(h)
    ensures forall h :: h in Missing(REQUEST_DEFAULTS, headers) ==> Fixed(h)
  {
    hide Fixed, Missing;
    CacheControl();
    ContentType();
    Server();
    UserAgent();
    MissingFrom(RESPONSE_DEFAULTS, headers);
    MissingFrom(REQUEST_DEFAULTS, headers);
  }

  lemma MissingFrom(defaults: seq<Header>, headers: map<string, string>)
    ensures forall h :: h in Missing(defaults, headers) ==> h in defaults && h.key !in headers
  {
  }

  lemma ConnectionClean(keepalive: bool)
    ensures Clean(HttpEncoder.Connection(keepalive))
  {
  }

  lemma ChunkedClean()
    ensures Clean(Header("Transfer-Encoding", "chunked"))
  {
  }

  lemma LengthClean(body: string)
    ensures Clean(ContentLength(body))
  {
    hide Print, Plain, Solid;
    LengthKeyClean();
    PrintShape(|body|, DECIMAL);
  }

  lemma LengthKeyClean()
    ensures Plain("Content-Length") && Solid("Content-Length") && ':' !in "Content-Length"
  {
  }

  // ---------------------------------------------------------------- reading the headers of a response

  predicate DateOk(date: string) {
    Clean(Header("Date", date))
  }

  /** What must be known of the length of the body. */
  function Tail(m: Message): Header {
    if m.version == HTTP_1_1 then Header("Transfer-Encoding", "chunked") else ContentLength(m.body)
  }

  function Plainly(m: Message, order: seq<string>, date: string): seq<Header>
    requires forall k :: k in order ==> k in m.headers
  {
    Own(m.headers, order) + Missing(RESPONSE_DEFAULTS, m.headers) + [Header("Date", date)]
  }

  lemma PlainlyFixed(m: Message, order: seq<string>, date: string)
    requires CleanHeaders(m.headers, order, RESPONSE_DEFAULTS) && DateOk(date)
    ensures AllClean(Plainly(m, order, date)) && AllNeutral(Plainly(m, order, date))
  {
    hide Clean, Neutral, Own, Missing;
    OwnClean(m.headers, order, RESPONSE_DEFAULTS);
    DefaultsFixed(m.headers);
    ShortName(Header("Date", date));
  }

  lemma ResponseHeadersClean(m: Message, order: seq<string>, date: string)
    requires CleanHeaders(m.headers, order, RESPONSE_DEFAULTS) && DateOk(date)
    ensures AllClean(ResponseHeaders(m, order, date))
  {
    hide Clean, Own, Missing;
    PlainlyFixed(m, order, date);
    ConnectionClean(m.keepalive);
    ChunkedClean();
    LengthClean(m.body);
    assert ResponseHeaders(m, order, date)
         == Plainly(m, order, date) + [HttpEncoder.Connection(m.keepalive)] + [Tail(m)];
  }

  /** What the headers tell the reader about the body, and about keeping the connection. */
  predicate Told(d: Draft, m0: Message, keepalive: bool, contentLength: int, chunked: bool) {
    && SameStart(m0, d.message) && d.message.keepalive == keepalive && d.contentLength == contentLength
    && d.chunked == chunked
  }

  lemma ResponseHeadersTell(m: Message, order: seq<string>, date: string, m0: Message)
    requires CleanHeaders(m.headers, order, RESPONSE_DEFAULTS) && DateOk(date) && |m.body| < 0x8000_0000
    ensures var d := AddAll(Draft(m0, 0, false), ResponseHeaders(m, order, date));
            var chunked := m.version == HTTP_1_1;
            Told(d, m0, m.keepalive, if chunked then 0 else |m.body|, chunked)
  {
    hide Clean, Neutral, Plainly, AllNeutral, AllClean, LowerAll, AddHeader;
    var hs, c := Plainly(m, order, date), HttpEncoder.Connection(m.keepalive);
    assert ResponseHeaders(m, order, date) == hs + [c] + [Tail(m)] by { PlainlyIs(m, order, date); }
    PlainlyFixed(m, order, date);
    var d0 := Draft(m0, 0, false);
    NeutralHeaders(d0, hs);
    AddAllEnd(d0, hs, c);
    AddAllEnd(d0, hs + [c], Tail(m));
    ConnectionHeader(AddAll(d0, hs), m.keepalive);
    if m.version == HTTP_1_1 {
      ChunkedHeader(AddAll(d0, hs + [c]));
    } else {
      LengthHeader(AddAll(d0, hs + [c]), m.body);
    }
  }

  lemma PlainlyIs(m: Message, order: seq<string>, date: string)
    requires forall k :: k in order ==> k in m.headers
    ensures ResponseHeaders(m, order, date)
         == Plainly(m, order, date) + [HttpEncoder.Connection(m.keepalive)] + [Tail(m)]
  {
    hide Own, Missing;
  }

  /** The message's own headers, each found under its name in lower case. */
  ghost predicate Recalls(r: map<string, string>, headers: map<string, string>) {
    forall k :: k in headers ==> LowerAll(k) in r && r[LowerAll(k)] == headers[k]
  }

  lemma FixedNames()
    ensures LowerAll("Date") == "date" && LowerAll("Connection") == "connection"
    ensures LowerAll("Transfer-Encoding") == "transfer-encoding" && LowerAll("Content-Length") == "content-length"
  {
    hide LowerAll;
    Lowered("Date", "date");
    ConnectionName();
    ChunkedName();
    LengthName();
  }

  lemma MissingDiffers(headers: map<string, string>, order: seq<string>, defaults: seq<Header>, k: string)
    requires CleanHeaders(headers, order, defaults) && k in headers
    ensures Differ(Missing(defaults, headers), k)
  {
    hide Missing, LowerAll, Survives;
    MissingFrom(defaults, headers);
  }

  lemma ReservedDiffers(headers: map<string, string>, order: seq<string>, defaults: seq<Header>, k: string)
    requires CleanHeaders(headers, order, defaults) && k in headers
    ensures LowerAll(k) !in ["date", "connection", "transfer-encoding", "content-length"]
  {
    hide Clean, LowerAll;
    assert Survives(Header(k, headers[k]));
  }

  /** The headers written after a response's own. */
  function After(m: Message, date: string): seq<Header> {
    Missing(RESPONSE_DEFAULTS, m.headers) + [Header("Date", date)] + [HttpEncoder.Connection(m.keepalive)] + [Tail(m)]
  }

  lemma ResponseParts(m: Message, order: seq<string>, date: string)
    requires forall k :: k in order ==> k in m.headers
    ensures ResponseHeaders(m, order, date) == [] + Own(m.headers, order) + After(m, date)
  {
    hide Own, Missing;
  }

  /** No header of a list has the name `k`, however written. */
  ghost predicate Differ(hs: seq<Header>, k: string) {
    forall h :: h in hs ==> LowerAll(h.key) != LowerAll(k)
  }

  lemma DifferMore(hs: seq<Header>, h: Header, k: string)
    requires Differ(hs, k) && LowerAll(h.key) != LowerAll(k)
    ensures Differ(hs + [h], k)
  {
    hide LowerAll;
  }

  lemma AfterDiffers(m: Message, order: seq<string>, date: string, k: string)
    requires CleanHeaders(m.headers, order, RESPONSE_DEFAULTS) && k in m.headers
    ensures Differ(After(m, date), k)
  {
    hide CleanHeaders, Missing, LowerAll;
    MissingDiffers(m.headers, order, RESPONSE_DEFAULTS, k);
    hide Differ;
    ReservedDiffers(m.headers, order, RESPONSE_DEFAULTS, k);
    FixedNames();
    var a := Missing(RESPONSE_DEFAULTS, m.headers);
    var date', c := Header("Date", date), HttpEncoder.Connection(m.keepalive);
    DifferMore(a, date', k);
    DifferMore(a + [date'], c, k);
    DifferMore(a + [date'] + [c], Tail(m), k);
  }

  lemma ResponseRecall(m: Message, order: seq<string>, date: string, k: string)
    requires CleanHeaders(m.headers, order, RESPONSE_DEFAULTS) && k in m.headers
    requires forall l :: l in order ==> l in m.headers
    ensures Last(ResponseHeaders(m, order, date), LowerAll(k)) == Some(m.headers[k])
  {
    hide CleanHeaders, Own, After, ResponseHeaders, LowerAll, Last;
    AfterDiffers(m, order, date, k);
    ResponseParts(m, order, date);
    OwnFound(m.headers, order, RESPONSE_DEFAULTS, [], After(m, date), k);
  }

  lemma ResponseRecalls(m: Message, order: seq<string>, date: string, r: map<string, string>)
    requires CleanHeaders(m.headers, order, RESPONSE_DEFAULTS)
    requires forall l :: l in order ==> l in m.headers
    requires Collects(r, ResponseHeaders(m, order, date))
    ensures Recalls(r, m.headers)
  {
    hide CleanHeaders, ResponseHeaders, LowerAll, Last, Collects;
    forall k | k in m.headers ensures LowerAll(k) in r && r[LowerAll(k)] == m.headers[k] {
      ResponseRecall(m, order, date, k);
      Collected(r, ResponseHeaders(m, order, date), LowerAll(k));
    }
  }

  lemma Collected(r: map<string, string>, hs: seq<Header>, name: string)
    requires Collects(r, hs)
    ensures Last(hs, name).Some? ==> name in r && r[name] == Last(hs, name).value
  {
    hide Last;
  }

  // ---------------------------------------------------------------- a response, there and back

  /** The text of a response without its body. */
  lemma ResponseText(m: Message, order: seq<string>, date: string, rest: string)
    requires forall k :: k in order ==> k in m.headers
    ensures EncodeResponse(m, order, date) + rest
         == StatusText(m.version, GetStatus(m.code)) + Lines(ResponseHeaders(m, order, date))
            + CRLF + (ResponseBody(m) + rest)
  {
    hide GetStatus, Lines, ResponseHeaders, ResponseBody;
  }

  /** A message that came back: the same in everything sent, its own headers under names in lower case. */
  ghost predicate Returned(r: Message, m: Message) {
    && r.response && r.version == m.version && r.keepalive == m.keepalive && r.body == m.body
    && (r.code == m.code <==> Short(m.code))
    && Recalls(r.headers, m.headers)
  }

  ghost predicate Sendable(m: Message, order: seq<string>, defaults: seq<Header>) {
    && CleanHeaders(m.headers, order, defaults)
    && NUL !in m.body && |m.body| < 0x8000_0000
    && -0x8000_0000 < m.code < 0x8000_0000
  }

  lemma OrderKnown(headers: map<string, string>, order: seq<string>, defaults: seq<Header>)
    requires CleanHeaders(headers, order, defaults)
    ensures forall k :: k in order ==> k in headers
  {
  }

  /** The message as the status line begins it. */
  function Begun(m: Message, rest: string): Message {
    BLANK.(response := true, version := m.version, keepalive := m.version == HTTP_1_1,
           code := Atoi(GetStatus(m.code) + CRLF + rest))
  }

  /** The draft a reader has when it comes to the body of a response. */
  function ResponseDraft(m: Message, order: seq<string>, date: string, rest: string): Draft
    requires forall k :: k in order ==> k in m.headers
  {
    var hs := ResponseHeaders(m, order, date);
    AddAll(Draft(Begun(m, Lines(hs) + CRLF + (ResponseBody(m) + rest)), 0, false), hs)
  }

  function ResponseHead(m: Message, order: seq<string>, date: string): nat
    requires forall k :: k in order ==> k in m.headers
  {
    |StatusText(m.version, GetStatus(m.code))| + |Lines(ResponseHeaders(m, order, date))| + 2
  }

  lemma ResponseHeadRead(m: Message, order: seq<string>, date: string, rest: string, len: nat)
    requires CleanHeaders(m.headers, order, RESPONSE_DEFAULTS) && DateOk(date)
    requires forall k :: k in order ==> k in m.headers
    requires var text := EncodeResponse(m, order, date); |text| <= len <= |text + rest|
    ensures var s, begin := EncodeResponse(m, order, date) + rest, ResponseHead(m, order, date);
            && begin <= |s| && s[begin..] == ResponseBody(m) + rest
            && |EncodeResponse(m, order, date)| == begin + |ResponseBody(m)|
            && Decode(s, len) == Body(s, len, begin, ResponseDraft(m, order, date, rest))
  {
    hide StartLine, Lines, ResponseHeaders, ResponseBody, GetStatus, EncodeResponse, Body, Atoi, CleanHeaders, AddAll,
      AllClean, DateOk;
    var hs := ResponseHeaders(m, order, date);
    var first, tail := StatusText(m.version, GetStatus(m.code)), ResponseBody(m) + rest;
    ResponseText(m, order, date, rest);
    ResponseLength(m, order, date);
    PlainStatus(m.code);
    ResponseHeadersClean(m, order, date);
    ResponseNotShort(m, order, date);
    var s, more := EncodeResponse(m, order, date) + rest, Lines(hs) + CRLF + tail;
    assert s == first + more;
    StatusLineRead(m.version, GetStatus(m.code), more, len);
    HeadRead(s, len, first, hs, Begun(m, more), tail);
  }

  lemma ResponseLength(m: Message, order: seq<string>, date: string)
    requires forall k :: k in order ==> k in m.headers
    ensures |EncodeResponse(m, order, date)| == ResponseHead(m, order, date) + |ResponseBody(m)|
  {
    hide GetStatus, Lines, ResponseHeaders, ResponseBody;
  }

  lemma ResponseNotShort(m: Message, order: seq<string>, date: string)
    requires forall k :: k in order ==> k in m.headers
    ensures ResponseHeaders(m, order, date) != []
    ensures |StatusText(m.version, GetStatus(m.code))| + |Lines(ResponseHeaders(m, order, date))| >= 16
  {
    hide GetStatus;
    var hs := ResponseHeaders(m, order, date);
    var n := |hs| - 2;
    assert hs[n] == HttpEncoder.Connection(m.keepalive);
    LinesAtLeast(hs, n);
    assert |Line(hs[n])| >= 16;
  }

  lemma {:induction false} LinesAtLeast(hs: seq<Header>, i: nat)
    requires i < |hs|
    ensures |Lines(hs)| >= |Line(hs[i])|
  {
    if i > 0 {
      LinesAtLeast(hs[1..], i - 1);
    }
  }

  lemma ResponseDraftReturned(m: Message, order: seq<string>, date: string, rest: string)
    requires Sendable(m, order, RESPONSE_DEFAULTS) && DateOk(date)
    requires forall k :: k in order ==> k in m.headers
    ensures var d := ResponseDraft(m, order, date, rest);
            && d.contentLength == (if m.version == HTTP_1_1 then 0 else |m.body|)
            && d.chunked == (m.version == HTTP_1_1)
            && d.message.body == "" && Returned(d.message.(body := m.body), m)
  {
    hide Lines, ResponseHeaders, ResponseBody, GetStatus, Atoi, CleanHeaders, AddAll, DateOk, Recalls, Short, Collects;
    var hs := ResponseHeaders(m, order, date);
    var more := Lines(hs) + CRLF + (ResponseBody(m) + rest);
    var m0 := Begun(m, more);
    StatusCode(m.code, more);
    ResponseHeadersTell(m, order, date, m0);
    AddAllCollects(Draft(m0, 0, false), hs);
    ResponseRecalls(m, order, date, AddAll(Draft(m0, 0, false), hs).message.headers);
  }

  /**
   Whatever follows it in the buffer, a response written is a response read: version, connection, body and headers come
   back, the code if it was written whole; and reading stops exactly at its end, unless its body is empty and chunked,
   when the second of the two last chunks is left behind.
   */
  lemma ResponseRoundTrip(m: Message, order: seq<string>, date: string, rest: string, len: nat)
    requires Sendable(m, order, RESPONSE_DEFAULTS) && DateOk(date)
    requires forall k :: k in order ==> k in m.headers
    requires var text := EncodeResponse(m, order, date); |text| <= len <= |text + rest|
    ensures var text := EncodeResponse(m, order, date);
            var r := Decode(text + rest, len);
            && r.Done? && Returned(r.message, m)
            && r.end == |text| - (if m.version == HTTP_1_1 && m.body == "" then 5 else 0)
  {
    OrderKnown(m.headers, order, RESPONSE_DEFAULTS);
    hide Decode, EncodeResponse, ResponseDraft, ResponseHead, Returned, DateOk, CleanHeaders, Chunks;
    var s, begin := EncodeResponse(m, order, date) + rest, ResponseHead(m, order, date);
    var d := ResponseDraft(m, order, date, rest);
    ResponseHeadRead(m, order, date, rest, len);
    ResponseDraftReturned(m, order, date, rest);
    CStrWhole(m.body);
    if m.version == HTTP_1_1 {
      ChunkedBodyRead(s, len, begin, d.message, m, rest);
    } else {
      assert s[begin..begin + |m.body|] == s[begin..][..|m.body|] == m.body;
    }
  }

  lemma ChunkedBodyRead(s: string, len: nat, begin: nat, r: Message, m: Message, rest: string)
    requires begin <= |s| && len <= |s| && m.version == HTTP_1_1 && CStr(m.body) == m.body && |m.body| < 0x8000_0000
    requires s[begin..] == ResponseBody(m) + rest && |s| - |rest| <= len && r.body == ""
    ensures Chunks(s, len, begin, r) == Done(r.(body := m.body), |s| - |rest| - (if m.body == "" then 5 else 0))
  {
    hide Chunks, Print, ScanHex, ChunkText, Plain, CStr;
    var n := Print(|m.body|, HEX);
    ScanHexPrint(|m.body|);
    PrintShape(|m.body|, HEX);
    if m.body == "" {
      hide ResponseBody;
      EmptyText(m, n, rest);
      EmptyRead(s, len, begin, r, n, rest);
    } else {
      hide ResponseBody;
      ChunkedText(m, Chunk(n, m.body), rest);
      OneRead(s, len, begin, r, Chunk(n, m.body), rest);
    }
  }

  lemma EmptyText(m: Message, n: string, rest: string)
    requires m.version == HTTP_1_1 && m.body == "" && n == Print(|m.body|, HEX)
    ensures ResponseBody(m) + rest == n + CRLF + (CRLF + ("0\r\n\r\n" + rest))
  {
    hide Print;
    assert CStr("") == "";
  }

  lemma ChunkedText(m: Message, c: Chunk, rest: string)
    requires m.version == HTTP_1_1 && CStr(m.body) == m.body && c == Chunk(Print(|m.body|, HEX), m.body)
    ensures ResponseBody(m) + rest == ChunkText(c) + ("0" + CRLF + (CRLF + rest))
  {
    hide Print, CStr;
  }

  /** An empty body is written as two chunks of size 0, and the first one ends it. */
  lemma EmptyRead(s: string, len: nat, begin: nat, r: Message, n: string, rest: string)
    requires begin <= |s| && len <= |s| && LastOk(n) && r.body == "" && |s| - |rest| <= len
    requires s[begin..] == n + CRLF + (CRLF + ("0\r\n\r\n" + rest))
    ensures Chunks(s, len, begin, r) == Done(r, |s| - |rest| - 5)
  {
    hide Chunks, LastOk;
    var left := "0\r\n\r\n" + rest;
    assert ChunksText([]) + (n + CRLF + (CRLF + left)) == n + CRLF + (CRLF + left);
    ChunksDecode(s, len, begin, r, [], n, left);
    assert r.body + Joined([]) == "";
  }

  lemma OneRead(s: string, len: nat, begin: nat, r: Message, c: Chunk, rest: string)
    requires begin <= |s| && len <= |s| && ChunkOk(c) && r.body == "" && |s| - |rest| <= len
    requires s[begin..] == ChunkText(c) + ("0" + CRLF + (CRLF + rest))
    ensures Chunks(s, len, begin, r) == Done(r.(body := c.data), |s| - |rest|)
  {
    hide Chunks, LastOk, ChunkOk, ChunkText;
    ZeroSize();
    OneChunkList(c);
    ChunksDecode(s, len, begin, r, [c], "0", rest);
    assert r.body + c.data == c.data;
  }

  lemma OneChunkList(c: Chunk)
    ensures ChunksText([c]) == ChunkText(c) && Joined([c]) == c.data
  {
    hide ChunkText;
    assert [c][1..] == [];
    assert ChunkText(c) + "" == ChunkText(c) && c.data + "" == c.data;
  }

  lemma ZeroSize()
    ensures LastOk("0")
  {
    assert Print(0, HEX) == "0";
    ScanHexPrint(0);
  }
}
