/**
 When a message is complete, and which headers every message carries.
 */
module HttpBodies {
  import opened Wrappers
  import opened HttpText
  import opened HttpDecoder
  import opened HttpEncoder
  import opened HttpRoundTrip
  import opened HttpStart
  import opened HttpMessages
  import opened HttpRequests
  import opened HttpTargets

  // ---------------------------------------------------------------- waiting for the body

  /**
   A request with header lines and no chunks is complete exactly when as much body has arrived as its headers say; it
   is then the body, and reading stops behind it.
   */
  lemma BodyArrives(verb: string, path: string, v: Version, hs: seq<Header>, memory: string, len: nat)
    requires KnownVerb(verb) && NUL !in path && ' ' !in path && AllClean(hs) && hs != []
    requires var d := Gathered(verb, path, v, hs); !d.chunked && d.contentLength >= 0
    requires var head := RequestText(verb, path, v) + Lines(hs) + CRLF; |head| <= len <= |head + memory|
    ensures var head, d := RequestText(verb, path, v) + Lines(hs) + CRLF, Gathered(verb, path, v, hs);
            var r := Decode(head + memory, len);
            if |head| + d.contentLength > len then r == Incomplete
            else r == Done(d.message.(body := memory[..d.contentLength]), |head| + d.contentLength)
  {
    hide StartLine, RequestText, KnownVerb, HeaderLines, AddAll, Lines, Received, AllClean, FindBlank, Decode;
    var first, lines := RequestText(verb, path, v), Lines(hs);
    var head := first + lines + CRLF;
    var s, more := head + memory, lines + (CRLF + memory);
    assert s == first + more by { HttpRequests.Regroup(first, lines, memory); }
    ArrivedFirst(s, first, more, len);
    LinesLong(hs);
    RequestLong(verb, path, v);
    RequestLineRead(verb, path, v, s, len);
    HeadRead(s, len, first, hs, Bare(verb, path, v).message, memory);
    NoBodyYet(verb, path, v, hs);
    var d := Gathered(verb, path, v, hs);
    if |head| + d.contentLength <= len {
      assert s[|head|..|head| + d.contentLength] == memory[..d.contentLength];
      assert d.contentLength == 0 ==> d.message == d.message.(body := memory[..0]);
    }
  }

  lemma NoBodyYet(verb: string, path: string, v: Version, hs: seq<Header>)
    ensures Gathered(verb, path, v, hs).message.body == ""
  {
    hide AddHeader;
    BodyKept(Bare(verb, path, v), hs);
  }

  lemma {:induction false} BodyKept(d: Draft, hs: seq<Header>)
    ensures AddAll(d, hs).message.body == d.message.body
    decreases |hs|
  {
    hide LowerAll, Atoi, UpToComma;
    if hs != [] {
      BodyKept(AddHeader(d, LowerAll(hs[0].key), hs[0].value), hs[1..]);
    }
  }

  /** A chunk that has not wholly arrived is waited for, whatever is in memory behind it. */
  lemma ChunkWaits(s: string, len: nat, begin: nat, m: Message, size: string, n: nat, memory: string)
    requires Plain(size) && ScanHex(size) == Some(n) && n > 0
    requires begin <= len <= |s| && s[begin..] == size + CRLF + memory && len < begin + |size| + 2 + n
    ensures Chunks(s, len, begin, m) == Incomplete
  {
    hide ScanHex, FindCrLf;
    LineScanned(size, memory);
  }

  /** Where a chunk should begin, anything but a size is illegal. */
  lemma SizeMissing(s: string, len: nat, begin: nat, m: Message)
    requires begin <= len <= |s| && begin < |s|
    requires var c := s[begin]; !IsDigit(c, HEX) && !IsSpace(c) && c != '+' && c != '-'
    ensures Chunks(s, len, begin, m) == Illegal
  {
    hide FindCrLf, IsSpace, IsDigit;
    var t := s[begin..];
    assert t[0] == s[begin];
    assert IsDigit('0', HEX) by { ZeroIsDigit(); }
    assert ScanHex(t) == None;
  }

  lemma ZeroIsDigit()
    ensures IsDigit('0', HEX)
  {
  }

  // ---------------------------------------------------------------- headers that are always there

  predicate NoneNamed(headers: map<string, string>, name: string) {
    forall k :: k in headers ==> LowerAll(k) != name
  }

  lemma DefaultNames()
    ensures LowerAll("User-Agent") == "user-agent" && LowerAll("Cache-Control") == "cache-control"
    ensures LowerAll("Content-Type") == "content-type" && LowerAll("Server") == "server" && LowerAll("Date") == "date"
  {
    hide LowerAll;
    Lowered("User-Agent", "user-agent");
    Lowered("Cache-Control", "cache-control");
    Lowered("Content-Type", "content-type");
    Lowered("Server", "server");
    Lowered("Date", "date");
  }

  /** The headers of one list that a message carries in any case differ in their names. */
  lemma NamesOf(hs: seq<Header>, h: Header, name: string)
    requires h in hs && LowerAll(h.key) == name && forall g :: g in hs && LowerAll(g.key) == name ==> g == h
    ensures Last(hs, name) == Some(h.value)
  {
    hide LowerAll;
    LastOf(hs, h);
  }

  const USER_AGENT := Header("User-Agent", "ApeHttpClient")
  const CACHE_CONTROL := Header("Cache-Control", "no-cache")
  const CONTENT_TYPE := Header("Content-Type", "text/html; charset=utf-8")
  const SERVER := Header("Server", "Ape Http Server 1.0")

  lemma RequestTrails(m: Message)
    ensures var hs := Trailing(m);
            && Last(hs, "connection") == Some(if m.keepalive then "Keep-Alive" else "Close")
            && (NoneNamed(m.headers, "user-agent") ==> Last(hs, "user-agent") == Some("ApeHttpClient"))
            && (m.body != "" ==> Last(hs, "content-length") == Some(Print(|m.body|, DECIMAL)))
  {
    hide LowerAll, Print, Last;
    DefaultNames();
    FixedNames();
    MissingFrom(REQUEST_DEFAULTS, m.headers);
    var hs, c := Trailing(m), HttpEncoder.Connection(m.keepalive);
    NamesApart();
    forall g | g in hs ensures g == c || g == USER_AGENT || (m.body != "" && g == ContentLength(m.body)) {}
    NamesOf(hs, c, "connection");
    if NoneNamed(m.headers, "user-agent") {
      assert USER_AGENT in Missing(REQUEST_DEFAULTS, m.headers);
      NamesOf(hs, USER_AGENT, "user-agent");
    }
    if m.body != "" {
      NamesOf(hs, ContentLength(m.body), "content-length");
    }
  }

  lemma NamesApart()
    ensures |"connection"| == 10 && |"user-agent"| == 10 && |"content-length"| == 14 && |"cache-control"| == 13
    ensures |"content-type"| == 12 && |"server"| == 6 && |"date"| == 4 && |"transfer-encoding"| == 17
    ensures "connection" != "user-agent"
  {
    assert "connection"[0] == 'c' && "user-agent"[0] == 'u';
  }

  lemma ResponseTrails(m: Message, date: string)
    ensures var hs := After(m, date);
            && Last(hs, "connection") == Some(if m.keepalive then "Keep-Alive" else "Close")
            && Last(hs, "date") == Some(date)
            && (NoneNamed(m.headers, "cache-control") ==> Last(hs, "cache-control") == Some(CACHE_CONTROL.value))
            && (NoneNamed(m.headers, "content-type") ==> Last(hs, "content-type") == Some(CONTENT_TYPE.value))
            && (NoneNamed(m.headers, "server") ==> Last(hs, "server") == Some(SERVER.value))
            && if m.version == HTTP_1_1 then Last(hs, "transfer-encoding") == Some("chunked")
               else Last(hs, "content-length") == Some(Print(|m.body|, DECIMAL))
  {
    hide LowerAll, Print, Last, After, NoneNamed;
    DefaultNames();
    FixedNames();
    NamesApart();
    var hs, c := After(m, date), HttpEncoder.Connection(m.keepalive);
    AfterHas(m, date);
    NamesOf(hs, c, "connection");
    NamesOf(hs, Header("Date", date), "date");
    NamesOf(hs, Tail(m), if m.version == HTTP_1_1 then "transfer-encoding" else "content-length");
    if NoneNamed(m.headers, "cache-control") {
      NamesOf(hs, CACHE_CONTROL, "cache-control");
    }
    if NoneNamed(m.headers, "content-type") {
      NamesOf(hs, CONTENT_TYPE, "content-type");
    }
    if NoneNamed(m.headers, "server") {
      NamesOf(hs, SERVER, "server");
    }
  }

  lemma AfterHas(m: Message, date: string)
    ensures var hs := After(m, date);
            && HttpEncoder.Connection(m.keepalive) in hs && Header("Date", date) in hs && Tail(m) in hs
            && (NoneNamed(m.headers, "cache-control") ==> CACHE_CONTROL in hs)
            && (NoneNamed(m.headers, "content-type") ==> CONTENT_TYPE in hs)
            && (NoneNamed(m.headers, "server") ==> SERVER in hs)
            && forall g :: g in hs ==>
                 || g == HttpEncoder.Connection(m.keepalive) || g == Header("Date", date) || g == Tail(m)
                 || g == CACHE_CONTROL || g == CONTENT_TYPE || g == SERVER
  {
    hide LowerAll, Print;
    DefaultNames();
    var missing := Missing(RESPONSE_DEFAULTS, m.headers);
    assert forall g :: g in missing ==> g in RESPONSE_DEFAULTS;
    assert CACHE_CONTROL in RESPONSE_DEFAULTS && CONTENT_TYPE in RESPONSE_DEFAULTS && SERVER in RESPONSE_DEFAULTS by {
      assert RESPONSE_DEFAULTS[0] == CACHE_CONTROL && RESPONSE_DEFAULTS[1] == CONTENT_TYPE;
      assert RESPONSE_DEFAULTS[2] == SERVER;
    }
  }

  /** A request carries its connection and its length, and names the client unless the message does so itself. */
  lemma RequestCarries(m: Message, order: seq<string>, rest: string, len: nat)
    requires HttpRequests.Sound(m, order)
    requires forall k :: k in order ==> k in m.headers
    requires var text := EncodeRequest(m, order); |text| <= len <= |text + rest|
    ensures var r := Decode(EncodeRequest(m, order) + rest, len);
            r.Done? &&
            var hs := r.message.headers;
            && "connection" in hs && hs["connection"] == (if m.keepalive then "Keep-Alive" else "Close")
            && (NoneNamed(m.headers, "user-agent") ==> "user-agent" in hs && hs["user-agent"] == "ApeHttpClient")
            && (m.body != "" ==> "content-length" in hs && hs["content-length"] == Print(|m.body|, DECIMAL))
  {
    hide Decode, EncodeRequest, RequestHeaders, KnownVerb, CleanHeaders, TargetOf, Last, LowerAll, Print, Collects;
    RequestCollects(m, order, rest, len);
    RequestParts(m, order);
    RequestTrails(m);
    var before, r := HostLine(m) + Own(m.headers, order), Decode(EncodeRequest(m, order) + rest, len).message.headers;
    Wins(r, before, Trailing(m), "connection");
    Wins(r, before, Trailing(m), "user-agent");
    Wins(r, before, Trailing(m), "content-length");
  }

  lemma Wins(r: map<string, string>, before: seq<Header>, after: seq<Header>, name: string)
    requires Collects(r, before + after)
    ensures Last(after, name).Some? ==> name in r && r[name] == Last(after, name).value
  {
    hide Last, Collects;
    if Last(after, name).Some? {
      LastWins(before, after, name);
      Collected(r, before + after, name);
    }
  }

  /**
   A response carries its connection, its date and how its length is told, and the server's own headers unless it has
   them.
   */
  lemma ResponseCarries(m: Message, order: seq<string>, date: string, rest: string, len: nat)
    requires Sendable(m, order, RESPONSE_DEFAULTS) && DateOk(date)
    requires forall k :: k in order ==> k in m.headers
    requires var text := EncodeResponse(m, order, date); |text| <= len <= |text + rest|
    ensures var r := Decode(EncodeResponse(m, order, date) + rest, len);
            r.Done? &&
            var hs := r.message.headers;
            && "connection" in hs && hs["connection"] == (if m.keepalive then "Keep-Alive" else "Close")
            && "date" in hs && hs["date"] == date
            && (if m.version == HTTP_1_1 then "transfer-encoding" in hs && hs["transfer-encoding"] == "chunked"
                else "content-length" in hs && hs["content-length"] == Print(|m.body|, DECIMAL))
            && (NoneNamed(m.headers, "cache-control") ==>
                  "cache-control" in hs && hs["cache-control"] == CACHE_CONTROL.value)
            && (NoneNamed(m.headers, "content-type") ==>
                  "content-type" in hs && hs["content-type"] == CONTENT_TYPE.value)
            && (NoneNamed(m.headers, "server") ==> "server" in hs && hs["server"] == SERVER.value)
  {
    hide Decode, EncodeResponse, ResponseHeaders, CleanHeaders, DateOk, Last, LowerAll, Print, Collects, After;
    ResponseCollects(m, order, date, rest, len);
    ResponseParts(m, order, date);
    ResponseTrails(m, date);
    var before, after := [] + Own(m.headers, order), After(m, date);
    var r := Decode(EncodeResponse(m, order, date) + rest, len).message.headers;
    Wins(r, before, after, "connection");
    Wins(r, before, after, "date");
    Wins(r, before, after, "transfer-encoding");
    Wins(r, before, after, "content-length");
    Wins(r, before, after, "cache-control");
    Wins(r, before, after, "content-type");
    Wins(r, before, after, "server");
  }

  lemma ResponseCollects(m: Message, order: seq<string>, date: string, rest: string, len: nat)
    requires Sendable(m, order, RESPONSE_DEFAULTS) && DateOk(date)
    requires forall k :: k in order ==> k in m.headers
    requires var text := EncodeResponse(m, order, date); |text| <= len <= |text + rest|
    ensures var r := Decode(EncodeResponse(m, order, date) + rest, len);
            r.Done? && Collects(r.message.headers, ResponseHeaders(m, order, date))
  {
    OrderKnown(m.headers, order, RESPONSE_DEFAULTS);
    ResponseRoundTrip(m, order, date, rest, len);
    hide Decode, EncodeResponse, ResponseHeaders, ResponseHead, DateOk, CleanHeaders, Collects, Body, ResponseDraft;
    hide Returned, ResponseBody;
    ResponseHeadRead(m, order, date, rest, len);
    var s, begin := EncodeResponse(m, order, date) + rest, ResponseHead(m, order, date);
    BodyKeepsHeaders(s, len, begin, ResponseDraft(m, order, date, rest));
    DraftCollects(m, order, date, rest);
  }

  lemma DraftCollects(m: Message, order: seq<string>, date: string, rest: string)
    requires forall k :: k in order ==> k in m.headers
    ensures Collects(ResponseDraft(m, order, date, rest).message.headers, ResponseHeaders(m, order, date))
  {
    hide ResponseHeaders, Collects, AddAll, Begun, Lines, ResponseBody;
    var more := Lines(ResponseHeaders(m, order, date)) + CRLF + (ResponseBody(m) + rest);
    NoHeadersYet(m, more);
    AddAllCollects(Draft(Begun(m, more), 0, false), ResponseHeaders(m, order, date));
  }

  lemma BodyKeepsHeaders(s: string, len: nat, begin: nat, d: Draft)
    requires len <= |s| && begin <= |s|
    ensures var r := Body(s, len, begin, d); r.Done? ==> r.message.headers == d.message.headers
  {
    hide Chunks;
    ChunksKeepHeaders(s, len, begin, d.message);
  }

  lemma NoHeadersYet(m: Message, more: string)
    ensures Begun(m, more).headers == map[]
  {
    hide Atoi, GetStatus;
  }

  lemma {:induction false} ChunksKeepHeaders(s: string, len: nat, begin: nat, m: Message)
    requires len <= |s|
    ensures var r := Chunks(s, len, begin, m); r.Done? ==> r.message.headers == m.headers
    decreases len + 1 - begin
  {
    hide ScanHex;
    if begin <= len {
      var size := ScanHex(s[begin..]);
      var e := begin + FindCrLf(s[begin..]);
      if size.Some? && size.value > 0 && e < |s| && e + 2 + size.value <= len {
        ChunksKeepHeaders(s, len, e + 2 + size.value + 2, m.(body := m.body + s[e + 2..e + 2 + size.value]));
      }
    }
  }
}
