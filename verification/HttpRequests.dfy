/**
 Requests: each one written is read back, and a stream of them falls apart into exactly the messages written.
 */
module HttpRequests {
  import opened Wrappers
  import opened HttpText
  import opened HttpDecoder
  import opened HttpEncoder
  import opened HttpRoundTrip
  import opened HttpStart
  import opened HttpMessages

  /** The method a request goes out with. */
  function VerbOf(m: Message): string {
    if m.verb == "" then "GET" else m.verb
  }

  ghost predicate Sound(m: Message, order: seq<string>) {
    && CleanHeaders(m.headers, order, REQUEST_DEFAULTS)
    && KnownVerb(VerbOf(m))
    && Plain(m.url) && ' ' !in m.url
    && NUL !in m.body && |m.body| < 0x8000_0000
  }

  /** The same method, path, version, connection and body, and the message's own headers under names in lower case. */
  ghost predicate CameBack(r: Message, m: Message) {
    && !r.response && r.verb == VerbOf(m) && r.url == TargetOf(m.url).path
    && r.version == m.version && r.keepalive == m.keepalive && r.body == m.body
    && Recalls(r.headers, m.headers)
  }

  // ---------------------------------------------------------------- the address

  lemma {:induction false} CStrPart(s: string)
    requires Plain(s)
    ensures CStr(s) == s
  {
    CStrWhole(s);
  }

  lemma PlainPart(s: string, i: nat, j: nat)
    requires Plain(s) && ' ' !in s && i <= j <= |s|
    ensures Plain(s[i..j]) && ' ' !in s[i..j]
  {
  }

  lemma TargetClean(url: string)
    requires Plain(url) && ' ' !in url
    ensures var t := TargetOf(url);
            && t.path != "" && NUL !in t.path && ' ' !in t.path
            && (t.host != "" ==> Clean(Header("Host", t.host)))
  {
    CStrPart(url);
    hide CStr, LowerAll, FindChar;
    if Begins(url, "http://") {
      var rest := url[7..];
      var i := FindChar(rest, '/');
      PlainPart(url, 7, |url|);
      assert url[7..|url|] == rest;
      PlainPart(rest, 0, i);
      assert rest[0..i] == rest[..i];
      PlainPart(rest, i, |rest|);
      assert rest[i..|rest|] == rest[i..];
      CStrPart(rest[i..]);
      if rest[..i] != "" {
        HostClean(rest[..i]);
      }
    }
  }

  lemma HostClean(host: string)
    requires Plain(host) && ' ' !in host && host != ""
    ensures Clean(Header("Host", host))
  {
  }

  // ---------------------------------------------------------------- the headers

  function HostLine(m: Message): seq<Header> {
    var host := TargetOf(m.url).host;
    if host != "" then [Header("Host", host)] else []
  }

  function LengthLine(m: Message): seq<Header> {
    if m.body != "" then [ContentLength(m.body)] else []
  }

  /** The headers written after a request's own. */
  function Trailing(m: Message): seq<Header> {
    [HttpEncoder.Connection(m.keepalive)] + Missing(REQUEST_DEFAULTS, m.headers) + LengthLine(m)
  }

  lemma RequestParts(m: Message, order: seq<string>)
    requires forall k :: k in order ==> k in m.headers
    ensures RequestHeaders(m, order) == HostLine(m) + Own(m.headers, order) + Trailing(m)
  {
    hide Own, Missing, TargetOf;
  }

  lemma HostFixed(m: Message)
    requires Plain(m.url) && ' ' !in m.url
    ensures AllClean(HostLine(m)) && AllNeutral(HostLine(m))
  {
    hide TargetOf, Clean, Neutral;
    TargetClean(m.url);
    var host := TargetOf(m.url).host;
    if host != "" {
      ShortName(Header("Host", host));
    }
  }

  lemma RequestHeadersClean(m: Message, order: seq<string>)
    requires Sound(m, order)
    requires forall k :: k in order ==> k in m.headers
    ensures AllClean(RequestHeaders(m, order)) && RequestHeaders(m, order) != []
  {
    hide Clean, Neutral, Own, Missing, HostLine, KnownVerb, CleanHeaders, RequestHeaders;
    RequestParts(m, order);
    HostFixed(m);
    OwnClean(m.headers, order, REQUEST_DEFAULTS);
    ConnectionClean(m.keepalive);
    DefaultsFixed(m.headers);
    LengthClean(m.body);
  }

  lemma RequestHeadersTell(m: Message, order: seq<string>, m0: Message)
    requires Sound(m, order)
    requires forall k :: k in order ==> k in m.headers
    ensures Told(AddAll(Draft(m0, 0, false), RequestHeaders(m, order)), m0, m.keepalive, |m.body|, false)
  {
    hide Clean, Own, Missing, HostLine, CleanHeaders, RequestHeaders, AllNeutral, AllClean, LowerAll, AddHeader, AddAll;
    hide KnownVerb;
    var start, c, missing := HostLine(m) + Own(m.headers, order), HttpEncoder.Connection(m.keepalive),
      Missing(REQUEST_DEFAULTS, m.headers);
    var d0 := Draft(m0, 0, false);
    RequestParts(m, order);
    HostFixed(m);
    OwnClean(m.headers, order, REQUEST_DEFAULTS);
    BothNeutral(HostLine(m), Own(m.headers, order));
    NeutralHeaders(d0, start);
    AddAllEnd(d0, start, c);
    ConnectionHeader(AddAll(d0, start), m.keepalive);
    DefaultsNeutral(m.headers);
    AddAllJoin(d0, start + [c], missing);
    NeutralHeaders(AddAll(d0, start + [c]), missing);
    var all := start + [c] + missing;
    assert RequestHeaders(m, order) == all + LengthLine(m);
    if m.body == "" {
      assert all + [] == all;
    } else {
      AddAllEnd(d0, all, ContentLength(m.body));
      LengthHeader(AddAll(d0, all), m.body);
    }
  }

  lemma BothNeutral(a: seq<Header>, b: seq<Header>)
    requires AllNeutral(a) && AllNeutral(b)
    ensures AllNeutral(a + b)
  {
    hide Neutral;
  }

  lemma DefaultsNeutral(headers: map<string, string>)
    ensures AllNeutral(Missing(REQUEST_DEFAULTS, headers))
  {
    hide Missing, Neutral, Clean;
    DefaultsFixed(headers);
  }

  lemma TrailingDiffers(m: Message, order: seq<string>, k: string)
    requires CleanHeaders(m.headers, order, REQUEST_DEFAULTS) && k in m.headers
    ensures Differ(Trailing(m), k)
  {
    hide CleanHeaders, Missing, LowerAll;
    MissingDiffers(m.headers, order, REQUEST_DEFAULTS, k);
    ReservedDiffers(m.headers, order, REQUEST_DEFAULTS, k);
    FixedNames();
    var missing := Missing(REQUEST_DEFAULTS, m.headers);
    var c := HttpEncoder.Connection(m.keepalive);
    assert Differ([c], k);
    DifferBoth([c], missing, k);
    if m.body == "" {
      assert Trailing(m) == [c] + missing;
    } else {
      DifferMore([c] + missing, ContentLength(m.body), k);
    }
  }

  lemma DifferBoth(a: seq<Header>, b: seq<Header>, k: string)
    requires Differ(a, k) && Differ(b, k)
    ensures Differ(a + b, k)
  {
    hide LowerAll;
  }

  lemma RequestRecalls(m: Message, order: seq<string>, r: map<string, string>)
    requires CleanHeaders(m.headers, order, REQUEST_DEFAULTS)
    requires forall l :: l in order ==> l in m.headers
    requires Collects(r, RequestHeaders(m, order))
    ensures Recalls(r, m.headers)
  {
    hide CleanHeaders, RequestHeaders, LowerAll, Last, Collects, Own, Trailing, HostLine;
    RequestParts(m, order);
    forall k | k in m.headers ensures LowerAll(k) in r && r[LowerAll(k)] == m.headers[k] {
      TrailingDiffers(m, order, k);
      OwnFound(m.headers, order, REQUEST_DEFAULTS, HostLine(m), Trailing(m), k);
      Collected(r, RequestHeaders(m, order), LowerAll(k));
    }
  }

  // ---------------------------------------------------------------- a request, there and back

  lemma EncodedRequest(m: Message, order: seq<string>, rest: string)
    requires forall k :: k in order ==> k in m.headers
    requires CStr(m.verb) == m.verb && CStr(m.body) == m.body
    ensures var first := RequestText(VerbOf(m), TargetOf(m.url).path, m.version);
            && EncodeRequest(m, order) + rest == first + Lines(RequestHeaders(m, order)) + CRLF + (m.body + rest)
            && |EncodeRequest(m, order)| == |first| + |Lines(RequestHeaders(m, order))| + 2 + |m.body|
  {
    hide TargetOf, Lines, RequestHeaders;
  }

  lemma VerbsPlain(w: string)
    requires w in VERBS
    ensures NUL !in w
  {
  }

  lemma LowerNul(s: string)
    requires NUL in s
    ensures NUL in LowerAll(s)
  {
    var i :| 0 <= i < |s| && s[i] == NUL;
    assert LowerAll(s)[i] == NUL;
  }

  lemma VerbPlain(m: Message)
    requires KnownVerb(VerbOf(m))
    ensures CStr(m.verb) == m.verb
  {
    CStrWhole(m.verb);
    VerbsPlain(LowerAll(VerbOf(m)));
    if NUL in m.verb {
      LowerNul(m.verb);
    }
  }

  lemma SoundText(m: Message, order: seq<string>)
    requires Sound(m, order)
    ensures CStr(m.verb) == m.verb && CStr(m.body) == m.body
  {
    VerbPlain(m);
    CStrWhole(m.body);
  }

  lemma RequestNotShort(m: Message, order: seq<string>)
    requires forall k :: k in order ==> k in m.headers
    ensures |Lines(RequestHeaders(m, order))| >= 16
  {
    hide Own, Missing, TargetOf;
    RequestParts(m, order);
    var hs, n := RequestHeaders(m, order), |HostLine(m)| + |Own(m.headers, order)|;
    assert hs[n] == HttpEncoder.Connection(m.keepalive);
    LinesAtLeast(hs, n);
    assert |Line(hs[n])| >= 16;
  }

  /** The message as the request line begins it. */
  function Asked(m: Message): Message {
    BLANK.(verb := VerbOf(m), url := TargetOf(m.url).path, version := m.version, keepalive := m.version == HTTP_1_1)
  }

  /** The draft a reader has when it comes to the body of a request. */
  function RequestDraft(m: Message, order: seq<string>): Draft
    requires forall k :: k in order ==> k in m.headers
  {
    AddAll(Draft(Asked(m), 0, false), RequestHeaders(m, order))
  }

  function FirstLine(m: Message): string {
    RequestText(VerbOf(m), TargetOf(m.url).path, m.version)
  }

  lemma RequestHeadRead(m: Message, order: seq<string>, rest: string, len: nat)
    requires Sound(m, order)
    requires forall k :: k in order ==> k in m.headers
    requires var text := EncodeRequest(m, order); |text| <= len <= |text + rest|
    ensures var s, begin := EncodeRequest(m, order) + rest, |EncodeRequest(m, order)| - |m.body|;
            0 <= begin <= |s| && s[begin..] == m.body + rest
            && Decode(s, len) == Body(s, len, begin, RequestDraft(m, order))
  {
    hide StartLine, Lines, RequestHeaders, EncodeRequest, Body, AddAll, Sound, Decode, FirstLine, Asked, AllClean;
    RequestShape(m, order, rest, len);
    RequestHeadersClean(m, order);
    HeadRead(EncodeRequest(m, order) + rest, len, FirstLine(m), RequestHeaders(m, order), Asked(m), m.body + rest);
  }

  lemma RequestShape(m: Message, order: seq<string>, rest: string, len: nat)
    requires Sound(m, order)
    requires forall k :: k in order ==> k in m.headers
    requires var text := EncodeRequest(m, order); |text| <= len <= |text + rest|
    ensures var s, lines := EncodeRequest(m, order) + rest, Lines(RequestHeaders(m, order));
            && s == FirstLine(m) + lines + CRLF + (m.body + rest)
            && |EncodeRequest(m, order)| == |FirstLine(m)| + |lines| + 2 + |m.body|
            && 16 <= len <= |s| && StartLine(s, len) == Start(Asked(m), |FirstLine(m)|)
  {
    SoundText(m, order);
    hide StartLine, Lines, RequestHeaders, EncodeRequest, Sound, TargetOf, RequestText, Asked;
    EncodedRequest(m, order, rest);
    RequestNotShort(m, order);
    var lines, tail := Lines(RequestHeaders(m, order)), m.body + rest;
    Regroup(FirstLine(m), lines, tail);
    RequestStart(m, order, lines + CRLF + tail, len);
  }

  lemma Regroup(first: string, lines: string, tail: string)
    ensures first + lines + CRLF + tail == first + (lines + CRLF + tail)
  {
  }

  lemma RequestStart(m: Message, order: seq<string>, more: string, len: nat)
    requires Sound(m, order)
    requires var first := RequestText(VerbOf(m), TargetOf(m.url).path, m.version);
             16 <= len <= |first + more| && |first| <= len
    ensures var first := RequestText(VerbOf(m), TargetOf(m.url).path, m.version);
            StartLine(first + more, len) == Start(Asked(m), |first|)
  {
    hide StartLine, KnownVerb, TargetOf, RequestText, CleanHeaders;
    TargetClean(m.url);
    var first := RequestText(VerbOf(m), TargetOf(m.url).path, m.version);
    assert Received(first + more, len, first);
    RequestLineRead(VerbOf(m), TargetOf(m.url).path, m.version, first + more, len);
  }

  lemma RequestDraftBack(m: Message, order: seq<string>)
    requires Sound(m, order)
    requires forall k :: k in order ==> k in m.headers
    ensures var d := RequestDraft(m, order);
            d.contentLength == |m.body| && !d.chunked && d.message.body == "" && CameBack(d.message.(body := m.body), m)
  {
    hide Lines, RequestHeaders, CleanHeaders, AddAll, Recalls, Collects, TargetOf, KnownVerb;
    var hs := RequestHeaders(m, order);
    var m0 := Asked(m);
    RequestHeadersTell(m, order, m0);
    AddAllCollects(Draft(m0, 0, false), hs);
    RequestRecalls(m, order, AddAll(Draft(m0, 0, false), hs).message.headers);
  }

  /** Whatever follows it in the buffer, a request written is the request read, and reading stops exactly at its end. */
  lemma RequestRoundTrip(m: Message, order: seq<string>, rest: string, len: nat)
    requires Sound(m, order)
    requires forall k :: k in order ==> k in m.headers
    requires var text := EncodeRequest(m, order); |text| <= len <= |text + rest|
    ensures var text := EncodeRequest(m, order);
            var r := Decode(text + rest, len);
            r.Done? && CameBack(r.message, m) && r.end == |text| && |text| > 0
  {
    hide Decode, EncodeRequest, RequestDraft, CameBack, CleanHeaders, KnownVerb;
    var s, begin := EncodeRequest(m, order) + rest, |EncodeRequest(m, order)| - |m.body|;
    RequestHeadRead(m, order, rest, len);
    RequestDraftBack(m, order);
    RequestNotEmpty(m, order);
    assert s[begin..begin + |m.body|] == s[begin..][..|m.body|] == m.body;
  }

  lemma RequestNotEmpty(m: Message, order: seq<string>)
    requires forall k :: k in order ==> k in m.headers
    ensures |EncodeRequest(m, order)| > 0
  {
    hide Lines, RequestHeaders, TargetOf;
  }

  // ---------------------------------------------------------------- when a request is complete

  /**
   When the last character of a request's head arrives, the decoder is still waiting exactly if there was no header
   line, or one that says how much body is still to come; whatever is in memory behind it.
   */
  lemma HeadWaits(verb: string, path: string, v: Version, hs: seq<Header>, memory: string)
    requires KnownVerb(verb) && NUL !in path && ' ' !in path && AllClean(hs)
    requires !Gathered(verb, path, v, hs).chunked
    ensures var head := RequestText(verb, path, v) + Lines(hs) + CRLF;
            Decode(head + memory, |head|) == Incomplete <==> hs == [] || Gathered(verb, path, v, hs).contentLength > 0
  {
    hide StartLine, RequestText, KnownVerb, HeaderLines, AddAll, Lines, Received, AllClean, FindBlank;
    var first, lines := RequestText(verb, path, v), Lines(hs);
    var head := first + lines + CRLF;
    var s := head + memory;
    if hs == [] {
      assert lines == "" by { NoLine(); }
      assert head == first + CRLF;
      assert Received(s, |head|, first + CRLF) by { Arrived(first + CRLF, memory); }
      HeadlessIncomplete(verb, path, v, s, |head|);
    } else {
      var more := lines + (CRLF + memory);
      assert s == first + more by { Regroup(first, lines, memory); }
      assert s[|first|..] == more;
      ArrivedFirst(s, first, more, |head|);
      LinesLong(hs);
      RequestLong(verb, path, v);
      RequestLineRead(verb, path, v, s, |head|);
      LinesRead(Bare(verb, path, v), hs, memory);
    }
  }

  /** What a request line and header lines come to. */
  function Gathered(verb: string, path: string, v: Version, hs: seq<Header>): Draft {
    AddAll(Bare(verb, path, v), hs)
  }

  function Bare(verb: string, path: string, v: Version): Draft {
    Draft(BLANK.(verb := verb, url := path, version := v, keepalive := v == HTTP_1_1), 0, false)
  }

  lemma NoLine()
    ensures Lines([]) == ""
  {
  }

  lemma LinesLong(hs: seq<Header>)
    requires hs != []
    ensures |Lines(hs)| >= 4
  {
    assert |Line(hs[0])| >= 4;
  }

  lemma RequestLong(verb: string, path: string, v: Version)
    requires KnownVerb(verb)
    ensures |RequestText(verb, path, v)| >= 12
  {
    VerbShort(verb);
    TextParts(verb, path, v);
  }

  lemma Arrived(text: string, memory: string)
    ensures Received(text + memory, |text|, text)
  {
  }

  lemma ArrivedFirst(s: string, first: string, more: string, len: nat)
    requires s == first + more && |first| <= len
    ensures Received(s, len, first)
  {
  }

  // ---------------------------------------------------------------- streams of requests

  datatype Stream = Stream(messages: seq<Message>, rest: string)

  /** Messages taken off the front of `s` until it is used up or the next one cannot be. */
  function DecodeAll(s: string): Stream
    decreases |s|
  {
    if s == "" then Stream([], "")
    else
      var r := Decode(s, |s|);
      if r.Done? && 0 < r.end <= |s| then
        var more := DecodeAll(s[r.end..]);
        Stream([r.message] + more.messages, more.rest)
      else Stream([], s)
  }

  /** A request, and an order of its headers. */
  datatype Sent = Sent(message: Message, order: seq<string>)

  ghost predicate SentOk(r: Sent) {
    Sound(r.message, r.order) && forall k :: k in r.order ==> k in r.message.headers
  }

  ghost predicate AllSentOk(rs: seq<Sent>) {
    forall r :: r in rs ==> SentOk(r)
  }

  ghost function Written(rs: seq<Sent>): string
    requires AllSentOk(rs)
  {
    if rs == [] then ""
    else
      assert SentOk(rs[0]);
      EncodeRequest(rs[0].message, rs[0].order) + Written(rs[1..])
  }

  /**
   Requests written one after another are read one after another: each decoding stops at the next one's first byte.
   */
  lemma {:induction false} RequestsSelfDelimiting(rs: seq<Sent>)
    requires AllSentOk(rs)
    ensures var all := DecodeAll(Written(rs));
            && all.rest == "" && |all.messages| == |rs|
            && forall i :: 0 <= i < |rs| ==> CameBack(all.messages[i], rs[i].message)
  {
    hide Sound, EncodeRequest, Decode, CameBack;
    if rs != [] {
      var r, s := rs[0], Written(rs);
      assert SentOk(r);
      var text, rest := EncodeRequest(r.message, r.order), Written(rs[1..]);
      RequestRoundTrip(r.message, r.order, rest, |s|);
      assert s[|text|..] == rest;
      assert forall q :: q in rs[1..] ==> q in rs;
      RequestsSelfDelimiting(rs[1..]);
      var all, more := DecodeAll(s), DecodeAll(rest);
      forall i | 0 <= i < |rs| ensures CameBack(all.messages[i], rs[i].message) {
        if i > 0 {
          assert CameBack(more.messages[i - 1], rs[1..][i - 1].message);
        }
      }
    }
  }
}
