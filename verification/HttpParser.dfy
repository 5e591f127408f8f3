/**
 The HTTP parser object: its loops, proved to compute what the decoder and the encoders are.
 */
module HttpParser {
  import opened Wrappers
  import opened HttpText
  import opened HttpDecoder
  import opened HttpEncoder
  import HttpRequests
  import HttpTargets
  import opened Buffers

  /** Copies a text without the blanks around it, in lower case if asked. */
  method TrimText(buf: string, toLower: bool) returns (r: string)
    ensures r == if toLower then LowerAll(Trim(buf)) else Trim(buf)
  {
    hide LowerAll, TrimFront, TrimBack;
    if buf == "" {
      TrimNothing();
      return "";
    }
    var begin, end := 0, |buf| - 1;
    assert buf[0..] == buf;
    while begin < end && buf[begin] == ' '
      invariant begin <= end && TrimFront(buf) == TrimFront(buf[begin..])
    {
      TrimFrontStep(buf, begin);
      begin := begin + 1;
    }
    TrimFrontDone(buf, begin);
    while end > begin && buf[end] == ' '
      invariant begin <= end < |buf| && Trim(buf) == TrimBack(buf[begin..end + 1])
    {
      TrimBackStep(buf, begin, end);
      end := end - 1;
    }
    TrimBackDone(buf, begin, end);
    r := CopyText(buf, begin, end, toLower);
  }

  lemma TrimNothing()
    ensures Trim("") == "" == LowerAll("")
  {
  }

  lemma TrimFrontStep(buf: string, begin: nat)
    requires begin + 1 < |buf| && buf[begin] == ' '
    ensures TrimFront(buf[begin..]) == TrimFront(buf[begin + 1..])
  {
    assert buf[begin..][1..] == buf[begin + 1..];
  }

  lemma TrimFrontDone(buf: string, begin: nat)
    requires begin < |buf| && (begin == |buf| - 1 || buf[begin] != ' ')
    ensures TrimFront(buf[begin..]) == buf[begin..] == buf[begin..|buf| - 1 + 1]
  {
  }

  lemma TrimBackStep(buf: string, begin: nat, end: nat)
    requires begin < end < |buf| && buf[end] == ' '
    ensures TrimBack(buf[begin..end + 1]) == TrimBack(buf[begin..end - 1 + 1])
  {
    assert buf[begin..end + 1][..end - begin] == buf[begin..end];
  }

  lemma TrimBackDone(buf: string, begin: nat, end: nat)
    requires begin <= end < |buf| && (begin == end || buf[end] != ' ')
    ensures TrimBack(buf[begin..end + 1]) == buf[begin..end + 1]
  {
  }

  method CopyText(buf: string, begin: nat, end: nat, toLower: bool) returns (r: string)
    requires begin <= end < |buf|
    ensures r == if toLower then LowerAll(buf[begin..end + 1]) else buf[begin..end + 1]
  {
    hide LowerAll;
    ghost var core := buf[begin..end + 1];
    LowerPiece(core, 0);
    r := "";
    var p := begin;
    while p <= end
      invariant begin <= p <= end + 1
      invariant r == if toLower then LowerAll(core[..p - begin]) else core[..p - begin]
    {
      LowerPiece(core, p + 1 - begin);
      if toLower && 'A' <= buf[p] <= 'Z' {
        r := r + [((buf[p] as int) + 32) as char];
      } else {
        r := r + [buf[p]];
      }
      p := p + 1;
    }
    assert core[..end + 1 - begin] == core;
  }

  lemma LowerPiece(s: string, n: nat)
    requires n <= |s|
    ensures LowerAll("") == "" && s[..0] == ""
    ensures n > 0 ==> LowerAll(s[..n]) == LowerAll(s[..n - 1]) + [Lower(s[n - 1])] && s[..n] == s[..n - 1] + [s[n - 1]]
  {
    if n > 0 {
      assert s[..n] == s[..n - 1] + [s[n - 1]];
    }
  }

  class CHttpParser {
    var contentlen: int
    var ischunked: bool
    var defaultHeaderList: seq<string>

    constructor ()
      ensures contentlen == 0 && !ischunked
    {
      contentlen, ischunked, defaultHeaderList := 0, false, [];
    }

    function State(m: Message): Draft
      reads this
    {
      Draft(m, contentlen, ischunked)
    }

    method ParseHeader(key: string, value: string, message: Message) returns (m: Message)
      modifies this`contentlen, this`ischunked
      ensures State(m) == HttpDecoder.ParseHeader(old(State(message)), key, value)
    {
      hide LowerAll, Atoi;
      m := message;
      var k := LowerAll(key);
      if k == "connection" {
        if LowerAll(value) == "close" {
          m := m.(keepalive := false);
        } else if LowerAll(value) == "keep-alive" {
          m := m.(keepalive := true);
        }
      } else if k == "x-forwarded-for" {
        m := m.(forwarded := UpToComma(value));
      } else if k == "content-length" {
        contentlen := Atoi(value);
      } else if k == "transfer-encoding" && LowerAll(value) == "chunked" {
        ischunked := true;
      }
    }

    /** One line of the head. */
    method ReadLine(line: string, message: Message) returns (m: Message)
      modifies this`contentlen, this`ischunked
      ensures State(m) == HeaderLine(old(State(message)), line)
    {
      hide Trim, LowerAll, HttpDecoder.ParseHeader;
      m := message;
      var colon := FindChar(line, ':');
      if colon < |line| {
        var key := TrimText(line[..colon], true);
        var value := TrimText(line[colon + 1..], false);
        m := m.(headers := m.headers[key := value]);
        m := ParseHeader(key, value, m);
      }
    }

    /** Reads the lines from `begin` to the end of the head. */
    method ReadHeaders(buf: string, begin: nat, headend: nat, message: Message) returns (m: Message)
      requires begin <= headend <= |buf|
      modifies this`contentlen, this`ischunked
      ensures State(m) == HeaderLines(old(State(message)), buf[begin..], headend - begin)
    {
      hide FindCrLf, HeaderLine;
      m := message;
      var at := begin;
      var end := at + FindCrLf(buf[at..]);
      while end != |buf| && at < headend && end <= headend
        invariant at <= end <= |buf| && end == at + FindCrLf(buf[at..])
        invariant HeaderLines(old(State(message)), buf[begin..], headend - begin)
               == HeaderLines(State(m), buf[at..], headend - at)
        decreases |buf| - at
      {
        LineStep(State(m), buf, at, headend);
        m := ReadLine(buf[at..end], m);
        at := end + 2;
        FindCrLfRoom(buf[at..]);
        end := at + FindCrLf(buf[at..]);
      }
    }

    /** Reads chunks until one of size 0. */
    method ReadChunks(buf: string, len: nat, start: nat, message: Message) returns (r: Decoded)
      requires len <= |buf|
      ensures r == Chunks(buf, len, start, message)
    {
      hide ScanHex, FindCrLf;
      var begin, m := start, message;
      while begin <= len
        invariant Chunks(buf, len, start, message) == Chunks(buf, len, begin, m)
        decreases len + 1 - begin
      {
        var size := ScanHex(buf[begin..]);
        if size.None? || size.value < 0 {
          return Illegal;
        }
        var e := begin + FindCrLf(buf[begin..]);
        if e == |buf| {
          return Stray;
        }
        begin := e + 2;
        if size.value == 0 {
          return Done(m, begin + 2);
        }
        if begin + size.value > len {
          return Incomplete;
        }
        m := m.(body := m.body + buf[begin..begin + size.value]);
        begin := begin + size.value + 2;
      }
      return Done(m, begin + 2);
    }

    method Decode(buf: string, len: nat) returns (r: Decoded)
      requires len <= |buf|
      modifies this`contentlen, this`ischunked
      ensures r == HttpDecoder.Decode(buf, len)
    {
      hide StartLine, HeaderLines, Chunks, FindBlank;
      if len < 16 {
        return Incomplete;
      }
      contentlen := 0;
      ischunked := false;
      var start := StartLine(buf, len);
      if start.NoStart? {
        return Illegal;
      }
      var begin, message := start.begin, start.message;
      if begin > |buf| {
        return Stray;
      }
      var headend := begin + FindBlank(buf[begin..]);
      if headend == |buf| || headend > len {
        return Incomplete;
      }
      message := ReadHeaders(buf, begin, headend, message);
      begin := headend + 4;
      if ischunked {
        r := ReadChunks(buf, len, begin, message);
        return;
      }
      if begin + contentlen > len {
        return Incomplete;
      }
      if contentlen > 0 {
        message := message.(body := buf[begin..begin + contentlen]);
      }
      return Done(message, begin + contentlen);
    }

    /** Fills the list of default headers not yet written. */
    method ResetDefaults(defaults: seq<Header>)
      modifies this`defaultHeaderList
      ensures defaultHeaderList == Names(LeftOver(defaults, []))
    {
      defaultHeaderList := [];
      assert defaults[..0] == [];
      for i := 0 to |defaults|
        invariant defaultHeaderList == Names(LeftOver(defaults[..i], []))
      {
        assert defaults[..i + 1] == defaults[..i] + [defaults[i]];
        LeftOverEnd(defaults[..i], defaults[i]);
        defaultHeaderList := defaultHeaderList + [defaults[i].key];
      }
      assert defaults[..|defaults|] == defaults;
    }

    /** Drops a name from the list of default headers. */
    method RemoveDefault(key: string)
      modifies this`defaultHeaderList
      ensures defaultHeaderList == Without(old(defaultHeaderList), key)
    {
      if key in defaultHeaderList {
        defaultHeaderList := Without(defaultHeaderList, key);
      } else {
        WithoutAbsent(defaultHeaderList, key);
      }
    }

    /** Writes the message's own headers, striking off the defaults it has itself. */
    method WriteOwn(m: Message, order: seq<string>, defaults: seq<Header>, out: CBuffer<char>)
      requires out.Valid() && forall k :: k in order ==> k in m.headers
      requires defaultHeaderList == Names(LeftOver(defaults, []))
      modifies this`defaultHeaderList, out, out.base
      ensures Wrote(old(out.Contents()), out, Lines(Own(m.headers, order)))
      ensures out.base == old(out.base) || fresh(out.base)
      ensures defaultHeaderList == Names(LeftOver(defaults, order))
    {
      hide CStr, Line, LeftOver, Names, Without, Own;
      ghost var start := out.Contents();
      NoneOwn(m.headers, order, start);
      assert order[..0] == [];
      for i := 0 to |order|
        invariant Wrote(start, out, Lines(Own(m.headers, order[..i]))) && (out.base == old(out.base) || fresh(out.base))
        invariant defaultHeaderList == Names(LeftOver(defaults, order[..i]))
      {
        var k := order[i];
        OwnEnd(m.headers, order, i);
        LinesEndAfter(start, Own(m.headers, order[..i]), Header(CStr(k), CStr(m.headers[k])));
        Struck(defaults, order[..i], k);
        assert order[..i + 1] == order[..i] + [k];
        WriteLine(out, CStr(k), CStr(m.headers[k]));
        RemoveDefault(k);
      }
      assert order[..|order|] == order;
    }

    /** Writes the default headers still in the list. */
    method WriteDefaults(defaults: seq<Header>, ghost left: seq<Header>, out: CBuffer<char>)
      requires out.Valid()
      requires defaultHeaderList == Names(left) && forall h :: h in left ==> Lookup(defaults, h.key) == h.value
      modifies out, out.base
      ensures Wrote(old(out.Contents()), out, Lines(left)) && (out.base == old(out.base) || fresh(out.base))
    {
      hide Lookup, Line;
      ghost var start := out.Contents();
      NamesLength(left);
      assert left[..0] == [] && start + Lines([]) == start;
      for i := 0 to |defaultHeaderList|
        invariant Wrote(start, out, Lines(left[..i])) && (out.base == old(out.base) || fresh(out.base))
      {
        NamesAt(left, i);
        assert left[i] in left;
        assert left[..i + 1] == left[..i] + [left[i]];
        LinesEndAfter(start, left[..i], left[i]);
        WriteLine(out, defaultHeaderList[i], Lookup(defaults, defaultHeaderList[i]));
      }
      assert left[..|left|] == left;
    }

    /** The headers of a request up to the one about the connection. */
    method WriteRequestStart(m: Message, order: seq<string>, host: string, out: CBuffer<char>)
      requires out.Valid() && (forall k :: k in order <==> k in m.headers) && host == TargetOf(m.url).host
      modifies this`defaultHeaderList, out, out.base
      ensures Wrote(old(out.Contents()), out, Lines(RequestStart(m, order)))
      ensures out.base == old(out.base) || fresh(out.base)
      ensures defaultHeaderList == Names(LeftOver(REQUEST_DEFAULTS, order))
    {
      hide CStr, Line, Lines, LeftOver, Own, TargetOf, Names, HostLine;
      ResetDefaults(REQUEST_DEFAULTS);
      ghost var start := out.Contents();
      WriteHost(host, out);
      ghost var lines := HostLine(host);
      LinesJoinAfter(start, lines, Own(m.headers, order));
      WriteOwn(m, order, REQUEST_DEFAULTS, out);
      lines := lines + Own(m.headers, order);
      LinesEndAfter(start, lines, HttpEncoder.Connection(m.keepalive));
      WriteLine(out, "Connection", if m.keepalive then "Keep-Alive" else "Close");
    }

    method WriteHost(host: string, out: CBuffer<char>)
      requires out.Valid()
      modifies out, out.base
      ensures Wrote(old(out.Contents()), out, Lines(HostLine(host))) && (out.base == old(out.base) || fresh(out.base))
    {
      hide Line, Lines;
      NoLines(out.Contents());
      if host != "" {
        LinesEndAfter(out.Contents(), [], Header("Host", host));
        WriteLine(out, "Host", host);
        assert [] + HostLine(host) == HostLine(host);
      }
    }

    method WriteRequestHeaders(m: Message, order: seq<string>, host: string, out: CBuffer<char>)
      requires out.Valid() && (forall k :: k in order <==> k in m.headers) && host == TargetOf(m.url).host
      modifies this`defaultHeaderList, out, out.base
      ensures Wrote(old(out.Contents()), out, Lines(RequestHeaders(m, order)))
      ensures out.base == old(out.base) || fresh(out.base)
    {
      RequestHeadersSplit(m, order);
      hide Line, Lines, LeftOver, Missing, TargetOf, Print, RequestStart, RequestHeaders;
      ghost var start := out.Contents();
      WriteRequestStart(m, order, host, out);
      ghost var lines := RequestStart(m, order);
      RequestDefaultsLeft(m.headers, order);
      LinesJoinAfter(start, lines, Missing(REQUEST_DEFAULTS, m.headers));
      WriteDefaults(REQUEST_DEFAULTS, Missing(REQUEST_DEFAULTS, m.headers), out);
      lines := lines + Missing(REQUEST_DEFAULTS, m.headers);
      if m.body != "" {
        LinesEndAfter(start, lines, ContentLength(m.body));
        WriteLine(out, "Content-Length", Print(|m.body|, DECIMAL));
      }
    }

    method WriteRequestLine(verb: string, path: string, version: Version, out: CBuffer<char>)
      requires out.Valid()
      modifies out, out.base
      ensures out.Valid() && (out.base == old(out.base) || fresh(out.base))
      ensures out.Contents()
           == old(out.Contents()) + verb + " " + path + " "
              + if version == HTTP_1_1 then "HTTP/1.1\r\n" else "HTTP/1.0\r\n"
    {
      out.Append(verb);
      out.Append(" ");
      out.Append(path);
      out.Append(" ");
      out.Append(if version == HTTP_1_1 then "HTTP/1.1\r\n" else "HTTP/1.0\r\n");
    }

    method EncodeRequest(m: Message, order: seq<string>, out: CBuffer<char>)
      requires out.Valid() && forall k :: k in order <==> k in m.headers
      modifies this`defaultHeaderList, out, out.base
      ensures Wrote(old(out.Contents()), out, HttpEncoder.EncodeRequest(m, order))
      ensures out.base == old(out.base) || fresh(out.base)
      ensures forall a :: HttpTargets.Written(a) && m.url == HttpTargets.Url(a) && Plain(m.url) && Plain(m.verb) ==>
                old(out.Contents()) + (HttpRequests.VerbOf(m) + " " + HttpTargets.PathOf(a) + " ") <= out.Contents()
    {
      hide CStr, Lines, TargetOf, RequestHeaders, HttpEncoder.EncodeRequest;
      hide HttpTargets.Written, HttpTargets.Url, HttpTargets.PathOf, Plain;
      AsksForAll(m, order);
      var target := TargetOf(m.url);
      RequestInPieces(out.Contents(), m, order);
      WriteRequestLine(if m.verb == "" then "GET" else CStr(m.verb), target.path, m.version, out);
      WriteRequestHeaders(m, order, target.host, out);
      out.Append("\r\n");
      out.Append(CStr(m.body));
    }

    method WriteResponseHeaders(m: Message, order: seq<string>, date: string, out: CBuffer<char>)
      requires out.Valid() && forall k :: k in order <==> k in m.headers
      modifies this`defaultHeaderList, out, out.base
      ensures Wrote(old(out.Contents()), out, Lines(ResponseHeaders(m, order, date)))
      ensures out.base == old(out.base) || fresh(out.base)
    {
      hide CStr, Line, Lines, LeftOver, Missing, Own, Print, ResponseHeaders;
      ResetDefaults(RESPONSE_DEFAULTS);
      ghost var start := out.Contents();
      WriteOwn(m, order, RESPONSE_DEFAULTS, out);
      ghost var lines := Own(m.headers, order);
      ResponseDefaultsLeft(m.headers, order);
      LinesJoinAfter(start, lines, Missing(RESPONSE_DEFAULTS, m.headers));
      WriteDefaults(RESPONSE_DEFAULTS, Missing(RESPONSE_DEFAULTS, m.headers), out);
      lines := lines + Missing(RESPONSE_DEFAULTS, m.headers);
      WriteResponseEnd(m, order, date, start, lines, out);
    }

    /** The headers a response ends with. */
    method WriteResponseEnd(m: Message, ghost order: seq<string>, date: string, ghost start: string,
                            ghost lines: seq<Header>, out: CBuffer<char>)
      requires Wrote(start, out, Lines(lines)) && (forall k :: k in order <==> k in m.headers)
      requires lines == Own(m.headers, order) + Missing(RESPONSE_DEFAULTS, m.headers)
      modifies out, out.base
      ensures Wrote(start, out, Lines(ResponseHeaders(m, order, date)))
      ensures out.base == old(out.base) || fresh(out.base)
    {
      hide CStr, Line, Lines, Missing, Own, Print;
      ghost var lines := lines;
      LinesEndAfter(start, lines, Header("Date", date));
      WriteLine(out, "Date", date);
      lines := lines + [Header("Date", date)];
      LinesEndAfter(start, lines, HttpEncoder.Connection(m.keepalive));
      WriteLine(out, "Connection", if m.keepalive then "Keep-Alive" else "Close");
      lines := lines + [HttpEncoder.Connection(m.keepalive)];
      if m.version == HTTP_1_1 {
        LinesEndAfter(start, lines, Header("Transfer-Encoding", "chunked"));
        WriteLine(out, "Transfer-Encoding", "chunked");
        lines := lines + [Header("Transfer-Encoding", "chunked")];
      } else {
        LinesEndAfter(start, lines, ContentLength(m.body));
        WriteLine(out, "Content-Length", Print(|m.body|, DECIMAL));
        lines := lines + [ContentLength(m.body)];
      }
      assert lines == ResponseHeaders(m, order, date);
    }

    method EncodeResponse(m: Message, order: seq<string>, date: string, out: CBuffer<char>)
      requires out.Valid() && forall k :: k in order <==> k in m.headers
      modifies this`defaultHeaderList, out, out.base
      ensures Wrote(old(out.Contents()), out, HttpEncoder.EncodeResponse(m, order, date))
      ensures out.base == old(out.base) || fresh(out.base)
    {
      hide CStr, Lines, ResponseHeaders, GetStatus, Print, HttpEncoder.EncodeResponse, ResponseBody;
      ResponseInPieces(out.Contents(), m, order, date);
      out.Append(if m.version == HTTP_1_1 then "HTTP/1.1 " else "HTTP/1.0 ");
      out.Append(GetStatus(m.code));
      out.Append("\r\n");
      WriteResponseHeaders(m, order, date, out);
      out.Append("\r\n");
      WriteResponseBody(m, out);
    }

    /** The body as one chunk and a last one, or as it is. */
    method WriteResponseBody(m: Message, out: CBuffer<char>)
      requires out.Valid()
      modifies out, out.base
      ensures Wrote(old(out.Contents()), out, ResponseBody(m)) && (out.base == old(out.base) || fresh(out.base))
    {
      hide CStr, Print, ResponseBody;
      BodyInPieces(out.Contents(), m);
      if m.version == HTTP_1_1 {
        out.Append(Print(|m.body|, HEX));
        out.Append("\r\n");
        out.Append(CStr(m.body));
        out.Append("\r\n0\r\n\r\n");
      } else {
        out.Append(CStr(m.body));
      }
    }
  }

  lemma NoneOwn(h: map<string, string>, order: seq<string>, start: string)
    ensures Own(h, []) == [] && start + Lines([]) == start
  {
  }

  /** The buffer holds `more` behind what it held at the start. */
  ghost predicate Wrote(start: string, out: CBuffer<char>, more: string)
    reads out, out.base
  {
    out.Valid() && out.Contents() == start + more
  }

  lemma AsksForAll(m: Message, order: seq<string>)
    requires forall k :: k in order ==> k in m.headers
    ensures forall a :: HttpTargets.Written(a) && m.url == HttpTargets.Url(a) && Plain(m.url) && Plain(m.verb) ==>
              HttpRequests.VerbOf(m) + " " + HttpTargets.PathOf(a) + " " <= HttpEncoder.EncodeRequest(m, order)
  {
    hide HttpTargets.Written, HttpTargets.Url, HttpTargets.PathOf, Plain, HttpEncoder.EncodeRequest;
    forall a | HttpTargets.Written(a) && m.url == HttpTargets.Url(a) && Plain(m.url) && Plain(m.verb)
      ensures HttpRequests.VerbOf(m) + " " + HttpTargets.PathOf(a) + " " <= HttpEncoder.EncodeRequest(m, order)
    {
      HttpTargets.AsksFor(m, order, a);
    }
  }

  lemma RequestInPieces(start: string, m: Message, order: seq<string>)
    requires forall k :: k in order <==> k in m.headers
    ensures var verb := if m.verb == "" then "GET" else CStr(m.verb);
            var version := if m.version == HTTP_1_1 then "HTTP/1.1\r\n" else "HTTP/1.0\r\n";
            var text := start + verb + " " + TargetOf(m.url).path + " " + version;
            start + HttpEncoder.EncodeRequest(m, order)
            == text + Lines(RequestHeaders(m, order)) + "\r\n" + CStr(m.body)
  {
    hide CStr, Lines, TargetOf, RequestHeaders;
  }

  lemma ResponseInPieces(start: string, m: Message, order: seq<string>, date: string)
    requires forall k :: k in order <==> k in m.headers
    ensures var version := if m.version == HTTP_1_1 then "HTTP/1.1 " else "HTTP/1.0 ";
            var text := start + version + GetStatus(m.code) + "\r\n" + Lines(ResponseHeaders(m, order, date)) + "\r\n";
            start + HttpEncoder.EncodeResponse(m, order, date) == text + ResponseBody(m)
  {
    hide GetStatus, Lines, ResponseHeaders, ResponseBody;
  }

  lemma BodyInPieces(start: string, m: Message)
    ensures start + ResponseBody(m)
         == if m.version == HTTP_1_1 then start + Print(|m.body|, HEX) + "\r\n" + CStr(m.body) + "\r\n0\r\n\r\n"
            else start + CStr(m.body)
  {
    hide CStr, Print;
  }

  /** One turn of the loop over the lines of a head. */
  lemma LineStep(d: Draft, buf: string, at: nat, headend: nat)
    requires at < headend <= |buf|
    requires var e := FindCrLf(buf[at..]); e < |buf| - at && at + e <= headend
    ensures var end := at + FindCrLf(buf[at..]);
            && end + 2 <= |buf| && buf[at..][..end - at] == buf[at..end]
            && HeaderLines(d, buf[at..], headend - at)
               == HeaderLines(HeaderLine(d, buf[at..end]), buf[end + 2..], headend - (end + 2))
  {
    hide HeaderLine, FindCrLf;
    FindCrLfRoom(buf[at..]);
    var end := at + FindCrLf(buf[at..]);
    assert buf[at..][..end - at] == buf[at..end];
    assert buf[at..][end - at + 2..] == buf[end + 2..];
  }

  lemma FindCrLfRoom(t: string)
    ensures FindCrLf(t) <= |t| && (FindCrLf(t) < |t| ==> FindCrLf(t) + 2 <= |t|)
  {
  }

  // ---------------------------------------------------------------- lists of headers

  method WriteLine(out: CBuffer<char>, key: string, value: string)
    requires out.Valid()
    modifies out, out.base
    ensures Wrote(old(out.Contents()), out, Line(Header(key, value))) && (out.base == old(out.base) || fresh(out.base))
  {
    LineInPieces(out.Contents(), key, value);
    hide Line;
    out.Append(key);
    out.Append(": ");
    out.Append(value);
    out.Append("\r\n");
  }

  lemma LineInPieces(start: string, key: string, value: string)
    ensures start + Line(Header(key, value)) == start + key + ": " + value + "\r\n"
  {
  }

  function Names(hs: seq<Header>): seq<string> {
    if hs == [] then [] else [hs[0].key] + Names(hs[1..])
  }

  /** The default headers none of `seen` is the name of. */
  function LeftOver(defaults: seq<Header>, seen: seq<string>): seq<Header> {
    if defaults == [] then []
    else (if defaults[0].key in seen then [] else [defaults[0]]) + LeftOver(defaults[1..], seen)
  }

  function Without(names: seq<string>, key: string): seq<string> {
    if names == [] then [] else (if names[0] == key then [] else [names[0]]) + Without(names[1..], key)
  }

  function Lookup(hs: seq<Header>, key: string): string {
    if hs == [] then "" else if hs[0].key == key then hs[0].value else Lookup(hs[1..], key)
  }

  lemma {:induction false} WithoutAbsent(names: seq<string>, key: string)
    requires key !in names
    ensures Without(names, key) == names
  {
    if names != [] {
      WithoutAbsent(names[1..], key);
    }
  }

  lemma {:induction false} LeftOverEnd(defaults: seq<Header>, h: Header)
    ensures Names(LeftOver(defaults + [h], [])) == Names(LeftOver(defaults, [])) + [h.key]
  {
    if defaults == [] {
      assert defaults + [h] == [h];
    } else {
      assert (defaults + [h])[1..] == defaults[1..] + [h];
      LeftOverEnd(defaults[1..], h);
    }
  }

  lemma {:induction false} Struck(defaults: seq<Header>, seen: seq<string>, key: string)
    ensures Names(LeftOver(defaults, seen + [key])) == Without(Names(LeftOver(defaults, seen)), key)
  {
    if defaults != [] {
      Struck(defaults[1..], seen, key);
      NamesFirst(defaults[0], LeftOver(defaults[1..], seen));
      NamesFirst(defaults[0], LeftOver(defaults[1..], seen + [key]));
      assert [] + LeftOver(defaults[1..], seen) == LeftOver(defaults[1..], seen);
      assert [] + LeftOver(defaults[1..], seen + [key]) == LeftOver(defaults[1..], seen + [key]);
    }
  }

  lemma NamesFirst(h: Header, hs: seq<Header>)
    ensures Names([h] + hs) == [h.key] + Names(hs)
  {
    assert ([h] + hs)[1..] == hs;
  }

  lemma {:induction false} NamesLength(hs: seq<Header>)
    ensures |Names(hs)| == |hs|
  {
    if hs != [] {
      NamesLength(hs[1..]);
    }
  }

  lemma {:induction false} NamesAt(hs: seq<Header>, i: nat)
    requires i < |hs|
    ensures |Names(hs)| == |hs| && Names(hs)[i] == hs[i].key
  {
    NamesLength(hs);
    if i > 0 {
      NamesAt(hs[1..], i - 1);
    }
  }

  lemma NoLines(out: string)
    ensures out + Lines([]) == out
  {
  }

  lemma {:induction false} LinesJoin(a: seq<Header>, b: seq<Header>)
    ensures Lines(a + b) == Lines(a) + Lines(b)
  {
    hide Line;
    if a == [] {
      assert a + b == b;
    } else {
      assert (a + b)[1..] == a[1..] + b;
      LinesJoin(a[1..], b);
    }
  }

  lemma LinesEnd(a: seq<Header>, h: Header)
    ensures Lines(a + [h]) == Lines(a) + Line(h)
  {
    hide Line;
    LinesJoin(a, [h]);
    assert Lines([h]) == Line(h) + Lines([]);
  }

  /** The same behind text written before. */
  lemma LinesJoinAfter(out: string, a: seq<Header>, b: seq<Header>)
    ensures out + Lines(a + b) == out + Lines(a) + Lines(b)
  {
    hide Lines;
    LinesJoin(a, b);
  }

  lemma LinesEndAfter(out: string, a: seq<Header>, h: Header)
    ensures out + Lines(a + [h]) == out + Lines(a) + Line(h)
  {
    hide Line, Lines;
    LinesEnd(a, h);
  }

  lemma {:induction false} OwnEnd(headers: map<string, string>, order: seq<string>, i: nat)
    requires (forall k :: k in order ==> k in headers) && i < |order|
    ensures Own(headers, order[..i + 1])
         == Own(headers, order[..i]) + [Header(CStr(order[i]), CStr(headers[order[i]]))]
  {
  }

  lemma {:induction false} LeftOverMissing(defaults: seq<Header>, headers: map<string, string>, order: seq<string>)
    requires forall k :: k in order <==> k in headers
    ensures LeftOver(defaults, order) == Missing(defaults, headers)
  {
    if defaults != [] {
      LeftOverMissing(defaults[1..], headers, order);
    }
  }

  lemma ResponseDefaultsLeft(headers: map<string, string>, order: seq<string>)
    requires forall k :: k in order <==> k in headers
    ensures LeftOver(RESPONSE_DEFAULTS, order) == Missing(RESPONSE_DEFAULTS, headers)
    ensures forall h :: h in Missing(RESPONSE_DEFAULTS, headers) ==> Lookup(RESPONSE_DEFAULTS, h.key) == h.value
  {
    LeftOverMissing(RESPONSE_DEFAULTS, headers, order);
    hide LeftOver, Missing;
    MissingAmong(RESPONSE_DEFAULTS, headers);
    var a, b, c := RESPONSE_DEFAULTS[0], RESPONSE_DEFAULTS[1], RESPONSE_DEFAULTS[2];
    assert a.key[0] != b.key[0] || a.key[1] != b.key[1];
    assert |a.key| != |b.key| && |b.key| != |c.key| && |a.key| != |c.key|;
    assert RESPONSE_DEFAULTS[1..] == [b, c] && RESPONSE_DEFAULTS[1..][1..] == [c];
    assert Lookup([c], c.key) == c.value;
    assert Lookup([b, c], c.key) == c.value && Lookup([b, c], b.key) == b.value;
  }

  lemma MissingAmong(defaults: seq<Header>, headers: map<string, string>)
    ensures forall h :: h in Missing(defaults, headers) ==> h in defaults
  {
  }

  function HostLine(host: string): seq<Header> {
    if host != "" then [Header("Host", host)] else []
  }

  function RequestStart(m: Message, order: seq<string>): seq<Header>
    requires forall k :: k in order ==> k in m.headers
  {
    var host := TargetOf(m.url).host;
    HostLine(host) + Own(m.headers, order) + [HttpEncoder.Connection(m.keepalive)]
  }

  lemma RequestHeadersSplit(m: Message, order: seq<string>)
    requires forall k :: k in order ==> k in m.headers
    ensures var lines := RequestStart(m, order) + Missing(REQUEST_DEFAULTS, m.headers);
            RequestHeaders(m, order) == if m.body == "" then lines else lines + [ContentLength(m.body)]
  {
    hide Own, Missing, TargetOf;
  }

  lemma RequestDefaultsLeft(headers: map<string, string>, order: seq<string>)
    requires forall k :: k in order <==> k in headers
    ensures LeftOver(REQUEST_DEFAULTS, order) == Missing(REQUEST_DEFAULTS, headers)
    ensures forall h :: h in Missing(REQUEST_DEFAULTS, headers) ==> Lookup(REQUEST_DEFAULTS, h.key) == h.value
  {
    LeftOverMissing(REQUEST_DEFAULTS, headers, order);
  }
}
