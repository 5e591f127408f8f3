/**
 What a request asks for, read off its address: the path and the host that reach the other side.
 */
module HttpTargets {
  import opened Wrappers
  import opened HttpText
  import opened HttpDecoder
  import opened HttpEncoder
  import opened HttpRoundTrip
  import opened HttpStart
  import opened HttpMessages
  import opened HttpRequests

  /** `http://` in any letter case. */
  predicate IsScheme(s: string) {
    |s| == 7 && forall i :: 0 <= i < 7 ==> s[i] == "http://"[i] || s[i] == "HTTP://"[i]
  }

  /** An address with a scheme, a host and perhaps a path, or one that is a path. */
  datatype Address = Absolute(scheme: string, host: string, path: string) | Relative(path: string)

  predicate Written(a: Address) {
    match a
    case Absolute(scheme, host, path) => IsScheme(scheme) && '/' !in host && (path == "" || path[0] == '/')
    case Relative(path) => |path| < 7 || !IsScheme(path[..7])
  }

  function Url(a: Address): string {
    match a
    case Absolute(scheme, host, path) => scheme + host + path
    case Relative(path) => path
  }

  function HostOf(a: Address): string {
    if a.Absolute? then a.host else ""
  }

  function PathOf(a: Address): string {
    if a.path == "" then "/" else a.path
  }

  // ---------------------------------------------------------------- addresses

  lemma SchemeBegins(s: string)
    requires |s| >= 7
    ensures Begins(s, "http://") <==> IsScheme(s[..7])
  {
    var t := s[..7];
    SchemeChars();
    forall i | 0 <= i < 7 ensures Lower(t[i]) == "http://"[i] <==> t[i] == "http://"[i] || t[i] == "HTTP://"[i] {
      LowerChar(t[i], "http://"[i], "HTTP://"[i]);
    }
    hide Lower;
    assert forall i :: 0 <= i < 7 ==> LowerAll(t)[i] == Lower(t[i]);
    if IsScheme(t) {
      assert LowerAll(t) == "http://";
    }
    if LowerAll(t) == "http://" {
      assert forall i :: 0 <= i < 7 ==> Lower(t[i]) == "http://"[i];
    }
  }

  /** A pair of one letter in both cases, or of one other character. */
  predicate Pair(low: char, high: char) {
    || ('a' <= low <= 'z' && high as int == low as int - 32)
    || (low == high && !('a' <= low <= 'z') && !('A' <= low <= 'Z'))
  }

  lemma SchemeChars()
    ensures forall i :: 0 <= i < 7 ==> Pair("http://"[i], "HTTP://"[i])
  {
  }

  lemma LowerChar(c: char, low: char, high: char)
    requires Pair(low, high)
    ensures Lower(c) == low <==> c == low || c == high
  {
  }

  /** The encoder's target is the address's host and path. */
  lemma TargetIs(a: Address)
    requires Written(a) && Plain(Url(a))
    ensures TargetOf(Url(a)) == Target(HostOf(a), PathOf(a))
  {
    hide Begins, IsScheme, Plain, CStr, FindChar;
    CStrPart(Url(a));
    match a
    case Relative(path) =>
      if |path| >= 7 {
        SchemeBegins(path);
      } else {
        NotShort(path);
      }
    case Absolute(scheme, host, path) =>
      var rest := host + path;
      SchemeLength(scheme);
      assert Url(a)[..7] == scheme && Url(a)[7..] == rest;
      SchemeBegins(Url(a));
      PlainTail(Url(a), 7);
      HostEnds(host, path);
      if path != "" {
        assert rest[|host|..] == path && rest[..|host|] == host;
        PlainTail(rest, |host|);
        CStrPart(path);
      } else {
        assert rest[..|rest|] == host;
      }
  }

  lemma SchemeLength(scheme: string)
    requires IsScheme(scheme)
    ensures |scheme| == 7
  {
  }

  lemma NotShort(s: string)
    requires |s| < 7
    ensures !Begins(s, "http://")
  {
  }

  lemma PlainTail(s: string, i: nat)
    requires Plain(s) && i <= |s|
    ensures Plain(s[i..])
  {
  }

  lemma FrontPlain(host: string, path: string)
    requires Plain(host + path)
    ensures NUL !in host
  {
    assert forall c :: c in host ==> c in host + path;
  }

  lemma HostEnds(host: string, path: string)
    requires Plain(host + path) && '/' !in host && (path == "" || path[0] == '/')
    ensures FindChar(host + path, '/') == |host|
  {
    hide FindChar, Plain;
    FrontPlain(host, path);
    if path == "" {
      assert host + path == host;
      NoChar(host, '/');
    } else {
      assert host + path == host + ['/'] + path[1..];
      FindCharAfter(host, '/', path[1..]);
    }
  }

  /** A request for an address begins with its method and the address's path. */
  lemma AsksFor(m: Message, order: seq<string>, a: Address)
    requires forall k :: k in order ==> k in m.headers
    requires m.url == Url(a) && Written(a) && Plain(m.url) && Plain(m.verb)
    ensures VerbOf(m) + " " + PathOf(a) + " " <= EncodeRequest(m, order)
  {
    hide Url, Written, Plain, CStr, Lines, TargetOf, RequestHeaders, PathOf;
    TargetIs(a);
    CStrPart(m.verb);
  }

  // ---------------------------------------------------------------- what is decoded

  /** The headers of a decoded request are those it was written with. */
  lemma RequestCollects(m: Message, order: seq<string>, rest: string, len: nat)
    requires HttpRequests.Sound(m, order)
    requires forall k :: k in order ==> k in m.headers
    requires var text := EncodeRequest(m, order); |text| <= len <= |text + rest|
    ensures var r := Decode(EncodeRequest(m, order) + rest, len);
            r.Done? && r.message.url == TargetOf(m.url).path && Collects(r.message.headers, RequestHeaders(m, order))
  {
    RequestRoundTrip(m, order, rest, len);
    hide Decode, EncodeRequest, RequestHeaders, AddAll, CleanHeaders, Collects, KnownVerb, TargetOf;
    RequestHeadRead(m, order, rest, len);
    RequestDraftBack(m, order);
    AddAllCollects(Draft(Asked(m), 0, false), RequestHeaders(m, order));
  }

  /** No header of its own gives the host. */
  predicate NoOwnHost(headers: map<string, string>) {
    forall k :: k in headers ==> LowerAll(k) != "host"
  }

  lemma HostLast(m: Message, order: seq<string>)
    requires forall k :: k in order ==> k in m.headers
    requires CleanHeaders(m.headers, order, REQUEST_DEFAULTS) && NoOwnHost(m.headers)
    ensures var host := TargetOf(m.url).host;
            Last(RequestHeaders(m, order), "host") == if host == "" then None else Some(host)
  {
    hide TargetOf, LowerAll, Last, CleanHeaders;
    RequestParts(m, order);
    var own, trailing := Own(m.headers, order), Trailing(m);
    forall h | h in own ensures LowerAll(h.key) != "host" {
      var i :| 0 <= i < |own| && own[i] == h;
      OwnAt(m.headers, order, i);
      OwnEntry(m.headers, order, REQUEST_DEFAULTS, order[i]);
    }
    TrailingNames(m);
    LastNone(own, "host");
    LastNone(trailing, "host");
    LastJoin(HostLine(m) + own, trailing, "host");
    LastJoin(HostLine(m), own, "host");
    HostOnly(m);
  }

  lemma HostOnly(m: Message)
    ensures var host := TargetOf(m.url).host;
            Last(HostLine(m), "host") == if host == "" then None else Some(host)
  {
    hide TargetOf, LowerAll;
    Lowered("Host", "host");
    var hs := HostLine(m);
    assert |hs| == 1 ==> hs[..|hs| - 1] == [];
  }

  lemma TrailingNames(m: Message)
    ensures forall h :: h in Trailing(m) ==> LowerAll(h.key) != "host"
  {
    hide LowerAll, Print;
    MissingFrom(REQUEST_DEFAULTS, m.headers);
    Length("Connection");
    Length("User-Agent");
    Length("Content-Length");
    forall h | h in Trailing(m) ensures LowerAll(h.key) != "host" {
      assert h.key == "Connection" || h.key == "User-Agent" || h.key == "Content-Length";
    }
  }

  /**
   A request for an address is decoded with the address's path, `/` if it has none; and with its host, if it names one
   and the message gives no host of its own.
   */
  lemma AddressArrives(m: Message, order: seq<string>, a: Address, rest: string, len: nat)
    requires HttpRequests.Sound(m, order) && m.url == Url(a) && Written(a)
    requires forall k :: k in order ==> k in m.headers
    requires var text := EncodeRequest(m, order); |text| <= len <= |text + rest|
    ensures var r := Decode(EncodeRequest(m, order) + rest, len);
            && r.Done? && r.message.url == PathOf(a)
            && (NoOwnHost(m.headers) ==>
                  ("host" in r.message.headers <==> HostOf(a) != "")
                  && (HostOf(a) != "" ==> r.message.headers["host"] == HostOf(a)))
  {
    hide Decode, EncodeRequest, RequestHeaders, KnownVerb, CleanHeaders, TargetOf, Last, Url, Written;
    TargetIs(a);
    RequestCollects(m, order, rest, len);
    if NoOwnHost(m.headers) {
      HostLast(m, order);
    }
  }
}
