/**
 Writing HTTP messages. The order in which a hash map yields the headers, and the date, come from outside; cookies are
 not part of the model.
 */
module HttpEncoder {
  import opened HttpText
  import opened HttpDecoder

  datatype Header = Header(key: string, value: string)

  const RESPONSE_DEFAULTS := [
    Header("Cache-Control", "no-cache"), Header("Content-Type", "text/html; charset=utf-8"),
    Header("Server", "Ape Http Server 1.0")]

  const REQUEST_DEFAULTS := [Header("User-Agent", "ApeHttpClient")]

  function Line(h: Header): string {
    h.key + ": " + h.value + CRLF
  }

  function Lines(hs: seq<Header>): string {
    if hs == [] then "" else Line(hs[0]) + Lines(hs[1..])
  }

  /** The message's own headers, in the order given. */
  function Own(headers: map<string, string>, order: seq<string>): (r: seq<Header>)
    requires forall k :: k in order ==> k in headers
    ensures |r| == |order|
    ensures forall i :: 0 <= i < |order| ==> r[i] == Header(CStr(order[i]), CStr(headers[order[i]]))
  {
    if order == [] then [] else [Header(CStr(order[0]), CStr(headers[order[0]]))] + Own(headers, order[1..])
  }

  /** The default headers the message does not have under exactly that name. */
  function Missing(defaults: seq<Header>, headers: map<string, string>): (r: seq<Header>)
    ensures forall h :: h in r <==> h in defaults && h.key !in headers
  {
    if defaults == [] then []
    else (if defaults[0].key in headers then [] else [defaults[0]]) + Missing(defaults[1..], headers)
  }

  function Reason(code: int): string {
    match code
    case 200 => "OK"
    case 201 => "Created"
    case 202 => "Accepted"
    case 204 => "No Content"
    case 300 => "Multiple Choices"
    case 301 => "Moved Permanently"
    case 302 => "Moved Temporarily"
    case 304 => "Not Modified"
    case 400 => "Bad Request"
    case 401 => "Unauthorized"
    case 403 => "Forbidden"
    case 404 => "Not Found"
    case 405 => "Method Not Allowed"
    case 500 => "Internal Server Error"
    case 501 => "Not Implemented"
    case 502 => "Bad Gateway"
    case 503 => "Service Unavailable"
    case _ => ""
  }

  function PrintInt(n: int): string {
    if n < 0 then "-" + Print(-n, DECIMAL) else Print(n, DECIMAL)
  }

  /** Codes without a text of their own are printed into a buffer that holds six characters. */
  function GetStatus(code: int): string {
    if Reason(code) != "" then PrintInt(code) + " " + Reason(code)
    else (PrintInt(code) + " Unknow Code")[..6]
  }

  function VersionText(v: Version): string {
    if v == HTTP_1_1 then "HTTP/1.1" else "HTTP/1.0"
  }

  function Connection(keepalive: bool): Header {
    Header("Connection", if keepalive then "Keep-Alive" else "Close")
  }

  function ContentLength(body: string): Header {
    Header("Content-Length", Print(|body|, DECIMAL))
  }

  function ResponseHeaders(m: Message, order: seq<string>, date: string): seq<Header>
    requires forall k :: k in order ==> k in m.headers
  {
    Own(m.headers, order) + Missing(RESPONSE_DEFAULTS, m.headers) + [Header("Date", date)] + [Connection(m.keepalive)]
    + [if m.version == HTTP_1_1 then Header("Transfer-Encoding", "chunked") else ContentLength(m.body)]
  }

  function ResponseBody(m: Message): string {
    if m.version == HTTP_1_1 then Print(|m.body|, HEX) + CRLF + CStr(m.body) + "\r\n0\r\n\r\n" else CStr(m.body)
  }

  function EncodeResponse(m: Message, order: seq<string>, date: string): string
    requires forall k :: k in order ==> k in m.headers
  {
    VersionText(m.version) + " " + GetStatus(m.code) + CRLF + Lines(ResponseHeaders(m, order, date))
    + CRLF + ResponseBody(m)
  }

  /** Where a request goes: the host named in its address, if any, and the path. */
  datatype Target = Target(host: string, path: string)

  function TargetOf(url: string): Target {
    if Begins(CStr(url), "http://") then
      var rest := url[7..];
      var i := FindChar(rest, '/');
      Target(rest[..i], if i == |rest| then "/" else CStr(rest[i..]))
    else Target("", if CStr(url) == "" then "/" else CStr(url))
  }

  function RequestHeaders(m: Message, order: seq<string>): seq<Header>
    requires forall k :: k in order ==> k in m.headers
  {
    var host := TargetOf(m.url).host;
    (if host != "" then [Header("Host", host)] else []) + Own(m.headers, order) + [Connection(m.keepalive)]
    + Missing(REQUEST_DEFAULTS, m.headers) + (if m.body != "" then [ContentLength(m.body)] else [])
  }

  function EncodeRequest(m: Message, order: seq<string>): string
    requires forall k :: k in order ==> k in m.headers
  {
    (if m.verb == "" then "GET" else CStr(m.verb)) + " " + TargetOf(m.url).path + " " + VersionText(m.version) + CRLF
    + Lines(RequestHeaders(m, order)) + CRLF + CStr(m.body)
  }
}
