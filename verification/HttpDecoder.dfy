/**
 Reading one HTTP message off the front of a buffer.
 */
module HttpDecoder {
  import opened Wrappers
  import opened HttpText

  datatype Version = HTTP_1_0 | HTTP_1_1

  datatype Message = Message(
    response: bool,
    verb: string,
    url: string,
    version: Version,
    code: int,
    keepalive: bool,
    headers: map<string, string>,
    forwarded: string,
    body: string)

  const BLANK := Message(false, "", "", HTTP_1_0, -1, false, map[], "", "")

  /** A message being read, with what its headers say of the length of its body. */
  datatype Draft = Draft(message: Message, contentLength: int, chunked: bool)

  /** `Stray`: the source follows a null or dangling pointer. `Done` says where the next message begins. */
  datatype Decoded = Incomplete | Illegal | Stray | Done(message: Message, end: int)

  /** Length of the method a request starts with, or 0. */
  function VerbLength(s: string): nat {
    if Begins(s, "get") then 3
    else if Begins(s, "post") then 4
    else if Begins(s, "head") then 4
    else if Begins(s, "trace") then 5
    else if Begins(s, "put") then 3
    else if Begins(s, "delete") then 6
    else if Begins(s, "options") then 7
    else if Begins(s, "connect") then 7
    else 0
  }

  datatype Start = NoStart | Start(message: Message, begin: nat)

  function WithVersion(m: Message, s: string): Option<Message> {
    if Begins(s, "1.1") then Some(m.(version := HTTP_1_1, keepalive := true))
    else if Begins(s, "1.0") then Some(m.(version := HTTP_1_0, keepalive := false))
    else None
  }

  function RequestLine(s: string, len: nat): Start
    requires len <= |s| && VerbLength(s) > 0 && len >= 16
  {
    var n := VerbLength(s);
    var rest := s[n + 1..];
    var end := n + 1 + FindChar(rest, ' ');
    if end == |s| || end + 9 >= len then NoStart
    else
      var v := WithVersion(BLANK.(verb := s[..n], url := s[n + 1..end]), s[end + 6..]);
      if v.None? then NoStart else Start(v.value, end + 11)
  }

  function StatusLine(s: string, len: nat): Start
    requires 16 <= len <= |s|
  {
    var v := WithVersion(BLANK.(response := true), s[5..]);
    if v.None? || s[8] != ' ' then NoStart
    else
      var b := 1 + FindCrLf(s[1..]);
      if b == |s| || b >= len then NoStart
      else Start(v.value.(code := Atoi(s[9..])), b + 2)
  }

  function StartLine(s: string, len: nat): Start
    requires 16 <= len <= |s|
  {
    if VerbLength(s) > 0 then RequestLine(s, len)
    else if Begins(s, "http/") then StatusLine(s, len)
    else NoStart
  }

  // ---------------------------------------------------------------- headers

  /** The part of a list of addresses before its first comma. */
  function UpToComma(s: string): string {
    if s == "" || s[0] == ',' then "" else [s[0]] + UpToComma(s[1..])
  }

  function ParseHeader(d: Draft, key: string, value: string): Draft {
    var k := LowerAll(key);
    if k == "connection" then
      if LowerAll(value) == "close" then d.(message := d.message.(keepalive := false))
      else if LowerAll(value) == "keep-alive" then d.(message := d.message.(keepalive := true))
      else d
    else if k == "x-forwarded-for" then d.(message := d.message.(forwarded := UpToComma(value)))
    else if k == "content-length" then d.(contentLength := Atoi(value))
    else if k == "transfer-encoding" && LowerAll(value) == "chunked" then d.(chunked := true)
    else d
  }

  function AddHeader(d: Draft, key: string, value: string): Draft {
    ParseHeader(d.(message := d.message.(headers := d.message.headers[key := value])), key, value)
  }

  /** One line of the head; without a colon it is passed over. */
  function HeaderLine(d: Draft, line: string): Draft {
    var c := FindChar(line, ':');
    if c == |line| then d else AddHeader(d, LowerAll(Trim(line[..c])), Trim(line[c + 1..]))
  }

  /** The lines that end within `room` characters, the distance to the end of the head. */
  function HeaderLines(d: Draft, t: string, room: int): Draft
    decreases |t|
  {
    var e := FindCrLf(t);
    if e == |t| || room <= 0 || e > room then d
    else HeaderLines(HeaderLine(d, t[..e]), t[e + 2..], room - (e + 2))
  }

  // ---------------------------------------------------------------- body

  /** Chunks from `begin` on, up to one of size 0. */
  function Chunks(s: string, len: nat, begin: nat, m: Message): Decoded
    requires len <= |s|
    decreases len + 1 - begin
  {
    if begin > len then Done(m, begin + 2)
    else
      var size := ScanHex(s[begin..]);
      if size.None? || size.value < 0 then Illegal
      else
        var e := begin + FindCrLf(s[begin..]);
        if e == |s| then Stray
        else if size.value == 0 then Done(m, e + 4)
        else if e + 2 + size.value > len then Incomplete
        else Chunks(s, len, e + 2 + size.value + 2, m.(body := m.body + s[e + 2..e + 2 + size.value]))
  }

  function Body(s: string, len: nat, begin: nat, d: Draft): Decoded
    requires len <= |s| && begin <= |s|
  {
    if d.chunked then Chunks(s, len, begin, d.message)
    else if begin + d.contentLength > len then Incomplete
    else if d.contentLength > 0 then
      Done(d.message.(body := s[begin..begin + d.contentLength]), begin + d.contentLength)
    else Done(d.message, begin + d.contentLength)
  }

  /** Decodes from memory `s`, of which `len` characters have been received. */
  function Decode(s: string, len: nat): Decoded
    requires len <= |s|
  {
    if len < 16 then Incomplete
    else
      var start := StartLine(s, len);
      if start.NoStart? then Illegal
      else if start.begin > |s| then Stray
      else
        var t := s[start.begin..];
        var h := FindBlank(t);
        if h == |t| || start.begin + h > len then Incomplete
        else Body(s, len, start.begin + h + 4, HeaderLines(Draft(start.message, 0, false), t, h))
  }
}
