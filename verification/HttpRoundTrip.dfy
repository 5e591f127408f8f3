/**
 Writing HTTP messages, and reading them back.
 */
module HttpRoundTrip {
  import opened Wrappers
  import opened HttpText
  import opened HttpDecoder
  import opened HttpEncoder

  // ---------------------------------------------------------------- chunks

  /** A chunk as it is sent: any spelling of its size, and its data. */
  datatype Chunk = Chunk(size: string, data: string)

  predicate ChunkOk(c: Chunk) {
    Plain(c.size) && c.data != "" && ScanHex(c.size) == Some(|c.data|)
  }

  function ChunkText(c: Chunk): string {
    c.size + CRLF + (c.data + CRLF)
  }

  function ChunksText(cs: seq<Chunk>): string {
    if cs == [] then "" else ChunkText(cs[0]) + ChunksText(cs[1..])
  }

  function Joined(cs: seq<Chunk>): string {
    if cs == [] then "" else cs[0].data + Joined(cs[1..])
  }

  ghost predicate ChunksOk(cs: seq<Chunk>) {
    forall i :: 0 <= i < |cs| ==> ChunkOk(cs[i])
  }

  /** The chunk of size 0 that ends a body, with any spelling of 0. */
  predicate LastOk(zero: string) {
    Plain(zero) && ScanHex(zero) == Some(0)
  }

  /**
   Section 4.1 of RFC 7230: any list of chunks, ended by a chunk of size 0 and an empty line, reads as the
   concatenation of their data, and reading stops exactly past the final line end, whatever follows.
   */
  lemma {:induction false} ChunksDecode(s: string, len: nat, begin: nat, m: Message, cs: seq<Chunk>, zero: string,
                                        rest: string)
    requires len <= |s| && begin <= |s| && ChunksOk(cs) && LastOk(zero)
    requires s[begin..] == ChunksText(cs) + (zero + CRLF + (CRLF + rest))
    requires len >= |s| - |rest|
    ensures Chunks(s, len, begin, m) == Done(m.(body := m.body + Joined(cs)), |s| - |rest|)
    decreases |cs|
  {
    hide ScanHex, FindCrLf;
    if cs == [] {
      assert "" + (zero + CRLF + (CRLF + rest)) == zero + CRLF + (CRLF + rest);
      LineScanned(zero, CRLF + rest);
      assert m.body + "" == m.body;
    } else {
      var c, more := cs[0], ChunksText(cs[1..]) + (zero + CRLF + (CRLF + rest));
      OneChunk(s, len, begin, m, c, more, |s| - |rest|);
      var next := begin + |ChunkText(c)|;
      hide Chunks, ChunkText;
      ChunksDecode(s, len, next, m.(body := m.body + c.data), cs[1..], zero, rest);
      assert m.body + c.data + Joined(cs[1..]) == m.body + (c.data + Joined(cs[1..]));
    }
  }

  lemma LineScanned(line: string, rest: string)
    requires Plain(line) && ScanHex(line).Some?
    ensures FindCrLf(line + CRLF + rest) == |line| && ScanHex(line + CRLF + rest) == ScanHex(line)
  {
    FindCrLfAfter(line, rest);
    ScanHexLine(line, rest);
  }

  lemma OneChunk(s: string, len: nat, begin: nat, m: Message, c: Chunk, more: string, end: nat)
    requires len <= |s| && begin <= |s| && ChunkOk(c) && end <= len
    requires s[begin..] == ChunkText(c) + more || s[begin..] == c.size + CRLF + (c.data + CRLF + more)
    requires begin + |ChunkText(c)| <= end
    ensures s[begin + |ChunkText(c)|..] == more
    ensures Chunks(s, len, begin, m) == Chunks(s, len, begin + |ChunkText(c)|, m.(body := m.body + c.data))
  {
    hide ScanHex, FindCrLf;
    var t := c.size + CRLF + (c.data + CRLF + more);
    assert s[begin..] == t;
    LineScanned(c.size, c.data + CRLF + more);
    var e := begin + |c.size|;
    assert s[e + 2..e + 2 + |c.data|] == s[begin..][|c.size| + 2..|c.size| + 2 + |c.data|] == c.data;
    assert s[begin + |ChunkText(c)|..] == s[begin..][|ChunkText(c)|..] == more;
  }

  // ---------------------------------------------------------------- headers

  /** A header that survives: no colon in its name, no line end or NUL anywhere, no blank at an end. */
  predicate Clean(h: Header) {
    Plain(h.key) && Solid(h.key) && ':' !in h.key && Plain(h.value) && Solid(h.value)
  }

  ghost predicate AllClean(hs: seq<Header>) {
    forall h :: h in hs ==> Clean(h)
  }

  function AddAll(d: Draft, hs: seq<Header>): Draft
    decreases |hs|
  {
    if hs == [] then d else AddAll(AddHeader(d, LowerAll(hs[0].key), hs[0].value), hs[1..])
  }

  lemma LineRead(d: Draft, h: Header)
    requires Clean(h)
    ensures HeaderLine(d, h.key + ": " + h.value) == AddHeader(d, LowerAll(h.key), h.value)
  {
    hide AddHeader, Trim;
    var line := h.key + ": " + h.value;
    FindCharAfter(h.key, ':', " " + h.value);
    assert line == h.key + [':'] + (" " + h.value);
    assert line[..|h.key|] == h.key;
    TrimSolid(0, h.key, 0);
    assert Blanks(0) + h.key + Blanks(0) == h.key;
    assert line[|h.key| + 1..] == " " + h.value;
    TrimSolid(1, h.value, 0);
    assert Blanks(1) + h.value + Blanks(0) == " " + h.value;
  }

  lemma PlainLine(h: Header)
    requires Clean(h)
    ensures Plain(h.key + ": " + h.value)
  {
  }

  lemma {:induction false} LinesRead(d: Draft, hs: seq<Header>, rest: string)
    requires hs != [] && AllClean(hs)
    ensures var t := Lines(hs) + (CRLF + rest);
            FindBlank(t) == |Lines(hs)| - 2 && HeaderLines(d, t, |Lines(hs)| - 2) == AddAll(d, hs)
    decreases |hs|
  {
    hide FindBlank, FindCrLf, HeaderLine, HeaderLines, AddHeader, Clean;
    var h := hs[0];
    assert h in hs;
    var line := h.key + ": " + h.value;
    PlainLine(h);
    LineRead(d, h);
    if |hs| == 1 {
      assert hs == [h];
      assert Lines(hs) == line + CRLF by { assert Lines([]) == ""; }
      FindBlankHere(line, rest);
      FindCrLfAfter(line, CRLF + rest);
      assert Lines(hs) + (CRLF + rest) == line + CRLF + (CRLF + rest);
      LastLine(d, line, rest);
    } else {
      assert forall g :: g in hs[1..] ==> g in hs;
      var d' := AddHeader(d, LowerAll(h.key), h.value);
      LinesRead(d', hs[1..], rest);
      LinesStart(hs[1..], rest);
      FirstLine(d, line, Lines(hs[1..]) + (CRLF + rest), |Lines(hs[1..])| - 2);
      assert Lines(hs) + (CRLF + rest) == line + CRLF + (Lines(hs[1..]) + (CRLF + rest));
    }
  }

  lemma FirstLine(d: Draft, line: string, more: string, room: nat)
    requires Plain(line) && |more| >= 2 && more[0] != '\r' && FindBlank(more) == room < |more|
    ensures var t := line + CRLF + more;
            && FindBlank(t) == |line| + 2 + room
            && HeaderLines(d, t, |line| + 2 + room) == HeaderLines(HeaderLine(d, line), more, room)
  {
    hide FindBlank, FindCrLf, HeaderLine;
    FindBlankLater(line, more);
    FindCrLfAfter(line, more);
    var t := line + CRLF + more;
    assert t[..|line|] == line && t[|line| + 2..] == more;
  }

  lemma LastLine(d: Draft, line: string, rest: string)
    requires line != "" && FindCrLf(line + CRLF + (CRLF + rest)) == |line|
    ensures HeaderLines(d, line + CRLF + (CRLF + rest), |line|) == HeaderLine(d, line)
  {
    hide FindCrLf, HeaderLine;
    var t := line + CRLF + (CRLF + rest);
    assert t[..|line|] == line;
  }

  lemma LinesStart(hs: seq<Header>, rest: string)
    requires hs != [] && Clean(hs[0])
    ensures var t := Lines(hs) + (CRLF + rest); |t| >= 2 && t[0] != '\r' && |Lines(hs)| >= 2
  {
    assert Lines(hs)[0] == hs[0].key[0];
  }

  // ---------------------------------------------------------------- what the headers come to

  /** The value the last header of a name gives it; `name` is in lower case. */
  function Last(hs: seq<Header>, name: string): Option<string> {
    if hs == [] then None
    else
      var h := hs[|hs| - 1];
      if LowerAll(h.key) == name then Some(h.value) else Last(hs[..|hs| - 1], name)
  }

  /** The headers of a message, as a reader collects them. */
  ghost predicate Collects(r: map<string, string>, hs: seq<Header>) {
    forall n :: (n in r <==> Last(hs, n).Some?) && (n in r ==> Last(hs, n) == Some(r[n]))
  }

  lemma {:induction false} AddAllEnd(d: Draft, hs: seq<Header>, h: Header)
    ensures AddAll(d, hs + [h]) == AddHeader(AddAll(d, hs), LowerAll(h.key), h.value)
    decreases |hs|
  {
    hide AddHeader;
    if hs == [] {
      assert [] + [h] == [h];
    } else {
      assert (hs + [h])[1..] == hs[1..] + [h];
      AddAllEnd(AddHeader(d, LowerAll(hs[0].key), hs[0].value), hs[1..], h);
    }
  }

  lemma {:induction false} AddAllCollects(d: Draft, hs: seq<Header>)
    requires d.message.headers == map[]
    ensures Collects(AddAll(d, hs).message.headers, hs)
    decreases |hs|
  {
    hide ParseHeader, LowerAll;
    if hs != [] {
      var init, h := hs[..|hs| - 1], hs[|hs| - 1];
      assert hs == init + [h];
      AddAllEnd(d, init, h);
      AddAllCollects(d, init);
      ParseKeepsHeaders(AddAll(d, init), LowerAll(h.key), h.value);
    }
  }

  lemma ParseKeepsHeaders(d: Draft, key: string, value: string)
    ensures AddHeader(d, key, value).message.headers == d.message.headers[key := value]
  {
  }

  /** Headers that say nothing about the connection or the length of the body. */
  predicate Neutral(h: Header) {
    LowerAll(h.key) != "connection" && LowerAll(h.key) != "content-length" && LowerAll(h.key) != "transfer-encoding"
  }

  ghost predicate AllNeutral(hs: seq<Header>) {
    forall h :: h in hs ==> Neutral(h)
  }

  /** The part of a draft that headers about the message itself leave alone. */
  predicate SameBut(d: Draft, d': Draft) {
    var m, m' := d.message, d'.message;
    && d'.contentLength == d.contentLength && d'.chunked == d.chunked && m'.keepalive == m.keepalive && SameStart(m, m')
  }

  predicate SameStart(m: Message, m': Message) {
    && m'.response == m.response && m'.verb == m.verb && m'.url == m.url && m'.version == m.version && m'.code == m.code
    && m'.body == m.body
  }

  lemma {:induction false} LowerTwice(s: string)
    ensures LowerAll(LowerAll(s)) == LowerAll(s)
  {
    if s != "" {
      LowerTwice(s[1..]);
    }
  }

  lemma NeutralHeader(d: Draft, h: Header)
    requires Neutral(h)
    ensures SameBut(d, AddHeader(d, LowerAll(h.key), h.value))
  {
    LowerTwice(h.key);
  }

  lemma {:induction false} NeutralHeaders(d: Draft, hs: seq<Header>)
    requires AllNeutral(hs)
    ensures SameBut(d, AddAll(d, hs))
    decreases |hs|
  {
    hide AddHeader, Neutral;
    if hs != [] {
      assert hs[0] in hs;
      NeutralHeader(d, hs[0]);
      assert forall g :: g in hs[1..] ==> g in hs;
      NeutralHeaders(AddHeader(d, LowerAll(hs[0].key), hs[0].value), hs[1..]);
    }
  }

  lemma {:induction false} AddAllJoin(d: Draft, a: seq<Header>, b: seq<Header>)
    ensures AddAll(d, a + b) == AddAll(AddAll(d, a), b)
    decreases |a|
  {
    hide AddHeader;
    if a == [] {
      assert a + b == b;
    } else {
      assert (a + b)[1..] == a[1..] + b;
      AddAllJoin(AddHeader(d, LowerAll(a[0].key), a[0].value), a[1..], b);
    }
  }

  lemma Lowered(s: string, t: string)
    requires |s| == |t| && forall i :: 0 <= i < |s| ==> t[i] == Lower(s[i])
    ensures LowerAll(s) == t
  {
  }

  lemma ConnectionName()
    ensures LowerAll("Connection") == LowerAll("connection") == "connection"
    ensures LowerAll("Keep-Alive") == "keep-alive" && LowerAll("Close") == "close"
  {
    hide LowerAll;
    Lowered("Connection", "connection");
    Lowered("connection", "connection");
    Lowered("Keep-Alive", "keep-alive");
    Lowered("Close", "close");
  }

  lemma ChunkedName()
    ensures LowerAll("Transfer-Encoding") == LowerAll("transfer-encoding") == "transfer-encoding"
    ensures LowerAll("chunked") == "chunked"
  {
    hide LowerAll;
    Lowered("Transfer-Encoding", "transfer-encoding");
    Lowered("transfer-encoding", "transfer-encoding");
    Lowered("chunked", "chunked");
  }

  lemma LengthName()
    ensures LowerAll("Content-Length") == LowerAll("content-length") == "content-length"
  {
    hide LowerAll;
    Lowered("Content-Length", "content-length");
    Lowered("content-length", "content-length");
  }

  lemma ConnectionHeader(d: Draft, keepalive: bool)
    ensures var h := HttpEncoder.Connection(keepalive);
            SameBut(d.(message := d.message.(keepalive := keepalive)), AddHeader(d, LowerAll(h.key), h.value))
  {
    hide LowerAll;
    ConnectionName();
  }

  lemma ChunkedHeader(d: Draft)
    ensures SameBut(d.(chunked := true), AddHeader(d, LowerAll("Transfer-Encoding"), "chunked"))
  {
    hide LowerAll;
    ChunkedName();
  }

  lemma LengthHeader(d: Draft, body: string)
    requires |body| < 0x8000_0000
    ensures SameBut(d.(contentLength := |body|), AddHeader(d, LowerAll("Content-Length"), ContentLength(body).value))
  {
    hide Atoi, Print, LowerAll;
    LengthName();
    AtoiPrint(|body|, "");
    assert Print(|body|, DECIMAL) + "" == Print(|body|, DECIMAL);
  }
}
