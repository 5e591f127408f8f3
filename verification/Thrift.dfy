/**
 The length-prefixed Thrift frame, on a little-endian host, and the streams made of such frames.
 */
module Thrift {

  type Byte = n: nat | n < 256
  type Bytes = seq<Byte>
  type uint32 = n: nat | n < TWO_TO_THE_32

  const TWO_TO_THE_32 := 0x1_0000_0000
  const HEAD := 12

  datatype Direction = Request | Response | OneWay

  datatype Message = Message(direction: Direction, isheartbeat: bool, methodName: Bytes, seqid: uint32, body: Bytes)

  const T_CALL := 1
  const T_REPLY := 2
  const T_ONEWAY := 4

  // ---------------------------------------------------------------- integers

  function BigEndian(n: uint32): (b: Bytes)
    ensures |b| == 4
  {
    [n / 0x100_0000, n / 0x1_0000 % 0x100, n / 0x100 % 0x100, n % 0x100]
  }

  function Word(b3: nat, b2: nat, b1: nat, b0: nat): (n: nat)
    ensures b3 < 256 && b2 < 256 && b1 < 256 && b0 < 256 ==> n < TWO_TO_THE_32
  {
    b3 * 0x100_0000 + b2 * 0x1_0000 + b1 * 0x100 + b0
  }

  function FromBigEndian(b: Bytes): (n: uint32)
    requires |b| == 4
  {
    Word(b[0], b[1], b[2], b[3])
  }

  function FromLittleEndian(b: Bytes): (n: uint32)
    requires |b| == 4
  {
    Word(b[3], b[2], b[1], b[0])
  }

  function Swap(n: uint32): uint32 {
    FromLittleEndian(BigEndian(n))
  }

  lemma BigEndianRoundTrip(n: uint32)
    ensures FromBigEndian(BigEndian(n)) == n
  {
    var a, b, c := n / 0x100, n / 0x1_0000, n / 0x100_0000;
    assert n == 0x100 * a + n % 0x100;
    assert a == 0x100 * (a / 0x100) + a % 0x100 && a / 0x100 == b;
    assert b == 0x100 * (b / 0x100) + b % 0x100 && b / 0x100 == c;
  }

  /** Swapping twice gives the number back, so a reply that echoes the swapped number is matched to its request. */
  lemma SwapTwice(n: uint32)
    ensures Swap(Swap(n)) == n
  {
    var b := BigEndian(n);
    BigEndianRoundTrip(n);
    BytesOf(b[3], b[2], b[1], b[0]);
  }

  lemma BytesOf(b3: nat, b2: nat, b1: nat, b0: nat)
    requires b3 < 256 && b2 < 256 && b1 < 256 && b0 < 256
    ensures BigEndian(Word(b3, b2, b1, b0)) == [b3, b2, b1, b0]
  {
    var n := Word(b3, b2, b1, b0);
    Digits(b3 * 0x1_0000 + b2 * 0x100 + b1, b0);
    Digits(b3 * 0x100 + b2, b1);
    Digits(b3, b2);
    assert n / 0x1_0000 == n / 0x100 / 0x100 && n / 0x100_0000 == n / 0x100 / 0x100 / 0x100;
  }

  lemma Digits(high: nat, low: nat)
    requires low < 256
    ensures (0x100 * high + low) / 0x100 == high && (0x100 * high + low) % 0x100 == low
  {
  }

  // ---------------------------------------------------------------- frames

  function Encode(m: Message): Bytes {
    var size := (HEAD + |m.methodName| + |m.body|) % TWO_TO_THE_32;
    BigEndian(size) + [0x80, 0x01] + [0, if m.direction == Response then T_REPLY else T_CALL]
    + BigEndian(|m.methodName| % TWO_TO_THE_32) + m.methodName + BigEndian(m.seqid) + m.body
  }

  /** `OutOfBounds` stands for reading past the bytes received. */
  datatype Decoded = Incomplete | Illegal | OutOfBounds | Frame(message: Message, length: nat)

  function Lower(c: Byte): Byte {
    if 65 <= c <= 90 then c + 32 else c
  }

  function LowerAll(s: Bytes): (r: Bytes)
    ensures |r| == |s|
  {
    seq(|s|, i requires 0 <= i < |s| => Lower(s[i]))
  }

  /** `AllsparkHeartBeat` in lower case. */
  const HEARTBEAT: Bytes := [97, 108, 108, 115, 112, 97, 114, 107, 104, 101, 97, 114, 116, 98, 101, 97, 116]

  function FrameSize(buf: Bytes): uint32
    requires |buf| >= HEAD
  {
    FromBigEndian(buf[..4])
  }

  function MethodLength(buf: Bytes): uint32
    requires |buf| >= HEAD
  {
    FromBigEndian(buf[8..12])
  }

  function FrameType(buf: Bytes): nat
    requires |buf| >= HEAD
  {
    var high: nat := buf[6];
    high * 0x100 + buf[7]
  }

  /** The message in the first `length` bytes. */
  function ReadMessage(buf: Bytes, length: nat): Message
    requires |buf| >= HEAD && HEAD + MethodLength(buf) + 4 <= length <= |buf|
  {
    var skip := HEAD + MethodLength(buf);
    var methodName := buf[HEAD..skip];
    Message(if FrameType(buf) == T_REPLY then Response else Request,
            |methodName| == 17 && LowerAll(methodName) == LowerAll(HEARTBEAT),
            methodName, FromLittleEndian(buf[skip..skip + 4]), buf[skip + 4..length])
  }

  /** Reads one frame; sizes are added in 32 bits. */
  function Decode(buf: Bytes): (r: Decoded)
    ensures r.Frame? ==> 0 < r.length <= |buf|
  {
    if |buf| < HEAD || (FrameSize(buf) + 4) % TWO_TO_THE_32 > |buf| then Incomplete
    else if FrameType(buf) !in {T_CALL, T_ONEWAY, T_REPLY} then Illegal
    else if (HEAD + MethodLength(buf)) % TWO_TO_THE_32 > |buf| then Illegal
    else
      var skip := HEAD + MethodLength(buf) + 4;
      var length := skip + (FrameSize(buf) + 4 - skip) % TWO_TO_THE_32;
      if length > |buf| then OutOfBounds else Frame(ReadMessage(buf, length), length)
  }

  /** A frame with a known type whose method fits into it. */
  ghost predicate WellFormed(f: Bytes) {
    && |f| >= HEAD && |f| == FrameSize(f) + 4 && |f| < TWO_TO_THE_32
    && FrameType(f) in {T_CALL, T_ONEWAY, T_REPLY}
    && HEAD + MethodLength(f) + 4 <= |f|
  }

  ghost function MessageOf(f: Bytes): Message
    requires WellFormed(f)
  {
    ReadMessage(f, |f|)
  }

  lemma SameHead(f: Bytes, rest: Bytes)
    requires |f| >= HEAD
    ensures FrameSize(f + rest) == FrameSize(f) && MethodLength(f + rest) == MethodLength(f)
    ensures FrameType(f + rest) == FrameType(f)
  {
    hide FromBigEndian;
    assert (f + rest)[..4] == f[..4] && (f + rest)[8..12] == f[8..12];
  }

  lemma SameMessage(f: Bytes, rest: Bytes)
    requires |f| >= HEAD && HEAD + MethodLength(f) + 4 <= |f|
    ensures MethodLength(f + rest) == MethodLength(f)
    ensures ReadMessage(f + rest, |f|) == ReadMessage(f, |f|)
  {
    hide FrameType, MethodLength, FromLittleEndian, LowerAll;
    SameHead(f, rest);
    var skip := HEAD + MethodLength(f);
    assert (f + rest)[HEAD..skip] == f[HEAD..skip];
    assert (f + rest)[skip..skip + 4] == f[skip..skip + 4];
    assert (f + rest)[skip + 4..|f|] == f[skip + 4..|f|];
  }

  /** A whole frame is read the same way whatever follows it. */
  lemma FrameDecodes(f: Bytes, rest: Bytes)
    requires WellFormed(f)
    ensures Decode(f + rest) == Frame(MessageOf(f), |f|)
  {
    hide FrameType, MethodLength, FrameSize, ReadMessage;
    SameHead(f, rest);
    SameMessage(f, rest);
    SmallMod(|f|);
    SmallMod(HEAD + MethodLength(f));
    SmallMod(|f| - (HEAD + MethodLength(f) + 4));
  }

  lemma SmallMod(n: nat)
    requires n < TWO_TO_THE_32
    ensures n % TWO_TO_THE_32 == n
  {
  }

  /** Part of a frame is waited for. */
  lemma PartIncomplete(f: Bytes, n: nat)
    requires WellFormed(f) && n < |f|
    ensures Decode(f[..n]) == Incomplete
  {
    hide FrameType, MethodLength, FrameSize, ReadMessage;
    if n >= HEAD {
      assert f == f[..n] + f[n..];
      SameHead(f[..n], f[n..]);
      SmallMod(|f|);
    }
  }

  /** Encoding and decoding: all comes back but the sequence number, which comes back with its bytes swapped. */
  lemma EncodeDecode(m: Message, rest: Bytes)
    requires HEAD + 4 + |m.methodName| + |m.body| < TWO_TO_THE_32
    ensures WellFormed(Encode(m))
    ensures var r := Decode(Encode(m) + rest);
            && r.Frame? && r.length == |Encode(m)|
            && r.message.methodName == m.methodName && r.message.body == m.body && r.message.seqid == Swap(m.seqid)
            && (r.message.direction == Response <==> m.direction == Response)
            && (m.direction == Request ==> r.message.direction == Request)
  {
    hide Encode, Decode, FrameType, MethodLength, FrameSize;
    EncodedHead(m);
    EncodedParts(m);
    FrameDecodes(Encode(m), rest);
    assert Encode(m)[HEAD + |m.methodName| + 4..] == Encode(m)[HEAD + |m.methodName| + 4..|Encode(m)|];
  }

  lemma EncodedHead(m: Message)
    requires HEAD + 4 + |m.methodName| + |m.body| < TWO_TO_THE_32
    ensures var f := Encode(m);
            && |f| == HEAD + 4 + |m.methodName| + |m.body|
            && FrameSize(f) + 4 == |f| && MethodLength(f) == |m.methodName|
            && FrameType(f) == if m.direction == Response then T_REPLY else T_CALL
  {
    hide BigEndian, FromBigEndian;
    var f, size := Encode(m), HEAD + |m.methodName| + |m.body|;
    SmallMod(size);
    SmallMod(|m.methodName|);
    BigEndianRoundTrip(size);
    BigEndianRoundTrip(|m.methodName|);
    assert f[..4] == BigEndian(size) && f[8..12] == BigEndian(|m.methodName|);
  }

  lemma EncodedParts(m: Message)
    requires HEAD + 4 + |m.methodName| + |m.body| < TWO_TO_THE_32
    ensures var f, skip := Encode(m), HEAD + |m.methodName|;
            |f| == skip + 4 + |m.body| && f[HEAD..skip] == m.methodName
            && f[skip..skip + 4] == BigEndian(m.seqid) && f[skip + 4..] == m.body
  {
  }

  /** A request and a reply that echoes the number read in it: the requester reads back the number it used. */
  lemma EchoRestoresSeqid(request: Message, received: Message, reply: Message, answered: Message, rest: Bytes,
                          more: Bytes)
    requires HEAD + 4 + |request.methodName| + |request.body| < TWO_TO_THE_32
    requires HEAD + 4 + |reply.methodName| + |reply.body| < TWO_TO_THE_32
    requires Decode(Encode(request) + rest) == Frame(received, |Encode(request)|)
    requires reply.seqid == received.seqid
    requires Decode(Encode(reply) + more) == Frame(answered, |Encode(reply)|)
    ensures answered.seqid == request.seqid
  {
    hide Encode, Decode, Swap;
    EncodeDecode(request, rest);
    EncodeDecode(reply, more);
    SwapTwice(request.seqid);
  }

  // ---------------------------------------------------------------- frames from their fields

  /** A frame as a peer may write it: any version, any two bytes of type, any four of number. */
  datatype Fields = Fields(size: Bytes, version: Bytes, kind: Bytes, methodLength: Bytes, methodName: Bytes,
                           number: Bytes, body: Bytes)

  /** Four bytes, the first one weighing most. */
  predicate InNetworkOrder(b: Bytes, n: nat) {
    |b| == 4 && n == 0x100_0000 * b[0] as int + 0x1_0000 * b[1] as int + 0x100 * b[2] as int + b[3] as int
  }

  /** The size counts all but itself. */
  predicate Fit(f: Fields) {
    && |f.version| == 2 && |f.kind| == 2 && |f.number| == 4
    && InNetworkOrder(f.size, 12 + |f.methodName| + |f.body|) && InNetworkOrder(f.methodLength, |f.methodName|)
    && 16 + |f.methodName| + |f.body| < TWO_TO_THE_32
  }

  function Laid(f: Fields): Bytes {
    f.size + f.version + f.kind + f.methodLength + f.methodName + f.number + f.body
  }

  const HEARTBEAT_NAME := "AllsparkHeartBeat"

  /** The byte is that letter, in either case. */
  predicate SameLetter(b: Byte, c: char) {
    || b as int == c as int
    || ('a' <= c <= 'z' && b as int == c as int - 32)
    || ('A' <= c <= 'Z' && b as int == c as int + 32)
  }

  predicate NamesHeartBeat(methodName: Bytes) {
    && |methodName| == |HEARTBEAT_NAME|
    && forall i :: 0 <= i < |methodName| ==> SameLetter(methodName[i], HEARTBEAT_NAME[i])
  }

  /**
   What a frame says, by its type: calls and one-way calls are requests, replies are responses, and there is nothing
   else.
   */
  function Says(f: Fields): Decoded
    requires Fit(f)
  {
    if f.kind == [0, 1] || f.kind == [0, 4] || f.kind == [0, 2] then
      var n0: int, n1: int, n2: int, n3: int := f.number[0], f.number[1], f.number[2], f.number[3];
      var number := n0 + 0x100 * n1 + 0x1_0000 * n2 + 0x100_0000 * n3;
      var direction := if f.kind == [0, 2] then Response else Request;
      Frame(Message(direction, NamesHeartBeat(f.methodName), f.methodName, number, f.body),
            16 + |f.methodName| + |f.body|)
    else Illegal
  }

  /** A frame decodes to what its fields say, whatever follows it. */
  lemma FieldsDecode(f: Fields, rest: Bytes)
    requires Fit(f)
    ensures Decode(Laid(f) + rest) == Says(f)
  {
    hide Laid, FrameSize, FrameType, MethodLength, ReadMessage, NamesHeartBeat;
    var buf := Laid(f) + rest;
    LaidHead(f);
    SameHead(Laid(f), rest);
    SmallMod(16 + |f.methodName| + |f.body|);
    SmallMod(12 + |f.methodName|);
    TypeOfKind(f.kind);
    if f.kind == [0, 1] || f.kind == [0, 4] || f.kind == [0, 2] {
      SmallMod(|f.body|);
      SameMessage(Laid(f), rest);
      LaidMessage(f);
    }
  }

  lemma LaidHead(f: Fields)
    requires Fit(f)
    ensures var l := Laid(f);
            && |l| == 16 + |f.methodName| + |f.body| && FrameSize(l) == |l| - 4 && MethodLength(l) == |f.methodName|
            && l[6..8] == f.kind && FrameType(l) == f.kind[0] as int * 0x100 + f.kind[1] as int
  {
    var l := Laid(f);
    assert l[..4] == f.size && l[8..12] == f.methodLength;
    assert l[6..8] == f.kind && l[6] == f.kind[0] && l[7] == f.kind[1];
  }

  /**
   What is written is a frame with these fields; type 2 for a response and 1 for anything else, the number in network
   order.
   */
  lemma EncodeLaid(m: Message) returns (f: Fields)
    requires HEAD + 4 + |m.methodName| + |m.body| < TWO_TO_THE_32
    ensures Fit(f) && Encode(m) == Laid(f)
    ensures f.version == [0x80, 0x01] && f.kind == [0, if m.direction == Response then 2 else 1]
    ensures f.methodName == m.methodName && f.body == m.body && InNetworkOrder(f.number, m.seqid)
  {
    var size := HEAD + |m.methodName| + |m.body|;
    hide BigEndian, FromBigEndian, InNetworkOrder;
    SmallMod(size);
    SmallMod(|m.methodName|);
    NetworkOrder(size);
    NetworkOrder(|m.methodName|);
    NetworkOrder(m.seqid);
    f := Fields(BigEndian(size), [0x80, 0x01], [0, if m.direction == Response then 2 else 1], BigEndian(|m.methodName|),
                m.methodName, BigEndian(m.seqid), m.body);
  }

  lemma NetworkOrder(n: uint32)
    ensures InNetworkOrder(BigEndian(n), n)
  {
    BigEndianRoundTrip(n);
  }

  lemma TypeOfKind(kind: Bytes)
    requires |kind| == 2
    ensures forall t: nat :: t < 256 ==> (kind[0] as int * 0x100 + kind[1] as int == t <==> kind == [0, t])
  {
  }

  lemma LaidMessage(f: Fields)
    requires Fit(f) && |Laid(f)| == 16 + |f.methodName| + |f.body| && MethodLength(Laid(f)) == |f.methodName|
    requires f.kind == [0, 1] || f.kind == [0, 4] || f.kind == [0, 2]
    requires FrameType(Laid(f)) == f.kind[1]
    ensures ReadMessage(Laid(f), |Laid(f)|) == Says(f).message
  {
    hide FrameType, MethodLength, NamesHeartBeat, LowerAll;
    var l, skip := Laid(f), HEAD + |f.methodName|;
    assert l[HEAD..skip] == f.methodName && l[skip..skip + 4] == f.number && l[skip + 4..|l|] == f.body;
    HeartBeatRead(f.methodName);
  }

  /** Comparing in lower case with the lower-case name is comparing letter by letter. */
  lemma HeartBeatRead(methodName: Bytes)
    ensures |methodName| == 17 && LowerAll(methodName) == LowerAll(HEARTBEAT) <==> NamesHeartBeat(methodName)
  {
    hide SameLetter;
    HeartBeatLetters();
    if |methodName| == 17 {
      forall i | 0 <= i < 17
        ensures Lower(methodName[i]) == LowerAll(HEARTBEAT)[i] <==> SameLetter(methodName[i], HEARTBEAT_NAME[i])
      {
        LetterRead(methodName[i], HEARTBEAT_NAME[i]);
      }
      assert LowerAll(methodName) == LowerAll(HEARTBEAT) <==>
             forall i :: 0 <= i < 17 ==> LowerAll(methodName)[i] == LowerAll(HEARTBEAT)[i];
    }
  }

  predicate IsLetter(c: char) {
    'a' <= c <= 'z' || 'A' <= c <= 'Z'
  }

  function LowerOf(c: char): int {
    if 'A' <= c <= 'Z' then c as int + 32 else c as int
  }

  lemma LetterRead(b: Byte, c: char)
    requires IsLetter(c)
    ensures Lower(b) == LowerOf(c) <==> SameLetter(b, c)
  {
  }

  lemma HeartBeatLetters()
    ensures |HEARTBEAT| == |HEARTBEAT_NAME| == 17
    ensures forall i :: 0 <= i < 17 ==>
                IsLetter(HEARTBEAT_NAME[i]) && LowerAll(HEARTBEAT)[i] == LowerOf(HEARTBEAT_NAME[i])
  {
  }

  // ---------------------------------------------------------------- frames that are not well formed

  /** A buffer holds fewer than `2^31` bytes. */
  const MAX_LENGTH := 0x8000_0000

  /** What is made of a frame does not depend on the bytes that happen to follow it in the buffer. */
  ghost predicate Independent(f: Bytes) {
    forall rest: Bytes :: |f + rest| < MAX_LENGTH ==> Decode(f + rest) == Decode(f)
  }

  /**
   A frame complete by its own size field is read independently of what follows exactly if its type is unknown or its
   method length, added in 32 bits, does not point past its end and into what may follow.
   */
  lemma IndependentFrames(f: Bytes)
    requires |f| >= HEAD && |f| == FrameSize(f) + 4 && |f| < MAX_LENGTH
    ensures Independent(f) <==>
      || FrameType(f) !in {T_CALL, T_ONEWAY, T_REPLY}
      || !(|f| < (HEAD + MethodLength(f)) % TWO_TO_THE_32 < MAX_LENGTH)
  {
    hide FrameType, MethodLength, FrameSize, ReadMessage;
    var reach := (HEAD + MethodLength(f)) % TWO_TO_THE_32;
    SmallMod(|f|);
    if FrameType(f) in {T_CALL, T_ONEWAY, T_REPLY} && |f| < reach < MAX_LENGTH {
      var rest: Bytes := seq(reach - |f|, _ => 0);
      SameHead(f, rest);
      assert Decode(f) == Illegal && Decode(f + rest) != Illegal;
      assert |f + rest| < MAX_LENGTH;
    } else {
      forall rest: Bytes | |f + rest| < MAX_LENGTH ensures Decode(f + rest) == Decode(f) {
        SameHead(f, rest);
        SameOutcome(f, rest);
      }
    }
  }

  lemma SameOutcome(f: Bytes, rest: Bytes)
    requires |f| >= HEAD && |f| == FrameSize(f) + 4 && |f + rest| < MAX_LENGTH
    requires FrameSize(f + rest) == FrameSize(f) && MethodLength(f + rest) == MethodLength(f)
    requires FrameType(f + rest) == FrameType(f)
    requires FrameType(f) !in {T_CALL, T_ONEWAY, T_REPLY}
          || !(|f| < (HEAD + MethodLength(f)) % TWO_TO_THE_32 < MAX_LENGTH)
    ensures Decode(f + rest) == Decode(f)
  {
    hide FrameType, MethodLength, FrameSize, ReadMessage;
    SmallMod(|f|);
    var skip := HEAD + MethodLength(f) + 4;
    if skip <= |f| {
      SameMessage(f, rest);
      SmallMod(|f| - skip);
    } else {
      Overshoots(|f|, skip);
    }
  }

  // ---------------------------------------------------------------- frames that end before their method does

  /** A frame complete by its own size field, of a known type, whose method, in 32 bits, ends within the buffer. */
  predicate PassesTests(buf: Bytes) {
    && |buf| >= HEAD && (FrameSize(buf) + 4) % TWO_TO_THE_32 <= |buf|
    && FrameType(buf) in {T_CALL, T_ONEWAY, T_REPLY}
    && (HEAD + MethodLength(buf)) % TWO_TO_THE_32 <= |buf|
  }

  /** A frame that is taken apart is long enough, by its own size field, for its head, its method and its number. */
  predicate SizeCoversMethod(buf: Bytes) {
    PassesTests(buf) ==> HEAD + MethodLength(buf) + 4 <= (FrameSize(buf) + 4) % TWO_TO_THE_32
  }

  /**
   No test compares a frame's size with its method's length, and without that the decoder reads what it has not
   received.
   */
  lemma ReadsPastEnd(buf: Bytes)
    requires |buf| < TWO_TO_THE_32
    ensures Decode(buf) == OutOfBounds <==> !SizeCoversMethod(buf)
    ensures Decode(buf).Frame? <==> PassesTests(buf) && SizeCoversMethod(buf)
    ensures Decode(buf).Frame? ==> Decode(buf).length == (FrameSize(buf) + 4) % TWO_TO_THE_32
  {
    hide FrameType, MethodLength, FrameSize, ReadMessage;
    if PassesTests(buf) {
      var size, skip := (FrameSize(buf) + 4) % TWO_TO_THE_32, HEAD + MethodLength(buf) + 4;
      SameRest(FrameSize(buf) + 4, skip);
      if size < skip {
        Overshoots(size, skip);
      } else {
        SmallMod(size - skip);
      }
    }
  }

  lemma SameRest(n: nat, skip: nat)
    ensures (n - skip) % TWO_TO_THE_32 == (n % TWO_TO_THE_32 - skip) % TWO_TO_THE_32
  {
    var q, r := n / TWO_TO_THE_32, (n - skip) / TWO_TO_THE_32;
    assert n == TWO_TO_THE_32 * q + n % TWO_TO_THE_32;
    assert n - skip == TWO_TO_THE_32 * r + (n - skip) % TWO_TO_THE_32;
    assert n % TWO_TO_THE_32 - skip == TWO_TO_THE_32 * (r - q) + (n - skip) % TWO_TO_THE_32;
    ModOf(r - q, (n - skip) % TWO_TO_THE_32);
  }

  lemma ModOf(q: int, r: nat)
    requires r < TWO_TO_THE_32
    ensures (TWO_TO_THE_32 * q + r) % TWO_TO_THE_32 == r
  {
  }

  /** Sixteen bytes that do it, whatever follows them: a size of 0, and a method of length 0. */
  const SHORT_FRAME: Bytes := [0, 0, 0, 0, 0x80, 0x01, 0, T_CALL, 0, 0, 0, 0, 0, 0, 0, 0]

  lemma ShortFrameReadsPastEnd(rest: Bytes)
    requires |SHORT_FRAME + rest| < TWO_TO_THE_32
    ensures Decode(SHORT_FRAME + rest) == OutOfBounds
  {
    hide Decode, FrameSize, FrameType, MethodLength;
    ShortFrameHead();
    SameHead(SHORT_FRAME, rest);
    ReadsPastEnd(SHORT_FRAME + rest);
  }

  lemma ShortFrameHead()
    ensures |SHORT_FRAME| == 16 && FrameSize(SHORT_FRAME) == 0 && MethodLength(SHORT_FRAME) == 0
    ensures FrameType(SHORT_FRAME) == T_CALL
  {
    hide SHORT_FRAME, FrameSize, FrameType, MethodLength;
    ShortFrameBytes();
    ZeroHead(SHORT_FRAME);
  }

  lemma ZeroHead(buf: Bytes)
    requires |buf| >= HEAD && buf[6] == 0 && buf[7] == T_CALL
    requires forall i :: 0 <= i < 4 || 8 <= i < 12 ==> buf[i] == 0
    ensures FrameSize(buf) == 0 && MethodLength(buf) == 0 && FrameType(buf) == T_CALL
  {
    hide FromBigEndian;
    FourZeros(buf[..4]);
    FourZeros(buf[8..12]);
  }

  lemma ShortFrameBytes()
    ensures |SHORT_FRAME| == 16 && SHORT_FRAME[6] == 0 && SHORT_FRAME[7] == T_CALL
    ensures forall i :: 0 <= i < 4 || 8 <= i < 12 ==> SHORT_FRAME[i] == 0
  {
  }

  lemma FourZeros(b: Bytes)
    requires |b| == 4 && forall i :: 0 <= i < 4 ==> b[i] == 0
    ensures FromBigEndian(b) == 0
  {
  }

  lemma Overshoots(length: nat, skip: nat)
    requires length < skip
    ensures skip + (length - skip) % TWO_TO_THE_32 >= length + TWO_TO_THE_32
  {
    var n := skip + (length - skip) % TWO_TO_THE_32;
    var q := (length - skip) / TWO_TO_THE_32;
    assert length - skip == TWO_TO_THE_32 * q + (length - skip) % TWO_TO_THE_32;
    assert n == length - TWO_TO_THE_32 * q && q < 0;
  }
}
