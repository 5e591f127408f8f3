/**
 The Thrift parser object: a running offset over the received bytes, and appends to the output buffer, proved to be the
 frame's decoding and encoding.
 */
module ThriftParser {
  import opened Thrift
  import opened Buffers
  import opened Wrappers

  class CThriftMessage {
    var direction: Direction
    var isheartbeat: bool
    var methodName: Bytes
    var seqid: uint32
    var body: Bytes

    constructor ()
      ensures Value() == Message(Request, false, [], 0, [])
    {
      direction, isheartbeat, methodName, seqid, body := Request, false, [], 0, [];
    }

    function Value(): Message
      reads this
    {
      Message(direction, isheartbeat, methodName, seqid, body)
    }
  }

  /** Sums and differences in 32 bits. */
  function Plus(a: nat, b: nat): uint32 {
    (a + b) % TWO_TO_THE_32
  }

  function Minus(a: nat, b: nat): uint32 {
    (a - b) % TWO_TO_THE_32
  }

  /**
   Decodes into a new message. The result is the position of the next frame; 0 while the frame is incomplete; nothing
   when it is illegal. A frame shorter than its own method is left to the caller not to pass.
   */
  method Decode(buf: Bytes, message: CThriftMessage) returns (p: Option<nat>)
    requires !message.isheartbeat && |buf| < TWO_TO_THE_32 && SizeCoversMethod(buf)
    modifies message
    ensures p == match Thrift.Decode(buf)
                 case Frame(_, length) => Some(length)
                 case Incomplete => Some(0)
                 case Illegal => None
                 case OutOfBounds => None
    ensures Thrift.Decode(buf).Frame? ==> message.Value() == Thrift.Decode(buf).message
    ensures Thrift.Decode(buf).Incomplete? ==> message.Value() == old(message.Value())
    ensures forall f, rest :: Fit(f) && buf == Laid(f) + rest ==>
              if Says(f).Frame? then p == Some(Says(f).length) && message.Value() == Says(f).message else p == None
  {
    hide FromBigEndian, FromLittleEndian, LowerAll, Fit, Laid, Says;
    DecodesFields(buf);
    ReadsPastEnd(buf);
    var skip: uint32 := HEAD;
    if |buf| < skip {
      return Some(0);
    }
    var size, frameType, methodlen := FrameSize(buf), FrameType(buf), MethodLength(buf);
    if Plus(size, 4) > |buf| {
      return Some(0);
    }
    if frameType == T_CALL || frameType == T_ONEWAY {
      message.direction := Request;
    } else if frameType == T_REPLY {
      message.direction := Response;
    } else {
      return None;
    }
    if Plus(skip, methodlen) > |buf| {
      return None;
    }
    var next := Fill(buf, message);
    return Some(next);
  }

  lemma DecodesFields(buf: Bytes)
    ensures forall f, rest :: Fit(f) && buf == Laid(f) + rest ==> Thrift.Decode(buf) == Says(f)
    ensures forall f :: Fit(f) ==> Says(f).Frame? || Says(f).Illegal?
  {
    hide Fit, Laid, Thrift.Decode;
    forall f, rest | Fit(f) && buf == Laid(f) + rest ensures Thrift.Decode(buf) == Says(f) {
      FieldsDecode(f, rest);
    }
  }

  /** Fills in a message whose method ends within the buffer, and its body. */
  method Fill(buf: Bytes, message: CThriftMessage) returns (p: nat)
    requires Thrift.Decode(buf).Frame? && !message.isheartbeat && |buf| < TWO_TO_THE_32
    requires message.direction == Thrift.Decode(buf).message.direction
    modifies message`methodName, message`isheartbeat, message`seqid, message`body
    ensures p == Thrift.Decode(buf).length && message.Value() == Thrift.Decode(buf).message
  {
    FrameParts(buf);
    hide FromBigEndian, FromLittleEndian, LowerAll, Thrift.Decode, Plus, Minus;
    var size, methodlen := FrameSize(buf), MethodLength(buf);
    var skip := Plus(HEAD, methodlen);
    message.methodName := buf[HEAD..skip];
    if methodlen == 17 && LowerAll(message.methodName) == LowerAll(HEARTBEAT) {
      message.isheartbeat := true;
    }
    message.seqid := FromLittleEndian(buf[skip..skip + 4]);
    skip := skip + 4;
    var bodylen := Minus(Plus(size, 4), skip);
    message.body := buf[skip..skip + bodylen];
    return skip + bodylen;
  }

  /** Where the parts of a frame are, with the sums taken in 32 bits. */
  lemma FrameParts(buf: Bytes)
    requires Thrift.Decode(buf).Frame? && |buf| < TWO_TO_THE_32
    ensures |buf| >= HEAD
    ensures var skip, length := HEAD + MethodLength(buf), Thrift.Decode(buf).length;
            && Plus(HEAD, MethodLength(buf)) == skip && skip + 4 <= length <= |buf|
            && skip + 4 + Minus(Plus(FrameSize(buf), 4), skip + 4) == length
            && Thrift.Decode(buf).message == ReadMessage(buf, length)
  {
    hide FromBigEndian, FromLittleEndian, LowerAll, ReadMessage;
  }

  method Encode(message: CThriftMessage, out: CBuffer<Byte>)
    requires out.Valid()
    modifies out, out.base
    ensures out.Valid() && out.Contents() == old(out.Contents()) + Thrift.Encode(message.Value())
    ensures out.base == old(out.base) || fresh(out.base)
  {
    hide BigEndian, Thrift.Encode;
    var size := Plus(HEAD, |message.methodName| + |message.body|);
    var kind := if message.direction == Response then T_REPLY else T_CALL;
    var head := BigEndian(size) + [0x80, 0x01] + [0, kind] + BigEndian(|message.methodName| % TWO_TO_THE_32);
    EncodedInPieces(out.Contents(), message.Value(), head);
    out.Append(head);
    out.Append(message.methodName);
    out.Append(BigEndian(message.seqid));
    out.Append(message.body);
  }

  lemma EncodedInPieces(out: Bytes, m: Message, head: Bytes)
    requires head == BigEndian(Plus(HEAD, |m.methodName| + |m.body|)) + [0x80, 0x01]
                     + [0, if m.direction == Response then T_REPLY else T_CALL]
                     + BigEndian(|m.methodName| % TWO_TO_THE_32)
    ensures out + head + m.methodName + BigEndian(m.seqid) + m.body == out + Thrift.Encode(m)
  {
    hide BigEndian;
    Regroup(out, head, m.methodName, BigEndian(m.seqid), m.body);
  }

  lemma Regroup(out: Bytes, a: Bytes, b: Bytes, c: Bytes, d: Bytes)
    ensures out + a + b + c + d == out + (a + b + c + d)
  {
  }
}
