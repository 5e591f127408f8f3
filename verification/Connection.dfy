/**
 The read handler that reassembles frames in a growing input buffer.
 */
module Connection {
  import opened Thrift
  import opened Framing
  import opened Buffers

  class CConnection {
    const buffer: CBuffer<Byte>
    var connected: bool
    var isDealingRead: bool
    /** Whether a session is attached. */
    var session: bool
    var reading: bool
    /** Messages handed to the session. */
    var delivered: seq<Message>
    /** How many sessions have been attached, and how many of them told that the connection is closed. */
    ghost var attached: nat
    ghost var told: nat

    /** Nobody is told twice: a session that has been told is no longer attached. */
    ghost predicate Valid()
      reads this, buffer
    {
      buffer.Valid() && told + (if session then 1 else 0) <= attached
    }

    ghost function State(): Wire
      requires Valid()
      reads this, buffer, buffer.base
    {
      Wire(delivered, buffer.Contents(), buffer.capacity, connected)
    }

    constructor (session: bool)
      ensures Valid() && fresh(buffer) && fresh(buffer.base) && this.session == session && !connected && delivered == []
      ensures told == 0
      ensures State() == FRESH.(open := false)
    {
      buffer := new CBuffer<Byte>(BUFFER_INIT_CAPACITY);
      connected, isDealingRead, reading := false, false, false;
      this.session := session;
      delivered := [];
      attached, told := if session then 1 else 0, 0;
    }

    /** Attaches a session, or none. */
    method SetOwner(session: bool)
      requires Valid()
      modifies this`session, this`attached
      ensures Valid() && this.session == session && attached == old(attached) + if session then 1 else 0
    {
      this.session := session;
      attached := attached + if session then 1 else 0;
    }

    /** Asks for the next bytes, unless closed or called from within the decode loop. */
    method AsyncReadInner()
      modifies this`reading
      ensures reading == (old(reading) || (connected && !isDealingRead))
    {
      if connected && !isDealingRead {
        reading := true;
      }
    }

    /** Tells the session attached, if the connection was open, and lets go of it. */
    method OnPeerClose()
      requires Valid()
      modifies this`isDealingRead, this`connected, this`session, this`told
      ensures Valid() && !connected && !isDealingRead && session == (old(session) && !old(connected))
      ensures told == old(told) + if old(session) && old(connected) then 1 else 0
    {
      isDealingRead := false;
      if connected && session {
        told := told + 1;
        session := false;
      }
      connected := false;
    }

    /**
     A read has failed, or completed with `data` in the space offered. A completed read is one step of the stream:
     every complete frame goes to the session, the rest moves to the front, and the buffer grows when it runs low; or
     the connection is closed, which the session is told. With nobody to take a frame, the first one closes the
     connection.
     */
    method HandleRead(err: bool, data: Bytes)
      requires Valid() && |data| < buffer.Free()
      requires !err && |buffer.Contents() + data| <= MAX_PACKET_SIZE ==> Decodable(buffer.Contents() + data, session)
      modifies this, buffer, buffer.base
      ensures Valid() && !isDealingRead && (buffer.base == old(buffer.base) || fresh(buffer.base))
      ensures attached == old(attached)
      ensures err ==>
                && delivered == old(delivered) && !connected && buffer.Contents() == []
                && session == (old(session) && !old(connected))
                && told == old(told) + if old(session) && old(connected) then 1 else 0
      ensures !err ==>
                var w := Taken(old(State()).(open := true), data, old(session));
                && delivered == w.delivered && connected == w.open && session == (old(session) && w.open)
                && told == old(told) + (if old(session) && !w.open then 1 else 0)
                && (connected ==> reading && State() == w)
    {
      hide DecodeAll, Receive, Decodable;
      ghost var before, all := State().(open := true), buffer.Contents() + data;
      TakenCases(before, data, session);
      reading := false;
      if err {
        buffer.loc := 0;
        OnPeerClose();
        return;
      }
      TakeIn(data);
      if buffer.loc > MAX_PACKET_SIZE {
        OnPeerClose();
        return;
      }
      var p, closed := TakeFrames(all);
      if closed {
        OnPeerClose();
        return;
      }
      isDealingRead := false;
      KeepRest(p);
      AsyncReadInner();
    }

    /** The network has filled the space offered. */
    method TakeIn(data: Bytes)
      requires Valid() && |data| < buffer.Free()
      modifies this`connected, buffer`loc, buffer.base
      ensures Valid() && connected && buffer.Contents() == old(buffer.Contents()) + data
    {
      buffer.Fill(data);
      connected := true;
      buffer.loc := buffer.loc + |data|;
    }

    /** Moves what is left to the front, and grows a buffer that runs low. */
    method KeepRest(p: nat)
      requires Valid() && p <= buffer.loc
      modifies buffer, buffer.base
      ensures Valid() && buffer.Contents() == old(buffer.Contents())[p..]
      ensures buffer.capacity == Grown(old(buffer.capacity), buffer.loc)
      ensures buffer.base == old(buffer.base) || fresh(buffer.base)
    {
      buffer.KeepFrom(p);
      if buffer.Free() <= LOW_WATER {
        buffer.AddCapacity(buffer.capacity);
      }
    }

    /**
     The decode loop: hands over frames until the buffer is used up or holds only part of one; or finds an illegal one.
     */
    method TakeFrames(ghost all: Bytes) returns (p: nat, closed: bool)
      requires Valid() && buffer.Contents() == all && Decodable(all, session)
      modifies this`isDealingRead, this`delivered
      ensures p <= |all|
      ensures session ==>
                && delivered == old(delivered) + DecodeAll(all).messages && all[p..] == DecodeAll(all).rest
                && (closed <==> DecodeAll(all).outcome.Broken?)
      ensures !session ==> delivered == old(delivered) && p == 0 && (closed <==> all != [] && !Decode(all).Incomplete?)
    {
      hide Decode, DecodeAll, Before, Unfolded;
      p := 0;
      ghost var taken: seq<Message> := [];
      NothingTaken(all);
      assert delivered + [] == delivered;
      while p < buffer.loc
        invariant p <= |all| && delivered == old(delivered) + taken
        invariant !session ==> p == 0 && taken == []
        invariant DecodeAll(all) == Before(taken, DecodeAll(all[p..]))
      {
        isDealingRead := true;
        var decoded := Decode(buffer.base[p..buffer.loc]);
        assert buffer.base[p..buffer.loc] == all[p..];
        if !decoded.Frame? {
          Halts(all, p, taken);
          return p, !decoded.Incomplete?;
        }
        FrameTaken(all, p, taken, decoded);
        if !session {
          return p, true;
        }
        delivered := delivered + [decoded.message];
        taken := taken + [decoded.message];
        p := p + decoded.length;
      }
      AllTaken(all, p, taken);
      return p, false;
    }
  }

  /** What is decoded is long enough, by its own size fields: every frame with a session, the first one without. */
  predicate Decodable(all: Bytes, session: bool) {
    if session then AllCovered(all) else all != [] ==> SizeCoversMethod(all)
  }

  /** That is what keeps decoding from reading past the bytes received. */
  lemma DecodableExact(all: Bytes, session: bool)
    requires |all| <= MAX_PACKET_SIZE
    ensures Decodable(all, session)
       <==> if session then DecodeAll(all).outcome != Broken(OutOfBounds) else all != [] ==> Decode(all) != OutOfBounds
  {
    hide Decode, DecodeAll, AllCovered, SizeCoversMethod;
    ReadsPastBuffer(all);
    ReadsPastEnd(all);
  }

  /** A completed read: a step of the stream, or, when there is nobody to take what begins the buffer, the end. */
  function Taken(w: Wire, chunk: Bytes, session: bool): Wire {
    if !session && w.held + chunk != [] && !Decode(w.held + chunk).Incomplete? then w.(open := false)
    else Receive(w, chunk)
  }

  lemma TakenCases(w: Wire, chunk: Bytes, session: bool)
    requires w.open
    ensures var r, s, all := Taken(w, chunk, session), DecodeAll(w.held + chunk), w.held + chunk;
            if |all| > MAX_PACKET_SIZE then r == w.(open := false)
            else if !session then
              if all != [] && !Decode(all).Incomplete? then r == w.(open := false)
              else r == Wire(w.delivered, all, Grown(w.capacity, |all|), true)
            else if s.outcome.Broken? then r == w.(delivered := w.delivered + s.messages, open := false)
            else r == Wire(w.delivered + s.messages, s.rest, Grown(w.capacity, |s.rest|), true)
  {
    hide DecodeAll, Receive;
    ReceiveCases(w, chunk);
    var all := w.held + chunk;
    if !session && (all == [] || Decode(all).Incomplete?) {
      NothingToTake(all);
      assert w.delivered + [] == w.delivered;
    }
  }

  lemma NothingToTake(all: Bytes)
    requires all == [] || Decode(all).Incomplete?
    ensures DecodeAll(all) == Split([], all, Pending)
  {
    hide Decode;
  }

  /** A read on an open connection, case by case. */
  lemma ReceiveCases(w: Wire, chunk: Bytes)
    requires w.open
    ensures var r, s := Receive(w, chunk), DecodeAll(w.held + chunk);
            if |w.held + chunk| > MAX_PACKET_SIZE then r == w.(open := false)
            else if s.outcome.Broken? then r == w.(delivered := w.delivered + s.messages, open := false)
            else r == Wire(w.delivered + s.messages, s.rest, Grown(w.capacity, |s.rest|), true)
  {
    hide DecodeAll;
  }

  function Before(taken: seq<Message>, s: Split): Split {
    Split(taken + s.messages, s.rest, s.outcome)
  }

  lemma NothingTaken(all: Bytes)
    ensures all[0..] == all && Before([], DecodeAll(all)) == DecodeAll(all)
  {
    hide DecodeAll;
    assert [] + DecodeAll(all).messages == DecodeAll(all).messages;
  }

  lemma FrameTaken(all: Bytes, p: nat, taken: seq<Message>, d: Decoded)
    requires p < |all| && d == Decode(all[p..]) && d.Frame?
    requires DecodeAll(all) == Before(taken, DecodeAll(all[p..]))
    ensures p + d.length <= |all| && DecodeAll(all) == Before(taken + [d.message], DecodeAll(all[p + d.length..]))
  {
    hide Decode, DecodeAll, Before;
    DecodeStep(all[p..]);
    DropDrop(all, p, d.length);
    UnfoldedFrame(all[p..], d);
    OneMore(taken, d.message, DecodeAll(all[p + d.length..]));
  }

  lemma UnfoldedFrame(s: Bytes, d: Decoded)
    requires s != [] && d == Decode(s) && d.Frame? && d.length <= |s|
    ensures Unfolded(s) == Before([d.message], DecodeAll(s[d.length..]))
  {
    hide Decode, DecodeAll, Before;
  }

  lemma DropDrop(s: Bytes, p: nat, n: nat)
    requires p + n <= |s|
    ensures s[p..][n..] == s[p + n..]
  {
  }

  lemma OneMore(taken: seq<Message>, m: Message, s: Split)
    ensures Before(taken, Before([m], s)) == Before(taken + [m], s)
  {
    assert taken + ([m] + s.messages) == taken + [m] + s.messages;
  }

  lemma Halts(all: Bytes, p: nat, taken: seq<Message>)
    requires p < |all| && DecodeAll(all) == Before(taken, DecodeAll(all[p..])) && !Decode(all[p..]).Frame?
    ensures DecodeAll(all)
         == Split(taken, all[p..], if Decode(all[p..]).Incomplete? then Pending else Broken(Decode(all[p..])))
  {
    hide DecodeAll, Decode;
    DecodeStep(all[p..]);
    assert taken + [] == taken;
  }

  lemma AllTaken(all: Bytes, p: nat, taken: seq<Message>)
    requires p == |all| && DecodeAll(all) == Before(taken, DecodeAll(all[p..]))
    ensures DecodeAll(all) == Split(taken, all[p..], Pending)
  {
    assert all[p..] == [];
    assert taken + [] == taken;
  }

  /** One turn of the decode loop. */
  function Unfolded(s: Bytes): Split
    requires s != []
  {
    var d := Decode(s);
    if d.Frame? then Before([d.message], DecodeAll(s[d.length..]))
    else Split([], s, if d.Incomplete? then Pending else Broken(d))
  }

  lemma DecodeStep(s: Bytes)
    requires s != []
    ensures Decode(s).Frame? ==> Decode(s).length <= |s|
    ensures DecodeAll(s) == Unfolded(s)
  {
  }
}
