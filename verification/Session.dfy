/**
 A client session: requests wait for the connection, are then remembered by sequence id with a timer each, and end in a
 response, an error reply or, when nobody owns the session, nowhere.

 The session is driven by events; its owner's handlers do not call back into it. A message is identified by `id`, which
 stands for the message object (and for the context the caller hung on it).
 */
module Session {
  datatype Packet = Packet(id: nat, seqid: nat, request: bool)

  datatype Status = WAITING | CONNECTED | TIMED_OUT | CONNECTING | CLOSED

  datatype Code = PEER_CLOSE | TIME_OUT

  datatype Direction = REQUEST | RESPONSE | ONE_WAY

  /** A message read from the connection. */
  datatype Arrival = Arrival(heartbeat: bool, direction: Direction, ok: bool, seqid: nat)

  /** What the session does, in order: calls to its owner, messages handed to the connection, deletions. */
  datatype Deed =
    | Dialled
    | Beat
    | Accepted
    | Connected
    | PeerClosed
    | Wrote(packet: Packet)
    | Received(arrival: Arrival)
    | Answered(packet: Packet, response: Arrival)
    | Failed(packet: Packet, code: Code)
    | Discarded(packet: Packet)

  datatype Clock = Unset | Idle | Armed

  datatype State = State(
    status: Status,
    owned: bool,
    autoreconnect: bool,
    heartbeat: bool,
    reconnect: Clock,
    beating: bool,
    waiting: seq<Packet>,
    history: seq<Packet>,
    timers: set<Packet>,
    log: seq<Deed>,
    given: seq<Packet>)

  function Initial(owned: bool, autoreconnect: bool, heartbeat: bool): State {
    State(WAITING, owned, autoreconnect, heartbeat, Unset, false, [], [], {}, [], [])
  }

  datatype Event =
    | DoConnect
    | ConnectResult(success: bool)
    | OnAccept
    | DoSendTo(packet: Packet)
    | OnRead(arrival: Arrival)
    | RequestTimer(packet: Packet)
    | ReconnectTimer
    | HeartBeatTimer(canBeat: bool)
    | OnPeerClose
    | Close
    | SetOwner(owned: bool)

  // ---------------------------------------------------------------- the request history, ordered by sequence id

  function Insert(h: seq<Packet>, p: Packet): seq<Packet> {
    if h == [] || p.seqid < h[0].seqid then [p] + h else [h[0]] + Insert(h[1..], p)
  }

  /** Position of the first entry with a sequence id, or the length. */
  function Find(h: seq<Packet>, seqid: nat): (i: nat)
    ensures i <= |h| && (i < |h| ==> h[i].seqid == seqid)
    ensures forall j :: 0 <= j < i ==> h[j].seqid != seqid
  {
    if h == [] || h[0].seqid == seqid then 0 else 1 + Find(h[1..], seqid)
  }

  function Erase(h: seq<Packet>, i: nat): seq<Packet>
    requires i < |h|
  {
    h[..i] + h[i + 1..]
  }

  // ---------------------------------------------------------------- what each event does

  /** The end of a message with no response: an error reply to the owner, or a deletion. */
  function GiveUp(p: Packet, owned: bool, code: Code): Deed {
    if owned then Failed(p, code) else Discarded(p)
  }

  function GiveUpAll(ps: seq<Packet>, owned: bool): (log: seq<Deed>)
    ensures |log| == |ps|
  {
    if ps == [] then [] else [GiveUp(ps[0], owned, PEER_CLOSE)] + GiveUpAll(ps[1..], owned)
  }

  ghost function SetOf(ps: seq<Packet>): set<Packet> {
    set p | p in ps
  }

  ghost function CleanRequests(s: State): State {
    s.(history := [], waiting := [], timers := s.timers - SetOf(s.history),
       log := s.log + GiveUpAll(s.history, s.owned) + GiveUpAll(s.waiting, s.owned))
  }

  /** A message handed to an open connection: a request is remembered and timed, anything else is done with. */
  ghost function Transmit(s: State, p: Packet): State {
    if p.request then
      s.(history := Insert(s.history, p), timers := s.timers + {p}, log := s.log + [Wrote(p)])
    else s.(log := s.log + [Wrote(p)])
  }

  ghost function TransmitAll(s: State, ps: seq<Packet>): State
    decreases |ps|
  {
    if ps == [] then s else TransmitAll(Transmit(s, ps[0]), ps[1..])
  }

  ghost function DealWaitingList(s: State): State {
    if s.status == CONNECTED then TransmitAll(s.(waiting := []), s.waiting)
    else s.(waiting := [], log := s.log + GiveUpAll(s.waiting, s.owned))
  }

  function Note(s: State, d: Deed): State {
    if s.owned then s.(log := s.log + [d]) else s
  }

  function Dial(s: State): State {
    if s.status == CONNECTED || s.status == CONNECTING then s
    else s.(status := CONNECTING, log := s.log + [Dialled])
  }

  ghost function Send(s: State, p: Packet): State {
    var s := s.(given := s.given + [p]);
    if s.status == CONNECTING || s.status == WAITING then s.(waiting := s.waiting + [p])
    else if p.request && s.status != CONNECTED then s.(log := s.log + [Failed(p, PEER_CLOSE)])
    else Transmit(s, p)
  }

  function Read(s: State, a: Arrival): State {
    if a.heartbeat then
      s.(status := CONNECTED, log := if a.direction == REQUEST then s.log + [Beat] else s.log)
    else if a.direction != RESPONSE then
      if s.owned then s.(status := CONNECTED, log := s.log + [Received(a)]) else s
    else
      var s := if a.ok then s.(status := CONNECTED) else s;
      var i := Find(s.history, a.seqid);
      if i == |s.history| then s
      else
        var p := s.history[i];
        var s := s.(history := Erase(s.history, i), timers := s.timers - {p});
        if s.owned then s.(status := CONNECTED, log := s.log + [Answered(p, a)])
        else s.(log := s.log + [Discarded(p)])
  }

  function Expire(s: State, p: Packet): State {
    var s := s.(timers := s.timers - {p});
    var i := Find(s.history, p.seqid);
    if i == |s.history| then s
    else s.(history := Erase(s.history, i), log := s.log + [GiveUp(p, s.owned, TIME_OUT)])
  }

  ghost function Next(s: State, e: Event): State {
    match e
    case DoConnect => Dial(s)
    case ReconnectTimer => Dial(s.(reconnect := Idle))
    case ConnectResult(success) =>
      var s := if success then
                 s.(status := CONNECTED, beating := s.beating || s.heartbeat,
                    reconnect := if s.reconnect == Unset then Unset else Idle)
               else s.(reconnect := if s.autoreconnect then Armed else s.reconnect);
      DealWaitingList(Note(s, Connected))
    case OnAccept => Note(s.(status := CONNECTED), Accepted)
    case DoSendTo(p) => Send(s, p)
    case OnRead(a) => Read(s, a)
    case RequestTimer(p) => Expire(s, p)
    case HeartBeatTimer(canBeat) =>
      if (s.status == CONNECTED || s.status == TIMED_OUT) && canBeat then s.(log := s.log + [Beat]) else s
    case OnPeerClose =>
      var s := CleanRequests(s.(status := CLOSED));
      if s.autoreconnect then s.(status := WAITING, reconnect := Armed) else Note(s, PeerClosed)
    case Close =>
      var s := s.(owned := false);
      if s.status == CLOSED then s else CleanRequests(s.(status := CLOSED))
    case SetOwner(owned) => s.(owned := owned)
  }

  /** The source dereferences its owner without a test when a request is sent on a closed session. */
  predicate Faults(s: State, e: Event) {
    e.DoSendTo? && e.packet.request && (s.status == CLOSED || s.status == TIMED_OUT) && !s.owned
  }

  /** Events the surroundings can cause: each message object is given once, and only armed timers run out. */
  predicate Possible(s: State, e: Event) {
    && !Faults(s, e)
    && (e.DoSendTo? ==> e.packet !in s.given)
    && (e.RequestTimer? ==> e.packet in s.timers)
    && (e.ReconnectTimer? ==> s.reconnect == Armed)
    && (e.HeartBeatTimer? ==> s.beating)
  }
}
