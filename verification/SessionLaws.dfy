/**
 What a session tells and sends, event by event and over whole runs, without the machine that does it.
 */
module SessionLaws {
  import opened Session
  import SessionRuns

  // ---------------------------------------------------------------- one event

  function AllWrote(ps: seq<Packet>): (log: seq<Deed>) {
    seq(|ps|, i requires 0 <= i < |ps| => Wrote(ps[i]))
  }

  /** The end of messages without a response: error replies to the owner, or silence. */
  function AllEnded(ps: seq<Packet>, owned: bool): (log: seq<Deed>) {
    seq(|ps|, i requires 0 <= i < |ps| => if owned then Failed(ps[i], PEER_CLOSE) else Discarded(ps[i]))
  }

  function When(c: bool, d: Deed): seq<Deed> {
    if c then [d] else []
  }

  /** The first remembered message with a sequence id, if there is one. */
  ghost predicate FirstWith(h: seq<Packet>, seqid: nat, p: Packet) {
    exists i :: 0 <= i < |h| && h[i] == p && p.seqid == seqid && forall j :: 0 <= j < i ==> h[j].seqid != seqid
  }

  ghost predicate Remembered(h: seq<Packet>, seqid: nat) {
    exists i :: 0 <= i < |h| && h[i].seqid == seqid
  }

  /** What a read message makes the session do. */
  ghost predicate Reads(s: State, a: Arrival, deeds: seq<Deed>) {
    if a.heartbeat then deeds == When(a.direction == REQUEST, Beat)
    else if a.direction != RESPONSE then deeds == When(s.owned, Received(a))
    else if !Remembered(s.history, a.seqid) then deeds == []
    else exists p :: FirstWith(s.history, a.seqid, p) && deeds == [if s.owned then Answered(p, a) else Discarded(p)]
  }

  /** What a message to be sent makes it do; with a connection it goes out, before there is one it waits. */
  function Sends(s: State, p: Packet): seq<Deed> {
    match s.status
    case CONNECTING => []
    case WAITING => []
    case CONNECTED => [Wrote(p)]
    case TIMED_OUT => [if p.request then Failed(p, PEER_CLOSE) else Wrote(p)]
    case CLOSED => [if p.request then Failed(p, PEER_CLOSE) else Wrote(p)]
  }

  ghost predicate Expires(s: State, p: Packet, deeds: seq<Deed>) {
    deeds == When(Remembered(s.history, p.seqid), if s.owned then Failed(p, TIME_OUT) else Discarded(p))
  }

  /** All that is outstanding ends, what was sent before what waits; an owner is told unless there is a redial. */
  ghost function PeerCloseDeeds(s: State): seq<Deed> {
    AllEnded(s.history, s.owned) + AllEnded(s.waiting, s.owned) + When(s.owned && !s.autoreconnect, PeerClosed)
  }

  /** What an event adds to the log. */
  ghost predicate Adds(s: State, e: Event, deeds: seq<Deed>) {
    match e
    case DoConnect => deeds == When(s.status != CONNECTED && s.status != CONNECTING, Dialled)
    case ReconnectTimer => deeds == When(s.status != CONNECTED && s.status != CONNECTING, Dialled)
    case ConnectResult(success) =>
      deeds == When(s.owned, Connected)
               + if success || s.status == CONNECTED then AllWrote(s.waiting) else AllEnded(s.waiting, s.owned)
    case OnAccept => deeds == When(s.owned, Accepted)
    case DoSendTo(p) => deeds == Sends(s, p)
    case OnRead(a) => Reads(s, a, deeds)
    case RequestTimer(p) => Expires(s, p, deeds)
    case HeartBeatTimer(canBeat) => deeds == When(canBeat && (s.status == CONNECTED || s.status == TIMED_OUT), Beat)
    case OnPeerClose => deeds == PeerCloseDeeds(s)
    case Close => deeds == if s.status == CLOSED then [] else AllEnded(s.history, false) + AllEnded(s.waiting, false)
    case SetOwner(_) => deeds == []
  }

  lemma {:induction false} GiveUpAllIs(ps: seq<Packet>, owned: bool)
    ensures GiveUpAll(ps, owned) == AllEnded(ps, owned)
  {
    if ps != [] {
      GiveUpAllIs(ps[1..], owned);
    }
  }

  lemma {:induction false} TransmitAllIs(s: State, ps: seq<Packet>)
    ensures TransmitAll(s, ps).log == s.log + AllWrote(ps)
    decreases |ps|
  {
    hide Insert;
    if ps == [] {
      assert s.log + [] == s.log;
    } else {
      TransmitAllIs(Transmit(s, ps[0]), ps[1..]);
      assert s.log + [Wrote(ps[0])] + AllWrote(ps[1..]) == s.log + AllWrote(ps);
    }
  }

  lemma FindIs(h: seq<Packet>, seqid: nat)
    ensures Find(h, seqid) == |h| <==> !Remembered(h, seqid)
    ensures Find(h, seqid) < |h| ==> FirstWith(h, seqid, h[Find(h, seqid)])
  {
    var i := Find(h, seqid);
    if i < |h| {
      assert h[i].seqid == seqid;
    }
  }

  /** Every event adds to the log exactly what it should, and takes nothing back. */
  lemma StepAdds(s: State, e: Event) returns (deeds: seq<Deed>)
    ensures Next(s, e).log == s.log + deeds && Adds(s, e, deeds)
  {
    hide Insert, Erase, TransmitAll, GiveUpAll, Remembered, FirstWith, AllEnded, AllWrote, Find, DealWaitingList;
    hide CleanRequests, Read, Send, Expire;
    assert s.log + [] == s.log;
    match e
    case DoConnect => deeds := When(s.status != CONNECTED && s.status != CONNECTING, Dialled);
    case ReconnectTimer => deeds := When(s.status != CONNECTED && s.status != CONNECTING, Dialled);
    case ConnectResult(success) => deeds := ConnectAdds(s, success);
    case OnAccept => deeds := When(s.owned, Accepted);
    case DoSendTo(p) =>
      deeds := Sends(s, p);
      SendAdds(s, p);
    case OnRead(a) => deeds := ReadAdds(s, a);
    case RequestTimer(p) => deeds := ExpireAdds(s, p);
    case HeartBeatTimer(canBeat) => deeds := When(canBeat && (s.status == CONNECTED || s.status == TIMED_OUT), Beat);
    case OnPeerClose =>
      deeds := PeerCloseDeeds(s);
      PeerCloseAdds(s);
    case Close =>
      deeds := if s.status == CLOSED then [] else AllEnded(s.history, false) + AllEnded(s.waiting, false);
      CloseAdds(s);
    case SetOwner(owned) => deeds := [];
  }

  lemma ConnectAdds(s: State, success: bool) returns (deeds: seq<Deed>)
    ensures Next(s, ConnectResult(success)).log == s.log + deeds && Adds(s, ConnectResult(success), deeds)
  {
    hide TransmitAll, GiveUpAll, AllEnded, AllWrote;
    var first := When(s.owned, Connected);
    var rest := if success || s.status == CONNECTED then AllWrote(s.waiting) else AllEnded(s.waiting, s.owned);
    deeds := first + rest;
    var s1 := if success then
                s.(status := CONNECTED, beating := s.beating || s.heartbeat,
                   reconnect := if s.reconnect == Unset then Unset else Idle)
              else s.(reconnect := if s.autoreconnect then Armed else s.reconnect);
    var s2 := Note(s1, Connected);
    assert s2.log == s.log + first by {
      assert s.log + [] == s.log;
    }
    TransmitAllIs(s2.(waiting := []), s.waiting);
    GiveUpAllIs(s.waiting, s.owned);
    assert s.log + first + rest == s.log + deeds;
  }

  lemma SendAdds(s: State, p: Packet)
    ensures Next(s, DoSendTo(p)).log == s.log + Sends(s, p)
  {
    hide Insert;
    assert s.log + [] == s.log;
  }

  lemma ReadAdds(s: State, a: Arrival) returns (deeds: seq<Deed>)
    ensures Next(s, OnRead(a)).log == s.log + deeds && Adds(s, OnRead(a), deeds)
  {
    hide Erase, Find, Remembered, FirstWith;
    FindIs(s.history, a.seqid);
    var i := Find(s.history, a.seqid);
    assert s.log + [] == s.log;
    deeds := if a.heartbeat then When(a.direction == REQUEST, Beat)
             else if a.direction != RESPONSE then When(s.owned, Received(a))
             else if i == |s.history| then []
             else [if s.owned then Answered(s.history[i], a) else Discarded(s.history[i])];
  }

  lemma ExpireAdds(s: State, p: Packet) returns (deeds: seq<Deed>)
    ensures Next(s, RequestTimer(p)).log == s.log + deeds && Adds(s, RequestTimer(p), deeds)
  {
    hide Erase, Find, Remembered, FirstWith;
    FindIs(s.history, p.seqid);
    assert s.log + [] == s.log;
    deeds := When(Remembered(s.history, p.seqid), if s.owned then Failed(p, TIME_OUT) else Discarded(p));
  }

  lemma PeerCloseAdds(s: State)
    ensures Next(s, OnPeerClose).log == s.log + PeerCloseDeeds(s)
  {
    hide GiveUpAll, AllEnded;
    GiveUpAllIs(s.history, s.owned);
    GiveUpAllIs(s.waiting, s.owned);
  }

  lemma CloseAdds(s: State)
    ensures Next(s, Close).log
         == s.log + if s.status == CLOSED then [] else AllEnded(s.history, false) + AllEnded(s.waiting, false)
  {
    hide GiveUpAll, AllEnded;
    GiveUpAllIs(s.history, false);
    GiveUpAllIs(s.waiting, false);
    assert s.log + [] == s.log;
  }

  // ---------------------------------------------------------------- what is left to do

  /** A request takes its place in the history behind all with its sequence id or a smaller one. */
  ghost predicate Placed(h: seq<Packet>, p: Packet, h': seq<Packet>) {
    exists k :: PlacedAt(h, p, k, h')
  }

  predicate PlacedAt(h: seq<Packet>, p: Packet, k: nat, h': seq<Packet>) {
    && k <= |h| && h' == h[..k] + [p] + h[k..]
    && (forall i :: 0 <= i < k ==> h[i].seqid <= p.seqid) && (forall i :: k <= i < |h| ==> p.seqid < h[i].seqid)
  }

  /** So do the requests among the messages sent, one after another. */
  ghost predicate PlacedAll(h: seq<Packet>, ps: seq<Packet>, h': seq<Packet>)
    decreases |ps|
  {
    if ps == [] then h' == h
    else if !ps[0].request then PlacedAll(h, ps[1..], h')
    else exists next :: Placed(h, ps[0], next) && PlacedAll(next, ps[1..], h')
  }

  /** The first entry with a sequence id leaves the history, if there is one. */
  ghost predicate Struck(h: seq<Packet>, seqid: nat, h': seq<Packet>) {
    if !Remembered(h, seqid) then h' == h
    else exists i :: 0 <= i < |h| && h[i].seqid == seqid && (forall j :: 0 <= j < i ==> h[j].seqid != seqid)
                     && h' == h[..i] + h[i + 1..]
  }

  /** Messages given before there is a connection wait, in order, for the result of the attempt. */
  function WaitingAfter(s: State, e: Event): seq<Packet> {
    match e
    case DoSendTo(p) => if s.status == CONNECTING || s.status == WAITING then s.waiting + [p] else s.waiting
    case ConnectResult(_) => []
    case OnPeerClose => []
    case Close => if s.status == CLOSED then s.waiting else []
    case DoConnect => s.waiting
    case ReconnectTimer => s.waiting
    case OnAccept => s.waiting
    case OnRead(_) => s.waiting
    case RequestTimer(_) => s.waiting
    case HeartBeatTimer(_) => s.waiting
    case SetOwner(_) => s.waiting
  }

  ghost predicate Remembers(s: State, e: Event, h': seq<Packet>) {
    match e
    case DoSendTo(p) => if p.request && s.status == CONNECTED then Placed(s.history, p, h') else h' == s.history
    case ConnectResult(success) =>
      if success || s.status == CONNECTED then PlacedAll(s.history, s.waiting, h') else h' == s.history
    case OnRead(a) =>
      if !a.heartbeat && a.direction == RESPONSE then Struck(s.history, a.seqid, h') else h' == s.history
    case RequestTimer(p) => Struck(s.history, p.seqid, h')
    case OnPeerClose => h' == []
    case Close => h' == if s.status == CLOSED then s.history else []
    case DoConnect => h' == s.history
    case ReconnectTimer => h' == s.history
    case OnAccept => h' == s.history
    case HeartBeatTimer(_) => h' == s.history
    case SetOwner(_) => h' == s.history
  }

  /** A session is connected by a successful attempt, by being accepted, and by what is read from its connection. */
  ghost function StatusAfter(s: State, e: Event): Status {
    match e
    case DoConnect => if s.status == CONNECTED then CONNECTED else CONNECTING
    case ReconnectTimer => if s.status == CONNECTED then CONNECTED else CONNECTING
    case ConnectResult(success) => if success then CONNECTED else s.status
    case OnAccept => CONNECTED
    case OnRead(a) =>
      if a.heartbeat || (a.direction == RESPONSE && a.ok) || (a.direction != RESPONSE && s.owned)
         || (a.direction == RESPONSE && s.owned && Remembered(s.history, a.seqid))
      then CONNECTED else s.status
    case OnPeerClose => if s.autoreconnect then WAITING else CLOSED
    case Close => CLOSED
    case DoSendTo(_) => s.status
    case RequestTimer(_) => s.status
    case HeartBeatTimer(_) => s.status
    case SetOwner(_) => s.status
  }

  function OwnedAfter(owned: bool, e: Event): bool {
    match e
    case SetOwner(o) => o
    case Close => false
    case DoConnect => owned
    case ReconnectTimer => owned
    case ConnectResult(_) => owned
    case OnAccept => owned
    case DoSendTo(_) => owned
    case OnRead(_) => owned
    case RequestTimer(_) => owned
    case HeartBeatTimer(_) => owned
    case OnPeerClose => owned
  }

  /** The reconnect timer is armed when an attempt fails or the connection ends, and stopped by a success. */
  function ReconnectAfter(s: State, e: Event): Clock {
    match e
    case ReconnectTimer => Idle
    case ConnectResult(success) =>
      if success then if s.reconnect == Unset then Unset else Idle else if s.autoreconnect then Armed else s.reconnect
    case OnPeerClose => if s.autoreconnect then Armed else s.reconnect
    case DoConnect => s.reconnect
    case OnAccept => s.reconnect
    case DoSendTo(_) => s.reconnect
    case OnRead(_) => s.reconnect
    case RequestTimer(_) => s.reconnect
    case HeartBeatTimer(_) => s.reconnect
    case Close => s.reconnect
    case SetOwner(_) => s.reconnect
  }

  ghost predicate Moves(s: State, e: Event, s': State) {
    && s'.waiting == WaitingAfter(s, e) && Remembers(s, e, s'.history) && s'.status == StatusAfter(s, e)
    && s'.owned == OwnedAfter(s.owned, e) && s'.reconnect == ReconnectAfter(s, e)
    && s'.autoreconnect == s.autoreconnect && s'.heartbeat == s.heartbeat
    && s'.given == s.given + (if e.DoSendTo? then [e.packet] else [])
    && s'.beating == (s.beating || (e == ConnectResult(true) && s.heartbeat))
  }

  lemma {:induction false} InsertPlaces(h: seq<Packet>, p: Packet) returns (k: nat)
    requires SessionRuns.Sorted(h)
    ensures PlacedAt(h, p, k, Insert(h, p)) && Placed(h, p, Insert(h, p))
  {
    hide Placed, PlacedAt;
    if h == [] || p.seqid < h[0].seqid {
      k := 0;
      PlacedFirst(h, p);
    } else {
      k := InsertPlaces(h[1..], p);
      PlacedBehind(h, p, k, Insert(h[1..], p));
      k := k + 1;
    }
    ItIsPlaced(h, p, k, Insert(h, p));
  }

  lemma ItIsPlaced(h: seq<Packet>, p: Packet, k: nat, h': seq<Packet>)
    requires PlacedAt(h, p, k, h')
    ensures Placed(h, p, h')
  {
  }

  lemma PlacedFirst(h: seq<Packet>, p: Packet)
    requires SessionRuns.Sorted(h) && (h == [] || p.seqid < h[0].seqid)
    ensures PlacedAt(h, p, 0, [p] + h)
  {
    assert [p] + h == h[..0] + [p] + h[0..];
  }

  lemma PlacedBehind(h: seq<Packet>, p: Packet, k: nat, t': seq<Packet>)
    requires h != [] && h[0].seqid <= p.seqid && PlacedAt(h[1..], p, k, t')
    ensures PlacedAt(h, p, k + 1, [h[0]] + t')
  {
    var t := h[1..];
    assert [h[0]] + (t[..k] + [p] + t[k..]) == h[..k + 1] + [p] + h[k + 1..];
    assert forall i :: 1 <= i < |h| ==> h[i] == t[i - 1];
  }

  lemma {:induction false} TransmitPlaces(s: State, ps: seq<Packet>)
    requires SessionRuns.Sorted(s.history)
    ensures var r := TransmitAll(s, ps);
            && PlacedAll(s.history, ps, r.history)
            && r.waiting == s.waiting && r.status == s.status && r.owned == s.owned
            && r.reconnect == s.reconnect && r.autoreconnect == s.autoreconnect && r.heartbeat == s.heartbeat
            && r.beating == s.beating && r.given == s.given
    decreases |ps|
  {
    hide Insert, Placed;
    if ps != [] {
      if ps[0].request {
        var k := InsertPlaces(s.history, ps[0]);
        SessionRuns.InsertSorted(s.history, ps[0]);
      }
      TransmitPlaces(Transmit(s, ps[0]), ps[1..]);
    }
  }

  lemma EraseStrikes(h: seq<Packet>, seqid: nat)
    ensures var i := Find(h, seqid); Struck(h, seqid, if i == |h| then h else Erase(h, i))
  {
    FindIs(h, seqid);
  }

  /** What an event does to everything else the session keeps. */
  lemma StepMoves(s: State, e: Event)
    requires SessionRuns.Sorted(s.history)
    ensures Moves(s, e, Next(s, e))
  {
    hide Remembered, Placed, PlacedAll, Struck, DealWaitingList, CleanRequests, Send, Read, Expire, Moves;
    assert s.given + [] == s.given;
    match e
    case ConnectResult(success) => ConnectMoves(s, success);
    case DoSendTo(p) => SendMoves(s, p);
    case OnRead(a) => ReadMoves(s, a);
    case RequestTimer(p) => ExpireMoves(s, p);
    case OnPeerClose => ClosingMoves(s);
    case Close => ClosingMoves(s);
    case DoConnect => OtherMoves(s, e);
    case ReconnectTimer => OtherMoves(s, e);
    case OnAccept => OtherMoves(s, e);
    case HeartBeatTimer(canBeat) => OtherMoves(s, e);
    case SetOwner(owned) => OtherMoves(s, e);
  }

  lemma ClosingMoves(s: State)
    ensures Moves(s, OnPeerClose, Next(s, OnPeerClose)) && Moves(s, Close, Next(s, Close))
  {
    hide GiveUpAll;
    assert s.given + [] == s.given;
  }

  lemma OtherMoves(s: State, e: Event)
    requires e.DoConnect? || e.ReconnectTimer? || e.OnAccept? || e.HeartBeatTimer? || e.SetOwner?
    ensures Moves(s, e, Next(s, e))
  {
    hide DealWaitingList, CleanRequests, Send, Read, Expire, Placed, PlacedAll, Struck, Remembered;
    assert s.given + [] == s.given;
  }

  lemma ConnectMoves(s: State, success: bool)
    requires SessionRuns.Sorted(s.history)
    ensures Moves(s, ConnectResult(success), Next(s, ConnectResult(success)))
  {
    hide TransmitAll, GiveUpAll, PlacedAll;
    var s1 := if success then
                s.(status := CONNECTED, beating := s.beating || s.heartbeat,
                   reconnect := if s.reconnect == Unset then Unset else Idle)
              else s.(reconnect := if s.autoreconnect then Armed else s.reconnect);
    assert s.given + [] == s.given;
    TransmitPlaces(Note(s1, Connected).(waiting := []), s.waiting);
  }

  lemma SendMoves(s: State, p: Packet)
    requires SessionRuns.Sorted(s.history)
    ensures Moves(s, DoSendTo(p), Next(s, DoSendTo(p)))
  {
    hide Insert, Placed;
    assert s.given + [] == s.given;
    var k := InsertPlaces(s.history, p);
  }

  lemma ReadMoves(s: State, a: Arrival)
    ensures Moves(s, OnRead(a), Next(s, OnRead(a)))
  {
    if a.heartbeat || a.direction != RESPONSE {
      RequestMoves(s, a);
    } else {
      ResponseMoves(s, a);
    }
  }

  lemma RequestMoves(s: State, a: Arrival)
    requires a.heartbeat || a.direction != RESPONSE
    ensures Moves(s, OnRead(a), Next(s, OnRead(a)))
  {
    hide Erase, Find, Remembered, Struck;
    assert s.given + [] == s.given;
  }

  lemma ResponseMoves(s: State, a: Arrival)
    requires !a.heartbeat && a.direction == RESPONSE
    ensures Moves(s, OnRead(a), Next(s, OnRead(a)))
  {
    hide Erase, Find, Remembered, Struck;
    assert s.given + [] == s.given;
    FindIs(s.history, a.seqid);
    EraseStrikes(s.history, a.seqid);
  }

  lemma ExpireMoves(s: State, p: Packet)
    ensures Moves(s, RequestTimer(p), Next(s, RequestTimer(p)))
  {
    hide Erase, Find, Remembered, Struck;
    assert s.given + [] == s.given;
    FindIs(s.history, p.seqid);
    EraseStrikes(s.history, p.seqid);
  }

  // ---------------------------------------------------------------- whole runs

  lemma PlacedSorted(h: seq<Packet>, p: Packet, h': seq<Packet>)
    requires SessionRuns.Sorted(h) && Placed(h, p, h')
    ensures SessionRuns.Sorted(h')
  {
    var k :| PlacedAt(h, p, k, h');
  }

  lemma {:induction false} PlacedAllSorted(h: seq<Packet>, ps: seq<Packet>, h': seq<Packet>)
    requires SessionRuns.Sorted(h) && PlacedAll(h, ps, h')
    ensures SessionRuns.Sorted(h')
    decreases |ps|
  {
    hide SessionRuns.Sorted, Placed;
    if ps != [] {
      if ps[0].request {
        var next :| Placed(h, ps[0], next) && PlacedAll(next, ps[1..], h');
        PlacedSorted(h, ps[0], next);
        PlacedAllSorted(next, ps[1..], h');
      } else {
        PlacedAllSorted(h, ps[1..], h');
      }
    }
  }

  lemma StruckSorted(h: seq<Packet>, seqid: nat, h': seq<Packet>)
    requires SessionRuns.Sorted(h) && Struck(h, seqid, h')
    ensures SessionRuns.Sorted(h')
  {
  }

  lemma NothingSorted()
    ensures SessionRuns.Sorted([])
  {
  }

  /** The history stays in order of sequence id, whatever happens. */
  lemma StaysSorted(s: State, e: Event, s': State)
    requires SessionRuns.Sorted(s.history) && Moves(s, e, s')
    ensures SessionRuns.Sorted(s'.history)
  {
    hide SessionRuns.Sorted, Placed, PlacedAll, Struck, StatusAfter;
    NothingSorted();
    match e
    case DoSendTo(p) =>
      if p.request && s.status == CONNECTED {
        PlacedSorted(s.history, p, s'.history);
      }
    case ConnectResult(success) =>
      if success || s.status == CONNECTED {
        PlacedAllSorted(s.history, s.waiting, s'.history);
      }
    case OnRead(a) =>
      if !a.heartbeat && a.direction == RESPONSE {
        StruckSorted(s.history, a.seqid, s'.history);
      }
    case RequestTimer(p) => StruckSorted(s.history, p.seqid, s'.history);
    case DoConnect =>
    case ReconnectTimer =>
    case OnAccept =>
    case HeartBeatTimer(canBeat) =>
    case OnPeerClose =>
    case Close =>
    case SetOwner(owned) =>
  }

  /** The states of a run, and what each event adds to the log. */
  ghost predicate Follows(states: seq<State>, events: seq<Event>, deeds: seq<seq<Deed>>) {
    && |states| == |events| + 1 && |deeds| == |events|
    && forall i :: 0 <= i < |events| ==>
         Adds(states[i], events[i], deeds[i]) && Moves(states[i], events[i], states[i + 1])
         && states[i + 1].log == states[i].log + deeds[i]
  }

  /** Every run follows the laws. */
  lemma {:induction false} RunFollows(s: State, events: seq<Event>) returns (states: seq<State>, deeds: seq<seq<Deed>>)
    requires SessionRuns.Sorted(s.history)
    ensures Follows(states, events, deeds) && states[0] == s && states[|events|] == SessionRuns.Run(s, events)
    decreases |events|
  {
    hide Next, Adds, Moves, SessionRuns.Sorted;
    if events == [] {
      states, deeds := [s], [];
    } else {
      var s' := Next(s, events[0]);
      var first := StepAdds(s, events[0]);
      StepMoves(s, events[0]);
      StaysSorted(s, events[0], s');
      var later, rest := RunFollows(s', events[1..]);
      states, deeds := [s] + later, [first] + rest;
    }
  }

  // ---------------------------------------------------------------- arrivals

  /** The requests and one-way calls handed to the owner, in order. */
  function ReceivedOf(log: seq<Deed>): seq<Arrival> {
    if log == [] then []
    else ReceivedOf(log[..|log| - 1]) + if log[|log| - 1].Received? then [log[|log| - 1].arrival] else []
  }

  /** What is read while there is an owner and is neither a heartbeat nor a response. */
  function Due(owned: bool, events: seq<Event>): seq<Arrival>
    decreases |events|
  {
    if events == [] then []
    else
      var e := events[0];
      (if e.OnRead? && owned && !e.arrival.heartbeat && e.arrival.direction != RESPONSE then [e.arrival] else [])
      + Due(OwnedAfter(owned, e), events[1..])
  }

  function BeatsOf(log: seq<Deed>): nat {
    multiset(log)[Beat]
  }

  /** The heartbeats to be answered: those read, and those of the timer while there is a connection to send them on. */
  ghost function BeatsDue(s: State, e: Event): nat {
    match e
    case OnRead(a) => if a.heartbeat && a.direction == REQUEST then 1 else 0
    case HeartBeatTimer(canBeat) => if canBeat && (s.status == CONNECTED || s.status == TIMED_OUT) then 1 else 0
    case DoConnect => 0
    case ReconnectTimer => 0
    case ConnectResult(_) => 0
    case OnAccept => 0
    case DoSendTo(_) => 0
    case RequestTimer(_) => 0
    case OnPeerClose => 0
    case Close => 0
    case SetOwner(_) => 0
  }

  lemma {:induction false} ReceivedJoin(a: seq<Deed>, b: seq<Deed>)
    ensures ReceivedOf(a + b) == ReceivedOf(a) + ReceivedOf(b)
    decreases |b|
  {
    if b == [] {
      assert a + b == a;
    } else {
      var last := |b| - 1;
      assert (a + b)[..|a + b| - 1] == a + b[..last];
      ReceivedJoin(a, b[..last]);
    }
  }

  lemma {:induction false} NoneReceived(log: seq<Deed>)
    requires forall i :: 0 <= i < |log| ==> !log[i].Received?
    ensures ReceivedOf(log) == []
  {
    if log != [] {
      NoneReceived(log[..|log| - 1]);
    }
  }

  lemma OneReceived(d: Deed)
    ensures ReceivedOf([d]) == if d.Received? then [d.arrival] else []
  {
    assert [d][..0] == [];
    assert ReceivedOf([]) == [];
  }

  lemma AddsReceived(s: State, e: Event, deeds: seq<Deed>)
    requires Adds(s, e, deeds)
    ensures ReceivedOf(deeds)
         == if e.OnRead? && s.owned && !e.arrival.heartbeat && e.arrival.direction != RESPONSE then [e.arrival] else []
  {
    hide ReceivedOf, Remembered, FirstWith;
    if |deeds| == 1 {
      OneReceived(deeds[0]);
      assert deeds == [deeds[0]];
    }
    if forall i :: 0 <= i < |deeds| ==> !deeds[i].Received? {
      NoneReceived(deeds);
    }
  }

  /** The requests handed to the owner are, in order, exactly those read while there was one. */
  lemma {:induction false} ReceivedLaw(s: State, events: seq<Event>)
    requires SessionRuns.Sorted(s.history)
    ensures ReceivedOf(SessionRuns.Run(s, events).log) == ReceivedOf(s.log) + Due(s.owned, events)
    decreases |events|
  {
    hide Next, Adds, SessionRuns.Sorted, ReceivedOf;
    if events == [] {
      assert ReceivedOf(s.log) + [] == ReceivedOf(s.log);
    } else {
      var s' := Next(s, events[0]);
      var deeds := StepAdds(s, events[0]);
      StepMoves(s, events[0]);
      StaysSorted(s, events[0], s');
      ReceivedJoin(s.log, deeds);
      AddsReceived(s, events[0], deeds);
      ReceivedLaw(s', events[1..]);
      assert ReceivedOf(s.log) + ReceivedOf(deeds) + Due(s'.owned, events[1..])
          == ReceivedOf(s.log) + (ReceivedOf(deeds) + Due(s'.owned, events[1..]));
    }
  }

  /** Each heartbeat that asks for one is answered by one, and no other. */
  lemma BeatLaw(s: State, e: Event)
    ensures BeatsOf(Next(s, e).log) == BeatsOf(s.log) + BeatsDue(s, e)
  {
    hide Next, Remembered, FirstWith;
    var deeds := StepAdds(s, e);
    assert BeatsOf(s.log + deeds) == BeatsOf(s.log) + BeatsOf(deeds);
    AddsBeats(s, e, deeds);
  }

  lemma AddsBeats(s: State, e: Event, deeds: seq<Deed>)
    requires Adds(s, e, deeds)
    ensures BeatsOf(deeds) == BeatsDue(s, e)
  {
    hide BeatsOf;
    BeatsCounted([]);
    BeatsCounted([Beat]);
    if e.OnRead? || e.HeartBeatTimer? {
      MayBeat(s, e, deeds);
    } else {
      DoesNotBeat(s, e, deeds);
      BeatsCounted(deeds);
    }
  }

  lemma BeatsCounted(deeds: seq<Deed>)
    ensures (forall i :: 0 <= i < |deeds| ==> deeds[i] != Beat) ==> BeatsOf(deeds) == 0
    ensures deeds == [Beat] ==> BeatsOf(deeds) == 1
  {
  }

  lemma DoesNotBeat(s: State, e: Event, deeds: seq<Deed>)
    requires Adds(s, e, deeds) && !e.OnRead? && !e.HeartBeatTimer?
    ensures forall i :: 0 <= i < |deeds| ==> deeds[i] != Beat
    ensures BeatsDue(s, e) == 0
  {
    hide Remembered;
  }

  lemma MayBeat(s: State, e: Event, deeds: seq<Deed>)
    requires Adds(s, e, deeds) && (e.OnRead? || e.HeartBeatTimer?)
    ensures BeatsOf(deeds) == BeatsDue(s, e)
  {
    hide Remembered, FirstWith, BeatsOf;
    BeatsCounted(deeds);
  }
}
