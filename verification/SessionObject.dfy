/**
 The session object. Every method does to the fields exactly what the state machine says its event does.
 */
module SessionObject {
  import opened Session
  import SessionRuns
  import SessionLaws

  class CSession {
    var status: Status
    var owned: bool
    const autoreconnect: bool
    const heartbeat: bool
    var reconnect: Clock
    var beating: bool
    var waiting: seq<Packet>
    var history: seq<Packet>
    /** Requests whose timers are armed. */
    var timers: set<Packet>
    ghost var log: seq<Deed>
    ghost var given: seq<Packet>
    /** The state the session began in, and the events that have happened to it. */
    ghost const first: State
    ghost var past: seq<Event>

    ghost function State(): State
      reads this
    {
      Session.State(status, owned, autoreconnect, heartbeat, reconnect, beating, waiting, history, timers, log, given)
    }

    /** The fields are what a run of the machine leads to. */
    ghost predicate Reached()
      reads this
    {
      && first == Initial(first.owned, first.autoreconnect, first.heartbeat)
      && SessionRuns.PossibleRun(first, past) && State() == SessionRuns.Run(first, past)
    }

    /** An event has been handled: it is one more step of the run. */
    twostate predicate Stepped(e: Event)
      reads this
    {
      && State() == Next(old(State()), e) && past == old(past) + [e]
      && (old(Reached()) && Possible(old(State()), e) ==> Reached())
    }

    constructor (owned: bool, autoreconnect: bool, heartbeat: bool)
      ensures State() == Initial(owned, autoreconnect, heartbeat) && Reached() && past == []
    {
      first, past := Initial(owned, autoreconnect, heartbeat), [];
      status, this.owned, this.autoreconnect, this.heartbeat := WAITING, owned, autoreconnect, heartbeat;
      reconnect, beating := Unset, false;
      waiting, history, timers, log, given := [], [], {}, [], [];
    }

    /** What the run will be once an event has been handled. */
    lemma Happens(e: Event)
      ensures Reached() ==>
                && SessionRuns.Run(first, past + [e]) == Next(State(), e)
                && (Possible(State(), e) ==> SessionRuns.PossibleRun(first, past + [e]))
    {
      hide Next, Possible;
      OneMoreEvent(first, past, e);
    }

    /** Gives the session to an owner, or takes it from one. */
    method SetOwner(owned: bool)
      modifies this`owned, this`past
      ensures Stepped(Event.SetOwner(owned))
    {
      Happens(Event.SetOwner(owned));
      past := past + [Event.SetOwner(owned)];
      this.owned := owned;
    }

    /**
     So the object inherits what is proved of runs: after any events that a careful caller can cause, its fields
     account for every message it was given; and it loses count exactly when a time-out meets another request than its
     own.
     */
    lemma Accounted()
      requires Reached()
      ensures SessionRuns.GoodRun(first, past) <==> SessionRuns.TimelyRun(first, past)
      ensures SessionRuns.CarefulRun(first, past) ==>
                && (forall p :: SessionRuns.Places(State(), p) == if p in given then 1 else 0)
                && timers == SetOf(history)
                && (status == CLOSED ==> waiting == [] && history == [])
    {
      hide SessionRuns.GoodRun, SessionRuns.TimelyRun, SessionRuns.CarefulRun, SessionRuns.Places;
      hide SessionRuns.AllJustified, SessionRuns.Run, SessionRuns.PossibleRun;
      SessionRuns.InitialGood(first.owned, first.autoreconnect, first.heartbeat);
      SessionRuns.RunExact(first, past);
      if SessionRuns.CarefulRun(first, past) {
        SessionRuns.Conservation(first.owned, first.autoreconnect, first.heartbeat, past);
      }
    }

    /** And its owner has been handed, in order, exactly the requests read while there was one. */
    lemma HandedOver()
      requires Reached()
      ensures SessionLaws.ReceivedOf(log) == SessionLaws.Due(first.owned, past)
    {
      hide SessionRuns.Run, SessionRuns.PossibleRun, SessionLaws.Due;
      SessionLaws.ReceivedLaw(first, past);
    }

    /** Gives an error reply to the owner, or deletes the message. */
    method Reply(p: Packet, code: Code)
      modifies this`log
      ensures log == old(log) + [GiveUp(p, owned, code)]
    {
      if owned {
        log := log + [Failed(p, code)];
      } else {
        log := log + [Discarded(p)];
      }
    }

    method CleanRequestAndCallBack()
      modifies this`history, this`waiting, this`timers, this`log
      ensures State() == CleanRequests(old(State()))
    {
      hide SetOf, GiveUp, GiveUpAll;
      CleanHistory();
      CleanWaiting();
    }

    /** The first half of the clean-up: the history, in order of sequence id. */
    method CleanHistory()
      modifies this`history, this`timers, this`log
      ensures State() == old(State()).(history := [], timers := old(timers) - SetOf(old(history)),
                                       log := old(log) + GiveUpAll(old(history), owned))
    {
      hide SetOf, GiveUp, GiveUpAll;
      ghost var done: seq<Packet> := [];
      NoneGivenUp(log, timers, owned);
      while history != []
        invariant old(history) == done + history
        invariant State() == old(State()).(history := history, timers := old(timers) - SetOf(done),
                                           log := old(log) + GiveUpAll(done, owned))
      {
        GaveUpOneMore(old(log), old(timers), done, history[0], owned);
        done := done + [history[0]];
        var p := history[0];
        history := history[1..];
        timers := timers - {p};
        Reply(p, PEER_CLOSE);
      }
      assert done + [] == done;
    }

    /** The second half of the clean-up: the waiting list. */
    method CleanWaiting()
      modifies this`waiting, this`log
      ensures State() == old(State()).(waiting := [], log := old(log) + GiveUpAll(old(waiting), owned))
    {
      hide SetOf, GiveUp, GiveUpAll;
      ghost var done: seq<Packet> := [];
      NoneGivenUp(log, {}, owned);
      while waiting != []
        invariant old(waiting) == done + waiting
        invariant State() == old(State()).(waiting := waiting, log := old(log) + GiveUpAll(done, owned))
      {
        GaveUpOneMore(old(log), {}, done, waiting[0], owned);
        done := done + [waiting[0]];
        var p := waiting[0];
        waiting := waiting[1..];
        Reply(p, PEER_CLOSE);
      }
      assert done + [] == done;
    }

    method DoSendRequest(p: Packet)
      requires p.request && (status == CONNECTED || owned)
      modifies this`timers, this`history, this`log
      ensures State() == if status != CONNECTED then old(State()).(log := old(log) + [Failed(p, PEER_CLOSE)])
                         else Transmit(old(State()), p)
    {
      if status != CONNECTED {
        Reply(p, PEER_CLOSE);
        return;
      }
      timers := timers + {p};
      history := Insert(history, p);
      log := log + [Wrote(p)];
    }

    /** Sends a message, now or when connected. `again` marks one taken from the waiting list. */
    method DoSendTo(p: Packet, ghost again: bool)
      requires !Faults(State(), Event.DoSendTo(p))
      requires again ==> status == CONNECTED
      modifies this`given, this`past, this`waiting, this`timers, this`history, this`log
      ensures if again then State() == Transmit(old(State()), p) && past == old(past) else Stepped(Event.DoSendTo(p))
    {
      if !again {
        Happens(Event.DoSendTo(p));
        past := past + [Event.DoSendTo(p)];
        given := given + [p];
      }
      if status == CONNECTING || status == WAITING {
        waiting := waiting + [p];
        return;
      }
      if p.request {
        DoSendRequest(p);
      } else {
        log := log + [Wrote(p)];
      }
    }

    method DealWaitingList()
      modifies this`given, this`past, this`waiting, this`timers, this`history, this`log
      ensures past == old(past)
      ensures State() == Session.DealWaitingList(old(State()))
    {
      hide DealOne;
      ghost var start := State().(waiting := []);
      while waiting != []
        invariant past == old(past) && DealAll(start, old(waiting)) == DealAll(State().(waiting := []), waiting)
      {
        DealFirst();
      }
      DealtInOrder(old(State()));
    }

    /** Takes the first waiting message off the list and sends it, or answers it with an error. */
    method DealFirst()
      requires waiting != []
      modifies this`given, this`past, this`waiting, this`timers, this`history, this`log
      ensures past == old(past) && waiting == old(waiting)[1..]
      ensures State().(waiting := []) == DealOne(old(State()).(waiting := []), old(waiting)[0])
    {
      hide Insert;
      var p := waiting[0];
      waiting := waiting[1..];
      if status == CONNECTED {
        DoSendTo(p, true);
      } else {
        Reply(p, PEER_CLOSE);
      }
    }

    method OnConnected()
      modifies this`log
      ensures State() == Note(old(State()), Connected)
    {
      if owned {
        log := log + [Connected];
      }
    }

    /** Dials unless busy. `again` marks the reconnect timer's call. */
    method DoConnect(ghost again: bool)
      modifies this`status, this`log, this`past
      ensures if again then State() == Dial(old(State())) && past == old(past) else Stepped(Event.DoConnect)
    {
      if !again {
        Happens(Event.DoConnect);
        past := past + [Event.DoConnect];
      }
      if status == CONNECTED || status == CONNECTING {
        return;
      }
      status := CONNECTING;
      log := log + [Dialled];
    }

    /** The reconnect timer ran out. */
    method ReconnectCallback()
      requires reconnect == Armed
      modifies this
      ensures Stepped(ReconnectTimer)
    {
      Happens(ReconnectTimer);
      past := past + [ReconnectTimer];
      reconnect := Idle;
      DoConnect(true);
    }

    method ConnectResult(success: bool)
      modifies this
      ensures Stepped(Event.ConnectResult(success))
    {
      hide Session.DealWaitingList;
      Happens(Event.ConnectResult(success));
      past := past + [Event.ConnectResult(success)];
      if success {
        status := CONNECTED;
        if heartbeat && !beating {
          beating := true;
        }
        if reconnect != Unset {
          reconnect := Idle;
        }
      } else if autoreconnect {
        reconnect := Armed;
      }
      OnConnected();
      DealWaitingList();
    }

    method OnAccept()
      modifies this
      ensures Stepped(Event.OnAccept)
    {
      Happens(Event.OnAccept);
      past := past + [Event.OnAccept];
      status := CONNECTED;
      if owned {
        log := log + [Accepted];
      }
    }

    method OnPeerClose()
      modifies this
      ensures Stepped(Event.OnPeerClose)
    {
      hide CleanRequests;
      Happens(Event.OnPeerClose);
      past := past + [Event.OnPeerClose];
      status := CLOSED;
      CleanRequestAndCallBack();
      if autoreconnect {
        status := WAITING;
        reconnect := Armed;
      } else if owned {
        log := log + [PeerClosed];
      }
    }

    method OnRead(a: Arrival)
      modifies this
      ensures Stepped(Event.OnRead(a))
      ensures a.heartbeat ==> log == old(log) + if a.direction == REQUEST then [Beat] else []
      ensures !a.heartbeat && a.direction != RESPONSE ==> log == old(log) + if owned then [Received(a)] else []
    {
      Happens(Event.OnRead(a));
      past := past + [Event.OnRead(a)];
      if a.heartbeat {
        status := CONNECTED;
        if a.direction == REQUEST {
          log := log + [Beat];
        }
        return;
      }
      if a.direction != RESPONSE {
        if owned {
          status := CONNECTED;
          log := log + [Received(a)];
        }
        return;
      }
      if a.ok {
        status := CONNECTED;
      }
      var i := Find(history, a.seqid);
      if i == |history| {
        return;
      }
      var p := history[i];
      timers := timers - {p};
      history := Erase(history, i);
      if owned {
        status := CONNECTED;
        log := log + [Answered(p, a)];
      } else {
        log := log + [Discarded(p)];
      }
    }

    /** The timer of request `p` ran out. */
    method DoRequestTimeOut(p: Packet)
      requires p in timers
      modifies this
      ensures Stepped(RequestTimer(p))
    {
      Happens(RequestTimer(p));
      past := past + [RequestTimer(p)];
      timers := timers - {p};
      var i := Find(history, p.seqid);
      if i < |history| {
        Reply(p, TIME_OUT);
        history := Erase(history, i);
      }
    }

    method DoHeartBeat(canBeat: bool)
      requires beating
      modifies this`log, this`past
      ensures Stepped(HeartBeatTimer(canBeat))
    {
      Happens(HeartBeatTimer(canBeat));
      past := past + [HeartBeatTimer(canBeat)];
      if status != CONNECTED && status != TIMED_OUT {
        return;
      }
      if !canBeat {
        return;
      }
      log := log + [Beat];
    }

    method Close()
      modifies this
      ensures Stepped(Event.Close)
    {
      hide CleanRequests;
      Happens(Event.Close);
      past := past + [Event.Close];
      owned := false;
      if status == CLOSED {
        return;
      }
      status := CLOSED;
      CleanRequestAndCallBack();
    }
  }

  lemma {:induction false} OneMoreEvent(s: State, events: seq<Event>, e: Event)
    ensures SessionRuns.Run(s, events + [e]) == Next(SessionRuns.Run(s, events), e)
    ensures SessionRuns.PossibleRun(s, events + [e]) <==>
            SessionRuns.PossibleRun(s, events) && Possible(SessionRuns.Run(s, events), e)
    decreases |events|
  {
    hide Next, Possible;
    if events == [] {
      assert [] + [e] == [e] && [e][1..] == [];
    } else {
      assert (events + [e])[1..] == events[1..] + [e];
      OneMoreEvent(Next(s, events[0]), events[1..], e);
    }
  }

  lemma NoneGivenUp(log: seq<Deed>, timers: set<Packet>, owned: bool)
    ensures log + GiveUpAll([], owned) == log && timers - SetOf([]) == timers
  {
  }

  lemma {:induction false} GiveUpAllAppend(ps: seq<Packet>, p: Packet, owned: bool)
    ensures GiveUpAll(ps + [p], owned) == GiveUpAll(ps, owned) + [GiveUp(p, owned, PEER_CLOSE)]
  {
    if ps == [] {
      assert [] + [p] == [p];
    } else {
      assert (ps + [p])[1..] == ps[1..] + [p];
      GiveUpAllAppend(ps[1..], p, owned);
    }
  }

  lemma GaveUpOneMore(log: seq<Deed>, timers: set<Packet>, done: seq<Packet>, p: Packet, owned: bool)
    ensures log + GiveUpAll(done + [p], owned) == log + GiveUpAll(done, owned) + [GiveUp(p, owned, PEER_CLOSE)]
    ensures timers - SetOf(done + [p]) == timers - SetOf(done) - {p}
  {
    GiveUpAllAppend(done, p, owned);
  }

  ghost function DealOne(s: State, p: Packet): State {
    if s.status == CONNECTED then Transmit(s, p) else s.(log := s.log + [GiveUp(p, s.owned, PEER_CLOSE)])
  }

  ghost function DealAll(s: State, ps: seq<Packet>): State
    decreases |ps|
  {
    if ps == [] then s else DealAll(DealOne(s, ps[0]), ps[1..])
  }

  /** Dealing with the waiting messages one at a time, looking at the status each time, comes to one of two things. */
  lemma {:induction false} DealAllSplits(s: State, ps: seq<Packet>)
    ensures DealAll(s, ps) == if s.status == CONNECTED then TransmitAll(s, ps)
                              else s.(log := s.log + GiveUpAll(ps, s.owned))
    decreases |ps|
  {
    hide Insert;
    if ps == [] {
      assert s.log + [] == s.log;
    } else {
      DealAllSplits(DealOne(s, ps[0]), ps[1..]);
      assert s.log + [GiveUp(ps[0], s.owned, PEER_CLOSE)] + GiveUpAll(ps[1..], s.owned)
          == s.log + GiveUpAll(ps, s.owned);
    }
  }

  lemma DealtInOrder(s: State)
    ensures DealAll(s.(waiting := []), s.waiting) == Session.DealWaitingList(s)
  {
    hide TransmitAll, GiveUpAll;
    DealAllSplits(s.(waiting := []), s.waiting);
  }
}
