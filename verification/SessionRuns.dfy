/**
 What holds of a session in every run: each request is in exactly one place, ends at most once, and the timers that are
 armed are exactly those of the requests remembered.
 */
module SessionRuns {
  import opened Session
  import opened Sequences

  /** The message whose time with the session ends with a deed. */
  function Ending(d: Deed): seq<Packet> {
    match d
    case Answered(p, _) => [p]
    case Failed(p, _) => [p]
    case Discarded(p) => [p]
    case Wrote(p) => if p.request then [] else [p]
    case Dialled | Beat | Accepted | Connected | PeerClosed | Received(_) => []
  }

  function Finished(log: seq<Deed>): seq<Packet> {
    if log == [] then [] else Finished(log[..|log| - 1]) + Ending(log[|log| - 1])
  }

  // ---------------------------------------------------------------- the invariant

  ghost predicate Balanced(s: State) {
    multiset(s.given) == multiset(s.waiting) + multiset(s.history) + multiset(Finished(s.log))
  }

  predicate Sorted(h: seq<Packet>) {
    forall i, j :: 0 <= i < j < |h| ==> h[i].seqid <= h[j].seqid
  }

  /**
   Remembered messages are requests that went to the connection, in order of sequence id, each with its timer armed.
   */
  ghost predicate Timed(s: State) {
    && Sorted(s.history)
    && s.timers == SetOf(s.history)
    && forall p :: p in s.history ==> p.request && Wrote(p) in s.log
  }

  /** A deed that `before` entitles the session to: responses and time-outs are for requests that were sent. */
  predicate Justified(d: Deed, before: seq<Deed>) {
    && (d.Answered? ==> d.packet.request && d.packet.seqid == d.response.seqid && Wrote(d.packet) in before)
    && (d.Failed? && d.code == TIME_OUT ==> d.packet.request && Wrote(d.packet) in before)
  }

  ghost predicate AllJustified(log: seq<Deed>) {
    forall i :: 0 <= i < |log| ==> Justified(log[i], log[..i])
  }

  ghost predicate Good(s: State) {
    && Balanced(s)
    && NoneTwice(s.given)
    && Timed(s)
    && AllJustified(s.log)
    && (s.status == CLOSED ==> s.waiting == [] && s.history == [])
  }

  // ---------------------------------------------------------------- the log

  lemma {:induction false} FinishedJoin(a: seq<Deed>, b: seq<Deed>)
    ensures Finished(a + b) == Finished(a) + Finished(b)
    decreases |b|
  {
    if b == [] {
      assert a + b == a;
      assert Finished(a) + [] == Finished(a);
    } else {
      var last := |b| - 1;
      assert (a + b)[..|a + b| - 1] == a + b[..last];
      FinishedJoin(a, b[..last]);
      assert Finished(a) + Finished(b[..last]) + Ending(b[last])
          == Finished(a) + (Finished(b[..last]) + Ending(b[last]));
    }
  }

  lemma FinishedOne(log: seq<Deed>, d: Deed)
    ensures Finished(log + [d]) == Finished(log) + Ending(d)
  {
    assert (log + [d])[..|log|] == log;
  }

  lemma {:induction false} GiveUpAllFinishes(ps: seq<Packet>, owned: bool)
    ensures Finished(GiveUpAll(ps, owned)) == ps
  {
    if ps != [] {
      var d, rest := GiveUp(ps[0], owned, PEER_CLOSE), GiveUpAll(ps[1..], owned);
      GiveUpAllFinishes(ps[1..], owned);
      FinishedJoin([d], rest);
      FinishedOne([], d);
      assert [] + [d] == [d];
    }
  }

  /** No deed of giving everything up needs justifying. */
  ghost predicate Plain(log: seq<Deed>) {
    forall i :: 0 <= i < |log| ==> !log[i].Answered? && !(log[i].Failed? && log[i].code == TIME_OUT)
  }

  lemma {:induction false} GiveUpAllPlain(ps: seq<Packet>, owned: bool)
    ensures Plain(GiveUpAll(ps, owned))
  {
    if ps != [] {
      GiveUpAllPlain(ps[1..], owned);
    }
  }

  lemma PlainJustified(log: seq<Deed>, more: seq<Deed>)
    requires AllJustified(log) && Plain(more)
    ensures AllJustified(log + more)
  {
    forall i | 0 <= i < |log + more| ensures Justified((log + more)[i], (log + more)[..i]) {
      if i < |log| {
        assert (log + more)[..i] == log[..i];
        assert Justified(log[i], log[..i]);
      } else {
        assert (log + more)[i] == more[i - |log|];
      }
    }
  }

  lemma OneJustified(log: seq<Deed>, d: Deed)
    requires AllJustified(log) && Justified(d, log)
    ensures AllJustified(log + [d])
  {
    forall i | 0 <= i < |log + [d]| ensures Justified((log + [d])[i], (log + [d])[..i]) {
      assert (log + [d])[..i] == log[..i];
      if i < |log| {
        assert Justified(log[i], log[..i]);
      }
    }
  }

  // ---------------------------------------------------------------- the history

  lemma {:induction false} InsertAdds(h: seq<Packet>, p: Packet)
    ensures multiset(Insert(h, p)) == multiset(h) + multiset{p}
    ensures SetOf(Insert(h, p)) == SetOf(h) + {p}
    ensures forall q :: q in Insert(h, p) <==> q in h || q == p
  {
    if h == [] || p.seqid < h[0].seqid {
    } else {
      InsertAdds(h[1..], p);
      assert h == [h[0]] + h[1..];
    }
  }

  lemma {:induction false} InsertSorted(h: seq<Packet>, p: Packet)
    requires Sorted(h)
    ensures Sorted(Insert(h, p))
  {
    if h == [] || p.seqid < h[0].seqid {
      PrependSorted(p, h);
    } else {
      var t := Insert(h[1..], p);
      InsertSorted(h[1..], p);
      InsertAdds(h[1..], p);
      hide Insert;
      forall j | 0 <= j < |t| ensures h[0].seqid <= t[j].seqid {
        assert t[j] in t;
      }
      PrependSorted(h[0], t);
    }
  }

  lemma PrependSorted(p: Packet, t: seq<Packet>)
    requires Sorted(t) && forall j :: 0 <= j < |t| ==> p.seqid <= t[j].seqid
    ensures Sorted([p] + t)
  {
  }

  lemma EraseRemoves(h: seq<Packet>, i: nat)
    requires i < |h|
    ensures multiset(h) == multiset(Erase(h, i)) + multiset{h[i]}
    ensures Sorted(h) ==> Sorted(Erase(h, i))
    ensures forall q :: q in Erase(h, i) ==> q in h
  {
    assert h == h[..i] + [h[i]] + h[i + 1..];
  }

  lemma EraseSet(h: seq<Packet>, i: nat)
    requires i < |h| && NoneTwice(h)
    ensures SetOf(Erase(h, i)) == SetOf(h) - {h[i]}
  {
    EraseRemoves(h, i);
    NoneTwiceCounts(h);
    assert multiset(h)[h[i]] <= 1;
    forall q ensures q in Erase(h, i) <==> q in h && q != h[i] {
      assert q in Erase(h, i) <==> multiset(Erase(h, i))[q] > 0;
      assert q in h <==> multiset(h)[q] > 0;
    }
  }

  lemma {:induction false} FindPresent(h: seq<Packet>, p: Packet)
    requires p in h
    ensures Find(h, p.seqid) < |h|
  {
    if h[0].seqid != p.seqid {
      FindPresent(h[1..], p);
    }
  }

  lemma HistoryNoneTwice(s: State)
    requires Balanced(s) && NoneTwice(s.given)
    ensures NoneTwice(s.history)
  {
    NoneTwiceCounts(s.given);
    forall p ensures multiset(s.history)[p] <= 1 {
      assert multiset(s.given)[p] <= 1;
    }
    NoneTwiceCounts(s.history);
  }

  // ---------------------------------------------------------------- every step keeps it

  /** An entry in the log that ends no message and needs no reason. */
  lemma LogKeeps(s: State, d: Deed)
    requires Good(s) && Ending(d) == [] && !d.Answered? && !d.Failed?
    ensures Good(s.(log := s.log + [d]))
  {
    FinishedOne(s.log, d);
    assert Finished(s.log) + [] == Finished(s.log);
    OneJustified(s.log, d);
  }

  lemma CleanKeeps(s: State)
    requires Good(s.(status := WAITING))
    ensures Good(CleanRequests(s)) && CleanRequests(s).waiting == [] && CleanRequests(s).history == []
  {
    hide AllJustified, Finished, GiveUpAll, NoneTwice;
    CleanBalanced(s.log, s.history, s.waiting, s.owned);
    CleanJustified(s.log, s.history, s.waiting, s.owned);
    assert s.timers - SetOf(s.history) == SetOf([]);
  }

  lemma CleanJustified(log: seq<Deed>, history: seq<Packet>, waiting: seq<Packet>, owned: bool)
    requires AllJustified(log)
    ensures AllJustified(log + GiveUpAll(history, owned) + GiveUpAll(waiting, owned))
  {
    hide AllJustified, GiveUpAll, Plain;
    var a, b := GiveUpAll(history, owned), GiveUpAll(waiting, owned);
    GiveUpAllPlain(history, owned);
    GiveUpAllPlain(waiting, owned);
    PlainJustified(log, a);
    PlainJustified(log + a, b);
  }

  lemma CleanBalanced(log: seq<Deed>, history: seq<Packet>, waiting: seq<Packet>, owned: bool)
    ensures multiset(Finished(log + GiveUpAll(history, owned) + GiveUpAll(waiting, owned)))
         == multiset(Finished(log)) + multiset(history) + multiset(waiting)
  {
    var a, b := GiveUpAll(history, owned), GiveUpAll(waiting, owned);
    hide GiveUpAll, Finished;
    GiveUpAllFinishes(history, owned);
    GiveUpAllFinishes(waiting, owned);
    FinishedJoin(log, a);
    FinishedJoin(log + a, b);
  }

  /** A session that has `due` still to send, whatever its waiting list is at the time. */
  ghost predicate Sending(s: State, due: seq<Packet>) {
    Good(s.(status := WAITING, waiting := due))
  }

  lemma TransmitKeeps(s: State, p: Packet, due: seq<Packet>)
    requires Sending(s, [p] + due)
    ensures Sending(Transmit(s, p), due)
  {
    hide AllJustified, Balanced, NoneTwice, Timed;
    var s' := s.(status := WAITING, waiting := [p] + due);
    TransmitBalanced(s', p, due);
    OneJustified(s.log, Wrote(p));
    if p.request {
      TransmitTimed(s', p);
      TimedAlone(Transmit(s', p), Transmit(s, p).(status := WAITING, waiting := due));
    } else {
      TimedAlone(s', Transmit(s, p).(status := WAITING, waiting := due));
    }
  }

  lemma TimedAlone(s: State, s': State)
    requires Timed(s) && s.history == s'.history && s.timers == s'.timers && s.log <= s'.log
    ensures Timed(s')
  {
    hide Sorted;
  }

  lemma TransmitBalanced(s: State, p: Packet, due: seq<Packet>)
    requires Balanced(s) && s.waiting == [p] + due
    ensures Balanced(Transmit(s, p).(waiting := due))
  {
    hide Finished, Insert;
    FinishedOne(s.log, Wrote(p));
    assert multiset([p] + due) == multiset{p} + multiset(due);
    if p.request {
      InsertAdds(s.history, p);
      assert Finished(s.log) + [] == Finished(s.log);
    }
  }

  lemma TransmitTimed(s: State, p: Packet)
    requires Timed(s) && p.request
    ensures Timed(Transmit(s, p))
  {
    hide Insert, Sorted;
    InsertAdds(s.history, p);
    InsertSorted(s.history, p);
  }

  lemma {:induction false} TransmitAllKeeps(s: State, ps: seq<Packet>)
    requires Sending(s, ps)
    ensures Sending(TransmitAll(s, ps), [])
    ensures TransmitAll(s, ps).waiting == s.waiting && TransmitAll(s, ps).status == s.status
    decreases |ps|
  {
    hide Sending;
    if ps != [] {
      assert ps == [ps[0]] + ps[1..];
      TransmitKeeps(s, ps[0], ps[1..]);
      TransmitAllKeeps(Transmit(s, ps[0]), ps[1..]);
    }
  }

  lemma GiveUpWaitingKeeps(s: State)
    requires Good(s)
    ensures Good(s.(waiting := [], log := s.log + GiveUpAll(s.waiting, s.owned)))
  {
    hide AllJustified, Finished, GiveUpAll, NoneTwice, Sorted;
    var more := GiveUpAll(s.waiting, s.owned);
    GiveUpAllFinishes(s.waiting, s.owned);
    FinishedJoin(s.log, more);
    GiveUpAllPlain(s.waiting, s.owned);
    PlainJustified(s.log, more);
  }

  lemma DealKeeps(s: State)
    requires Good(s)
    ensures Good(DealWaitingList(s))
  {
    hide Good;
    if s.status == CONNECTED {
      StatusKeeps(s, WAITING);
      var none := s.(waiting := []);
      assert none.(status := WAITING, waiting := s.waiting) == s.(status := WAITING);
      TransmitAllKeeps(none, s.waiting);
      AllSent(TransmitAll(none, s.waiting));
    } else {
      GiveUpWaitingKeeps(s);
    }
  }

  lemma AllSent(s: State)
    requires Sending(s, s.waiting) && (s.status == CLOSED ==> s.waiting == [] && s.history == [])
    ensures Good(s)
  {
    hide AllJustified, Finished, NoneTwice, Sorted;
  }

  /** An entry leaves the history together with its timer. */
  function Dropped(s: State, i: nat, d: Deed): State
    requires i < |s.history|
  {
    s.(history := Erase(s.history, i), timers := s.timers - {s.history[i]}, log := s.log + [d])
  }

  lemma DropKeeps(s: State, i: nat, d: Deed)
    requires Good(s) && i < |s.history| && Ending(d) == [s.history[i]] && Justified(d, s.log)
    ensures Good(Dropped(s, i, d))
  {
    hide AllJustified, Justified, Balanced, Timed, NoneTwice;
    OneJustified(s.log, d);
    DropBalances(s, i, d);
    DropTimed(s, i, d);
  }

  lemma DropBalances(s: State, i: nat, d: Deed)
    requires Balanced(s) && i < |s.history| && Ending(d) == [s.history[i]]
    ensures Balanced(Dropped(s, i, d))
  {
    hide Finished, Sorted;
    FinishedOne(s.log, d);
    EraseRemoves(s.history, i);
  }

  lemma DropTimed(s: State, i: nat, d: Deed)
    requires Good(s) && i < |s.history|
    ensures Timed(Dropped(s, i, d))
  {
    HistoryNoneTwice(s);
    hide Balanced, AllJustified, NoneTwice, Sorted, Erase;
    EraseRemoves(s.history, i);
    EraseSet(s.history, i);
  }

  lemma StatusKeeps(s: State, status: Status)
    requires Good(s) && status != CLOSED
    ensures Good(s.(status := status))
  {
  }

  lemma AnswerJustified(s: State, i: nat, a: Arrival)
    requires Good(s) && i < |s.history| && s.history[i].seqid == a.seqid
    ensures Justified(Answered(s.history[i], a), s.log) && Justified(Failed(s.history[i], TIME_OUT), s.log)
    ensures Justified(Discarded(s.history[i]), s.log)
  {
    hide Sorted;
    assert s.history[i] in s.history;
  }

  lemma ReadKeeps(s: State, a: Arrival)
    requires Good(s)
    ensures Good(Read(s, a))
  {
    hide Good, Justified;
    var s' := s.(status := CONNECTED);
    StatusKeeps(s, CONNECTED);
    if a.heartbeat {
      if a.direction == REQUEST {
        LogKeeps(s', Beat);
      }
    } else if a.direction != RESPONSE {
      if s.owned {
        LogKeeps(s', Received(a));
      }
    } else {
      var i := Find(s.history, a.seqid);
      if i < |s.history| {
        AnswerJustified(s, i, a);
        DropKeeps(s', i, Answered(s.history[i], a));
        DropKeeps(s', i, Discarded(s.history[i]));
        DropKeeps(s, i, Discarded(s.history[i]));
      }
    }
  }

  // ---------------------------------------------------------------- sending

  lemma PushKeeps(s: State, p: Packet)
    requires Good(s) && p !in s.given
    ensures var s' := s.(given := s.given + [p], status := WAITING);
            Good(s'.(waiting := s.waiting + [p])) && Good(s'.(waiting := [p] + s.waiting))
  {
    hide AllJustified, Finished, Sorted, NoneTwice;
    OneMoreOnce(s.given, p);
  }

  lemma SendKeeps(s: State, p: Packet)
    requires Good(s) && p !in s.given
    ensures Good(Send(s, p))
  {
    hide Good, Transmit;
    PushKeeps(s, p);
    var given := s.(given := s.given + [p]);
    if s.status == CONNECTING || s.status == WAITING {
      WaitingBack(given.(waiting := s.waiting + [p]));
    } else if p.request && s.status != CONNECTED {
      ClosedEmpty(s);
      RefuseKeeps(given, p);
    } else {
      TransmitKeeps(given, p, s.waiting);
      TransmitLeaves(given, p);
      ClosedEmpty(s);
      AllSent(Transmit(given, p));
    }
  }

  lemma WaitingBack(s: State)
    requires Good(s.(status := WAITING)) && s.status != CLOSED
    ensures Good(s)
  {
  }

  lemma ClosedEmpty(s: State)
    requires Good(s)
    ensures s.status == CLOSED ==> s.waiting == [] && s.history == []
  {
  }

  lemma TransmitLeaves(s: State, p: Packet)
    ensures var s' := Transmit(s, p);
            s'.waiting == s.waiting && s'.status == s.status && (!p.request ==> s'.history == s.history)
  {
  }

  lemma RefuseKeeps(s: State, p: Packet)
    requires Good(s.(status := WAITING, waiting := [p] + s.waiting))
    requires s.status == CLOSED ==> s.waiting == [] && s.history == []
    ensures Good(s.(log := s.log + [Failed(p, PEER_CLOSE)]))
  {
    hide AllJustified, Finished, NoneTwice, Sorted;
    FinishedOne(s.log, Failed(p, PEER_CLOSE));
    OneJustified(s.log, Failed(p, PEER_CLOSE));
    assert multiset([p] + s.waiting) == multiset{p} + multiset(s.waiting);
  }

  // ---------------------------------------------------------------- the request timer

  /** The entry found by the sequence id of the request that timed out is that request. */
  predicate Timely(s: State, e: Event) {
    e.RequestTimer? ==> var i := Find(s.history, e.packet.seqid); i < |s.history| && s.history[i] == e.packet
  }

  /** A time-out keeps the books exactly when the entry found by sequence id is the one that timed out. */
  lemma ExpireExact(s: State, p: Packet)
    requires Good(s) && p in s.timers
    ensures Good(Expire(s, p)) <==> Timely(s, RequestTimer(p))
  {
    hide AllJustified, Finished, NoneTwice, Sorted, Justified;
    FindPresent(s.history, p);
    var i := Find(s.history, p.seqid);
    if s.history[i] == p {
      AnswerJustified(s, i, Arrival(false, RESPONSE, false, p.seqid));
      DropKeeps(s, i, GiveUp(p, s.owned, TIME_OUT));
    } else {
      ExpireUnbalances(s, p, i);
    }
  }

  lemma ExpireUnbalances(s: State, p: Packet, i: nat)
    requires Balanced(s) && i < |s.history| && i == Find(s.history, p.seqid) && s.history[i] != p
    ensures !Balanced(Expire(s, p))
  {
    hide Finished, Find;
    var q, s' := s.history[i], Expire(s, p);
    EraseRemoves(s.history, i);
    FinishedOne(s.log, GiveUp(p, s.owned, TIME_OUT));
    var was := multiset(s.waiting) + multiset(s.history) + multiset(Finished(s.log));
    var now := multiset(s'.waiting) + multiset(s'.history) + multiset(Finished(s'.log));
    assert now[q] == was[q] - 1;
  }

  // ---------------------------------------------------------------- whole runs

  /** Any possible event keeps the books, with one exception, and that one never does. */
  lemma StepExact(s: State, e: Event)
    requires Good(s) && Possible(s, e)
    ensures Good(Next(s, e)) <==> Timely(s, e)
  {
    hide Good, CleanRequests, DealWaitingList, Read, Send, Expire;
    match e
    case DoConnect => DialKeeps(s);
    case ReconnectTimer =>
      OtherKeeps(s, s.owned, s.beating, Idle);
      DialKeeps(s.(reconnect := Idle));
    case ConnectResult(success) => ConnectKeeps(s, success);
    case OnAccept =>
      StatusKeeps(s, CONNECTED);
      LogKeeps(s.(status := CONNECTED), Accepted);
    case DoSendTo(p) => SendKeeps(s, p);
    case OnRead(a) => ReadKeeps(s, a);
    case RequestTimer(p) => ExpireExact(s, p);
    case HeartBeatTimer(canBeat) => LogKeeps(s, Beat);
    case OnPeerClose => PeerCloseKeeps(s);
    case Close => CloseKeeps(s);
    case SetOwner(owned) => OtherKeeps(s, owned, s.beating, s.reconnect);
  }

  lemma OtherKeeps(s: State, owned: bool, beating: bool, reconnect: Clock)
    requires Good(s)
    ensures Good(s.(owned := owned, beating := beating, reconnect := reconnect))
  {
  }

  lemma DialKeeps(s: State)
    requires Good(s)
    ensures Good(Dial(s))
  {
    hide Good;
    StatusKeeps(s, CONNECTING);
    LogKeeps(s.(status := CONNECTING), Dialled);
  }

  lemma ConnectKeeps(s: State, success: bool)
    requires Good(s)
    ensures Good(Next(s, ConnectResult(success)))
  {
    hide Good, DealWaitingList;
    var status := if success then CONNECTED else s.status;
    if success {
      StatusKeeps(s, CONNECTED);
    }
    var beating := s.beating || (success && s.heartbeat);
    var reconnect := if success then if s.reconnect == Unset then Unset else Idle
                     else if s.autoreconnect then Armed else s.reconnect;
    var s' := s.(status := status, beating := beating, reconnect := reconnect);
    OtherKeeps(s.(status := status), s.owned, beating, reconnect);
    LogKeeps(s', Connected);
    DealKeeps(Note(s', Connected));
  }

  lemma PeerCloseKeeps(s: State)
    requires Good(s)
    ensures Good(Next(s, OnPeerClose))
  {
    hide Good, CleanRequests;
    StatusKeeps(s, WAITING);
    var closed := s.(status := CLOSED);
    CleanKeeps(closed);
    var s' := CleanRequests(closed);
    StatusKeeps(s', WAITING);
    OtherKeeps(s'.(status := WAITING), s'.owned, s'.beating, Armed);
    LogKeeps(s', PeerClosed);
  }

  lemma CloseKeeps(s: State)
    requires Good(s)
    ensures Good(Next(s, Close))
  {
    hide Good, CleanRequests;
    OtherKeeps(s, false, s.beating, s.reconnect);
    var s' := s.(owned := false);
    StatusKeeps(s', WAITING);
    CleanKeeps(s'.(status := CLOSED));
  }

  ghost function Run(s: State, events: seq<Event>): State
    decreases |events|
  {
    if events == [] then s else Run(Next(s, events[0]), events[1..])
  }

  ghost predicate PossibleRun(s: State, events: seq<Event>)
    decreases |events|
  {
    events != [] ==> Possible(s, events[0]) && PossibleRun(Next(s, events[0]), events[1..])
  }

  /** Every time-out of a run meets the request it is for. */
  ghost predicate TimelyRun(s: State, events: seq<Event>)
    decreases |events|
  {
    events != [] ==> Timely(s, events[0]) && TimelyRun(Next(s, events[0]), events[1..])
  }

  ghost predicate GoodRun(s: State, events: seq<Event>)
    decreases |events|
  {
    Good(s) && (events != [] ==> GoodRun(Next(s, events[0]), events[1..]))
  }

  lemma {:induction false} RunExact(s: State, events: seq<Event>)
    requires Good(s) && PossibleRun(s, events)
    ensures GoodRun(s, events) <==> TimelyRun(s, events)
    ensures GoodRun(s, events) ==> Good(Run(s, events))
    decreases |events|
  {
    hide Good, Next, Possible, Timely;
    if events != [] {
      StepExact(s, events[0]);
      if Timely(s, events[0]) {
        RunExact(Next(s, events[0]), events[1..]);
      } else {
        var s' := Next(s, events[0]);
        assert !GoodRun(s', events[1..]);
      }
    }
  }

  // ---------------------------------------------------------------- distinct sequence ids

  ghost function Outstanding(s: State): set<Packet> {
    SetOf(s.waiting) + SetOf(s.history)
  }

  ghost predicate DistinctIds(ps: set<Packet>) {
    forall p, q :: p in ps && q in ps && p.request && q.request && p.seqid == q.seqid ==> p == q
  }

  /** A caller that reuses a sequence id only when no outstanding request has it. */
  ghost predicate Careful(s: State, e: Event) {
    e.DoSendTo? && e.packet.request ==>
      forall q :: q in Outstanding(s) && q.request ==> q.seqid != e.packet.seqid
  }

  ghost predicate CarefulRun(s: State, events: seq<Event>)
    decreases |events|
  {
    events != [] ==> Careful(s, events[0]) && CarefulRun(Next(s, events[0]), events[1..])
  }

  ghost function Added(e: Event): set<Packet> {
    if e.DoSendTo? then {e.packet} else {}
  }

  lemma {:induction false} TransmitAllOutstanding(s: State, ps: seq<Packet>)
    ensures Outstanding(TransmitAll(s, ps)) <= Outstanding(s) + SetOf(ps)
    decreases |ps|
  {
    hide Insert;
    if ps != [] {
      InsertAdds(s.history, ps[0]);
      TransmitAllOutstanding(Transmit(s, ps[0]), ps[1..]);
    }
  }

  lemma StepOutstanding(s: State, e: Event)
    ensures Outstanding(Next(s, e)) <= Outstanding(s) + Added(e)
  {
    hide DealWaitingList, Read, Send, Expire, GiveUpAll;
    match e
    case ConnectResult(success) => ConnectOutstanding(s, success);
    case DoSendTo(p) => SendOutstanding(s, p);
    case OnRead(a) => ReadOutstanding(s, a);
    case RequestTimer(p) => ExpireOutstanding(s, p);
    case _ =>
  }

  lemma SendOutstanding(s: State, p: Packet)
    ensures Outstanding(Send(s, p)) <= Outstanding(s) + {p}
  {
    hide Insert;
    InsertAdds(s.history, p);
  }

  lemma ReadOutstanding(s: State, a: Arrival)
    ensures Outstanding(Read(s, a)) <= Outstanding(s)
  {
    hide Erase;
    var i := Find(s.history, a.seqid);
    if i < |s.history| {
      EraseRemoves(s.history, i);
    }
  }

  lemma ExpireOutstanding(s: State, p: Packet)
    ensures Outstanding(Expire(s, p)) <= Outstanding(s)
  {
    hide Erase;
    var i := Find(s.history, p.seqid);
    if i < |s.history| {
      EraseRemoves(s.history, i);
    }
  }

  lemma ConnectOutstanding(s: State, success: bool)
    ensures Outstanding(Next(s, ConnectResult(success))) <= Outstanding(s)
  {
    hide TransmitAll, GiveUpAll;
    var s1 := if success then
                s.(status := CONNECTED, beating := s.beating || s.heartbeat,
                   reconnect := if s.reconnect == Unset then Unset else Idle)
              else s.(reconnect := if s.autoreconnect then Armed else s.reconnect);
    var s2 := Note(s1, Connected);
    TransmitAllOutstanding(s2.(waiting := []), s2.waiting);
  }

  lemma StepDistinct(s: State, e: Event)
    requires DistinctIds(Outstanding(s)) && Careful(s, e)
    ensures DistinctIds(Outstanding(Next(s, e)))
  {
    hide Next, Outstanding;
    StepOutstanding(s, e);
  }

  lemma DistinctTimely(s: State, e: Event)
    requires Good(s) && DistinctIds(Outstanding(s)) && Possible(s, e)
    ensures Timely(s, e)
  {
    hide Balanced, NoneTwice, AllJustified, Sorted;
    if e.RequestTimer? {
      var p := e.packet;
      FindPresent(s.history, p);
      assert s.history[Find(s.history, p.seqid)] in s.history;
    }
  }

  /**
   No time-out that can happen now loses a request exactly when the remembered requests have different sequence ids.
   */
  lemma TimersSafe(s: State)
    requires Good(s)
    ensures (forall p :: p in s.timers ==> Timely(s, RequestTimer(p))) <==> DistinctIds(SetOf(s.history))
  {
    hide Balanced, NoneTwice, AllJustified, Sorted, Find;
    if DistinctIds(SetOf(s.history)) {
      forall p | p in s.timers ensures Timely(s, RequestTimer(p)) {
        FindPresent(s.history, p);
        assert s.history[Find(s.history, p.seqid)] in s.history;
      }
    }
    if forall p :: p in s.timers ==> Timely(s, RequestTimer(p)) {
      forall p, q | p in SetOf(s.history) && q in SetOf(s.history) && p.request && q.request && p.seqid == q.seqid
        ensures p == q
      {
        assert Timely(s, RequestTimer(p)) && Timely(s, RequestTimer(q));
      }
    }
  }

  lemma {:induction false} CarefulTimely(s: State, events: seq<Event>)
    requires Good(s) && DistinctIds(Outstanding(s)) && PossibleRun(s, events) && CarefulRun(s, events)
    ensures TimelyRun(s, events)
    decreases |events|
  {
    hide Good, Next, Possible, Timely, Careful, DistinctIds, Outstanding;
    if events != [] {
      DistinctTimely(s, events[0]);
      StepExact(s, events[0]);
      StepDistinct(s, events[0]);
      CarefulTimely(Next(s, events[0]), events[1..]);
    }
  }

  /**
   When all sequence ids are the same, as they are between HTTP peers, the history is first in, first out: a response
   meets the oldest request, and a time-out is sound only for the oldest.
   */
  lemma {:induction false} EqualIdsQueue(h: seq<Packet>, p: Packet)
    requires forall q :: q in h ==> q.seqid == p.seqid
    ensures Insert(h, p) == h + [p] && Find(h, p.seqid) == 0
  {
    if h != [] {
      assert h[0] in h;
      EqualIdsQueue(h[1..], p);
    }
  }

  /** How often a message stands in the waiting list, in the history, and among the finished. */
  ghost function Places(s: State, p: Packet): nat {
    multiset(s.waiting)[p] + multiset(s.history)[p] + multiset(Finished(s.log))[p]
  }

  lemma InitialGood(owned: bool, autoreconnect: bool, heartbeat: bool)
    ensures var s := Initial(owned, autoreconnect, heartbeat); Good(s) && DistinctIds(Outstanding(s))
  {
  }

  lemma PlacesOfGiven(s: State, p: Packet)
    requires Good(s)
    ensures Places(s, p) == if p in s.given then 1 else 0
  {
    hide Finished, Timed, AllJustified;
    NoneTwiceCounts(s.given);
    assert multiset(s.given)[p] <= 1;
    assert p in s.given <==> multiset(s.given)[p] > 0;
  }

  /**
   Whatever happens to a session, in whatever order: every message given to it is in exactly one of the waiting list,
   the history and the finished, once; the timers armed are those of the history; a closed session holds nothing.
   */
  lemma Conservation(owned: bool, autoreconnect: bool, heartbeat: bool, events: seq<Event>)
    requires var s := Initial(owned, autoreconnect, heartbeat); PossibleRun(s, events) && CarefulRun(s, events)
    ensures var s := Run(Initial(owned, autoreconnect, heartbeat), events);
            && (forall p :: Places(s, p) == if p in s.given then 1 else 0)
            && s.timers == SetOf(s.history)
            && (s.status == CLOSED ==> s.waiting == [] && s.history == [])
            && AllJustified(s.log)
  {
    hide Next, Possible, Timely, Careful, DistinctIds, Outstanding, Places, AllJustified;
    var s := Initial(owned, autoreconnect, heartbeat);
    InitialGood(owned, autoreconnect, heartbeat);
    CarefulTimely(s, events);
    RunExact(s, events);
    var s' := Run(s, events);
    forall p ensures Places(s', p) == if p in s'.given then 1 else 0 {
      PlacesOfGiven(s', p);
    }
  }

  // ---------------------------------------------------------------- who hears of it

  /** With an owner nothing is discarded; without one nothing is handed over. */
  predicate Heard(d: Deed, owned: bool) {
    if owned then !d.Discarded?
    else !(d.Answered? || d.Failed? || d.Received? || d.Accepted? || d.Connected? || d.PeerClosed?)
  }

  ghost predicate AllHeard(log: seq<Deed>, owned: bool) {
    forall d :: d in log ==> Heard(d, owned)
  }

  ghost predicate Told(s: State, s': State) {
    s'.owned == s.owned && s.log <= s'.log && AllHeard(s'.log[|s.log|..], s'.owned)
  }

  lemma {:induction false} GiveUpAllHeard(ps: seq<Packet>, owned: bool)
    ensures AllHeard(GiveUpAll(ps, owned), owned)
  {
    if ps != [] {
      GiveUpAllHeard(ps[1..], owned);
    }
  }

  lemma TellMore(s: State, s': State, more: seq<Deed>)
    requires AllHeard(more, s.owned) && s'.owned == s.owned && s'.log == s.log + more
    ensures Told(s, s')
  {
    assert s'.log[|s.log|..] == more;
  }

  lemma TellTwice(a: State, b: State, c: State)
    requires Told(a, b) && Told(b, c)
    ensures Told(a, c)
  {
    assert c.log[|a.log|..] == b.log[|a.log|..] + c.log[|b.log|..];
  }

  lemma {:induction false} TransmitAllTold(s: State, ps: seq<Packet>)
    ensures Told(s, TransmitAll(s, ps))
    decreases |ps|
  {
    hide Insert;
    if ps == [] {
      TellMore(s, s, []);
    } else {
      var s' := Transmit(s, ps[0]);
      TellMore(s, s', [Wrote(ps[0])]);
      TransmitAllTold(s', ps[1..]);
      TellTwice(s, s', TransmitAll(s', ps[1..]));
    }
  }

  lemma DealTold(s: State)
    ensures Told(s, DealWaitingList(s))
  {
    hide Told, GiveUpAll, TransmitAll;
    var empty := s.(waiting := []);
    TellMore(s, empty, []);
    TransmitAllTold(empty, s.waiting);
    TellTwice(s, empty, TransmitAll(empty, s.waiting));
    GiveUpAllHeard(s.waiting, s.owned);
    TellMore(s, DealWaitingList(s).(log := s.log + GiveUpAll(s.waiting, s.owned)), GiveUpAll(s.waiting, s.owned));
  }

  lemma CleanTold(s: State)
    ensures Told(s, CleanRequests(s))
  {
    hide Told, GiveUpAll;
    var a, b := GiveUpAll(s.history, s.owned), GiveUpAll(s.waiting, s.owned);
    GiveUpAllHeard(s.history, s.owned);
    GiveUpAllHeard(s.waiting, s.owned);
    var middle := s.(log := s.log + a);
    TellMore(s, middle, a);
    TellMore(middle, CleanRequests(s), b);
    TellTwice(s, middle, CleanRequests(s));
  }

  lemma OneTold(s: State, s': State, d: Deed)
    requires s'.owned == s.owned && (s'.log == s.log || (Heard(d, s.owned) && s'.log == s.log + [d]))
    ensures Told(s, s')
  {
    if s'.log == s.log {
      TellMore(s, s', []);
    } else {
      TellMore(s, s', [d]);
    }
  }

  /** With an owner (after the event), nothing is discarded silently; without one, no handler is called. */
  lemma StepTold(s: State, e: Event)
    requires Possible(s, e)
    ensures Told(s.(owned := Next(s, e).owned), Next(s, e))
  {
    hide Told, Dial, Read, Send, Expire, CleanRequests, DealWaitingList;
    var s' := Next(s, e);
    match e
    case DoConnect => DialTold(s, s);
    case ReconnectTimer => DialTold(s, s.(reconnect := Idle));
    case ConnectResult(success) => ConnectTold(s, success);
    case OnAccept => OneTold(s, s', Accepted);
    case DoSendTo(p) => SendTold(s, p);
    case OnRead(a) => ReadTold(s, a);
    case RequestTimer(p) => ExpireTold(s, p);
    case HeartBeatTimer(canBeat) => OneTold(s, s', Beat);
    case OnPeerClose => PeerCloseTold(s);
    case Close => CloseTold(s);
    case SetOwner(owned) => OneTold(s.(owned := owned), s', Beat);
  }

  lemma DialTold(s: State, s': State)
    requires s.log == s'.log && s.owned == s'.owned
    ensures Told(s, Dial(s')) && Dial(s').owned == s.owned
  {
    hide Told;
    OneTold(s, Dial(s'), Dialled);
  }

  lemma SendTold(s: State, p: Packet)
    requires !Faults(s, DoSendTo(p))
    ensures Told(s, Send(s, p)) && Send(s, p).owned == s.owned
  {
    hide Told, Insert;
    OneTold(s, Send(s, p), if p.request && s.status != CONNECTED then Failed(p, PEER_CLOSE) else Wrote(p));
  }

  lemma ExpireTold(s: State, p: Packet)
    ensures Told(s, Expire(s, p)) && Expire(s, p).owned == s.owned
  {
    hide Told, Find, Erase;
    OneTold(s, Expire(s, p), GiveUp(p, s.owned, TIME_OUT));
  }

  lemma TellStatus(s: State, s': State)
    requires Told(s.(status := CLOSED), s') || s' == s
    ensures Told(s, s')
  {
    if s' == s {
      assert s'.log[|s.log|..] == [];
    }
  }

  lemma StillOwned(s: State, s': State)
    requires Told(s, s')
    ensures s'.owned == s.owned
  {
  }

  lemma ConnectTold(s: State, success: bool)
    ensures Told(s, Next(s, ConnectResult(success))) && Next(s, ConnectResult(success)).owned == s.owned
  {
    hide Told, DealWaitingList;
    var s1 := if success then
                s.(status := CONNECTED, beating := s.beating || s.heartbeat,
                   reconnect := if s.reconnect == Unset then Unset else Idle)
              else s.(reconnect := if s.autoreconnect then Armed else s.reconnect);
    var s2 := Note(s1, Connected);
    OneTold(s, s2, Connected);
    DealTold(s2);
    TellTwice(s, s2, DealWaitingList(s2));
    StillOwned(s, DealWaitingList(s2));
  }

  lemma ReadTold(s: State, a: Arrival)
    ensures Told(s, Read(s, a)) && Read(s, a).owned == s.owned
  {
    hide Told, Find, Erase;
    var i := Find(s.history, a.seqid);
    if a.heartbeat {
      OneTold(s, Read(s, a), Beat);
    } else if a.direction != RESPONSE {
      OneTold(s, Read(s, a), Received(a));
    } else if i < |s.history| {
      OneTold(s, Read(s, a), if s.owned then Answered(s.history[i], a) else Discarded(s.history[i]));
    } else {
      OneTold(s, Read(s, a), Beat);
    }
  }

  lemma PeerCloseTold(s: State)
    ensures Told(s, Next(s, OnPeerClose)) && Next(s, OnPeerClose).owned == s.owned
  {
    hide Told, CleanRequests;
    var closed := s.(status := CLOSED);
    CleanTold(closed);
    TellStatus(s, CleanRequests(closed));
    var s' := CleanRequests(closed);
    OneTold(s', Next(s, OnPeerClose), PeerClosed);
    TellTwice(s, s', Next(s, OnPeerClose));
    StillOwned(s, Next(s, OnPeerClose));
  }

  lemma CloseTold(s: State)
    ensures Told(s.(owned := false), Next(s, Close)) && !Next(s, Close).owned
  {
    hide Told, CleanRequests;
    var free := s.(owned := false);
    CleanTold(free.(status := CLOSED));
    TellStatus(free, Next(s, Close));
    StillOwned(free, Next(s, Close));
  }

  // ---------------------------------------------------------------- where the code falls short

  const FIRST := Packet(1, 7, true)
  const SECOND := Packet(2, 7, true)

  /** A session with an owner and an open connection, and the requests it has been given and sent. */
  function Serving(given: seq<Packet>, history: seq<Packet>, timers: set<Packet>, log: seq<Deed>): State {
    State(CONNECTED, true, false, false, Unset, false, [], history, timers, log, given)
  }

  /**
   Two outstanding requests with one sequence id: when the later one times out, the earlier one is struck off, never to
   be heard of again, and the later one stays remembered after it has ended. The earlier one's timer is kept here,
   armed for nothing; the source also destroys that timer with the entry, without stopping it, and leaves its node in
   the timer wheel.
   */
  lemma DuplicateIdLosesRequest()
    ensures var events := [ConnectResult(true), DoSendTo(FIRST), DoSendTo(SECOND), RequestTimer(SECOND)];
            var s := Run(Initial(true, false, false), events);
            && PossibleRun(Initial(true, false, false), events)
            && FIRST in s.given && Places(s, FIRST) == 0 && Places(s, SECOND) == 2
  {
    hide Next, Possible, Run, PossibleRun, Finished;
    var s1 := Serving([], [], {}, [Connected]);
    var s2 := Serving([FIRST], [FIRST], {FIRST}, [Connected, Wrote(FIRST)]);
    var log := [Connected, Wrote(FIRST), Wrote(SECOND)];
    var s3 := Serving([FIRST, SECOND], [FIRST, SECOND], {FIRST, SECOND}, log);
    var s4 := Serving([FIRST, SECOND], [SECOND], {FIRST},
                      [Connected, Wrote(FIRST), Wrote(SECOND), Failed(SECOND, TIME_OUT)]);
    Opens();
    SendsFirst();
    SendsSecond();
    TimesOut();
    FourSteps(Initial(true, false, false), ConnectResult(true), s1, DoSendTo(FIRST), s2, DoSendTo(SECOND), s3,
              RequestTimer(SECOND), s4);
    FinishedOf4(Connected, Wrote(FIRST), Wrote(SECOND), Failed(SECOND, TIME_OUT));
    assert Finished(s4.log) == [SECOND];
  }

  ghost predicate Leads(s: State, e: Event, s': State) {
    Possible(s, e) && Next(s, e) == s'
  }

  lemma FourSteps(s0: State, e0: Event, s1: State, e1: Event, s2: State, e2: Event, s3: State, e3: Event, s4: State)
    requires Leads(s0, e0, s1) && Leads(s1, e1, s2) && Leads(s2, e2, s3) && Leads(s3, e3, s4)
    ensures Run(s0, [e0, e1, e2, e3]) == s4 && PossibleRun(s0, [e0, e1, e2, e3])
  {
    hide Next, Possible;
    assert [e0, e1, e2, e3][1..] == [e1, e2, e3];
    assert [e1, e2, e3][1..] == [e2, e3];
    assert [e2, e3][1..] == [e3];
    assert Run(s3, [e3]) == s4 && PossibleRun(s3, [e3]);
    assert Run(s2, [e2, e3]) == s4 && PossibleRun(s2, [e2, e3]);
    assert Run(s1, [e1, e2, e3]) == s4 && PossibleRun(s1, [e1, e2, e3]);
  }

  lemma Opens()
    ensures Leads(Initial(true, false, false), ConnectResult(true), Serving([], [], {}, [Connected]))
  {
    assert [] + [Connected] == [Connected];
  }

  lemma SendsFirst()
    ensures Leads(Serving([], [], {}, [Connected]), DoSendTo(FIRST),
                  Serving([FIRST], [FIRST], {FIRST}, [Connected, Wrote(FIRST)]))
  {
    assert [] + [FIRST] == [FIRST] + [] == [FIRST];
  }

  lemma SendsSecond()
    ensures Leads(Serving([FIRST], [FIRST], {FIRST}, [Connected, Wrote(FIRST)]), DoSendTo(SECOND),
                  Serving([FIRST, SECOND], [FIRST, SECOND], {FIRST, SECOND}, [Connected, Wrote(FIRST), Wrote(SECOND)]))
  {
    assert Insert([FIRST], SECOND) == [FIRST] + Insert([FIRST][1..], SECOND);
    assert [FIRST][1..] == [];
    assert {FIRST} + {SECOND} == {FIRST, SECOND};
  }

  lemma TimesOut()
    ensures var log := [Connected, Wrote(FIRST), Wrote(SECOND)];
            Leads(Serving([FIRST, SECOND], [FIRST, SECOND], {FIRST, SECOND}, log), RequestTimer(SECOND),
                  Serving([FIRST, SECOND], [SECOND], {FIRST}, log + [Failed(SECOND, TIME_OUT)]))
  {
    assert Find([FIRST, SECOND], 7) == 0;
    assert Erase([FIRST, SECOND], 0) == [SECOND];
    assert {FIRST, SECOND} - {SECOND} == {FIRST};
  }

  lemma FinishedOf4(a: Deed, b: Deed, c: Deed, d: Deed)
    ensures Finished([a, b, c, d]) == Ending(a) + Ending(b) + Ending(c) + Ending(d)
  {
    assert [a, b, c, d] == [a] + [b] + [c] + [d];
    FinishedOne([], a);
    FinishedOne([a], b);
    FinishedOne([a] + [b], c);
    FinishedOne([a] + [b] + [c], d);
    assert [] + [a] == [a];
  }

  predicate Busy(s: State) {
    s.status == CONNECTING || s.status == CONNECTED
  }

  ghost function Dials(s: State): nat {
    multiset(s.log)[Dialled]
  }

  /** Only a connect request or the reconnect timer dials, and each does exactly when the session is not busy. */
  lemma DialsExactly(s: State, e: Event)
    ensures Dials(Next(s, e)) == Dials(s) + if (e.DoConnect? || e.ReconnectTimer?) && !Busy(s) then 1 else 0
    ensures e.DoConnect? || e.ReconnectTimer? ==> (Next(s, e).log == s.log + [Dialled] <==> !Busy(s))
  {
    hide Dials, Read, Send, Expire, DealWaitingList, CleanRequests, Run;
    match e
    case DoConnect => OneDial(s, Next(s, e), Dialled);
    case ReconnectTimer => OneDial(s, Next(s, e), Dialled);
    case ConnectResult(success) => DealDialsNot(s, success);
    case OnAccept => OneDial(s, Next(s, e), Accepted);
    case DoSendTo(p) => SendDialsNot(s, p);
    case OnRead(a) => ReadDialsNot(s, a);
    case RequestTimer(p) => ExpireDialsNot(s, p);
    case HeartBeatTimer(canBeat) => OneDial(s, Next(s, e), Beat);
    case OnPeerClose =>
      CleanDialsNot(s.(status := CLOSED));
      OneDial(s, s.(status := CLOSED), Beat);
      OneDial(CleanRequests(s.(status := CLOSED)), Next(s, e), PeerClosed);
    case Close =>
      CleanDialsNot(s.(owned := false, status := CLOSED));
      OneDial(s, s.(owned := false, status := CLOSED), Beat);
      OneDial(s, s.(owned := false), Beat);
    case SetOwner(owned) => OneDial(s, Next(s, e), Beat);
  }

  /** One entry more in the log, or none. */
  lemma OneDial(s: State, s': State, d: Deed)
    requires s'.log == s.log || s'.log == s.log + [d]
    ensures Dials(s') == Dials(s) + if d == Dialled && s'.log != s.log then 1 else 0
  {
  }

  lemma SendDialsNot(s: State, p: Packet)
    ensures Dials(Send(s, p)) == Dials(s)
  {
    hide Dials, Insert;
    OneDial(s, Send(s, p), if p.request && s.status != CONNECTED then Failed(p, PEER_CLOSE) else Wrote(p));
  }

  lemma ReadDialsNot(s: State, a: Arrival)
    ensures Dials(Read(s, a)) == Dials(s)
  {
    hide Dials, Find, Erase;
    var i := Find(s.history, a.seqid);
    OneDial(s, Read(s, a), if a.heartbeat then Beat
            else if a.direction != RESPONSE || i == |s.history| then Received(a)
            else if s.owned then Answered(s.history[i], a) else Discarded(s.history[i]));
  }

  lemma ExpireDialsNot(s: State, p: Packet)
    ensures Dials(Expire(s, p)) == Dials(s)
  {
    hide Dials, Find, Erase;
    OneDial(s, Expire(s, p), GiveUp(p, s.owned, TIME_OUT));
  }

  lemma DealDialsNot(s: State, success: bool)
    ensures var s' := Next(s, ConnectResult(success));
            Dials(s') == Dials(s) && s'.status == if success then CONNECTED else s.status
  {
    hide GiveUpAll, TransmitAll;
    GiveUpAllDialsNot(s.waiting, s.owned);
    var s1 := if success then
                s.(status := CONNECTED, beating := s.beating || s.heartbeat,
                   reconnect := if s.reconnect == Unset then Unset else Idle)
              else s.(reconnect := if s.autoreconnect then Armed else s.reconnect);
    TransmitAllDialsNot(Note(s1, Connected).(waiting := []), s.waiting);
  }

  lemma CleanDialsNot(s: State)
    ensures Dials(CleanRequests(s)) == Dials(s)
  {
    hide GiveUpAll;
    GiveUpAllDialsNot(s.history, s.owned);
    GiveUpAllDialsNot(s.waiting, s.owned);
  }

  lemma {:induction false} TransmitAllDialsNot(s: State, ps: seq<Packet>)
    ensures Dials(TransmitAll(s, ps)) == Dials(s) && TransmitAll(s, ps).status == s.status
    decreases |ps|
  {
    if ps != [] {
      TransmitAllDialsNot(Transmit(s, ps[0]), ps[1..]);
    }
  }

  lemma {:induction false} GiveUpAllDialsNot(ps: seq<Packet>, owned: bool)
    ensures multiset(GiveUpAll(ps, owned))[Dialled] == 0
  {
    if ps != [] {
      GiveUpAllDialsNot(ps[1..], owned);
    }
  }

  /** Nothing but the end of the connection or of the session ends being busy. */
  lemma StaysBusy(s: State, e: Event)
    requires Busy(s) && !e.OnPeerClose? && !e.Close?
    ensures Busy(Next(s, e))
  {
    hide GiveUpAll, Find, Insert, Erase, TransmitAll, CleanRequests;
    if e.ConnectResult? {
      DealDialsNot(s, e.success);
    }
  }

  /**
   A session that is connecting or connected does not dial again, whatever happens to it, until its connection is
   reported closed or it is closed itself. A failed attempt reports neither.
   */
  lemma {:induction false} FailedConnectSticks(s: State, events: seq<Event>)
    requires Busy(s) && forall i :: 0 <= i < |events| ==> !events[i].OnPeerClose? && !events[i].Close?
    ensures Busy(Run(s, events)) && Dials(Run(s, events)) == Dials(s)
    decreases |events|
  {
    hide Next, Busy, Dials;
    if events != [] {
      DialsExactly(s, events[0]);
      StaysBusy(s, events[0]);
      FailedConnectSticks(Next(s, events[0]), events[1..]);
    }
  }

  /** So a first attempt that fails is never repeated, though the timer meant to repeat it is armed and runs out. */
  lemma ReconnectTimerInVain(owned: bool, heartbeat: bool)
    ensures var s, events := Initial(owned, true, heartbeat), [DoConnect, ConnectResult(false), ReconnectTimer];
            && PossibleRun(s, events)
            && Run(s, events[..2]).status == CONNECTING && Run(s, events[..2]).reconnect == Armed
            && Run(s, events).status == CONNECTING && Dials(Run(s, events)) == 1
  {
    var s := Initial(owned, true, heartbeat);
    var s1, s2 := Next(s, DoConnect), Next(Next(s, DoConnect), ConnectResult(false));
    var s3 := Next(s2, ReconnectTimer);
    FailsArmed(s);
    hide Next, Possible;
    assert [DoConnect, ConnectResult(false), ReconnectTimer][..2] == [DoConnect, ConnectResult(false)];
    assert [DoConnect, ConnectResult(false), ReconnectTimer][1..] == [ConnectResult(false), ReconnectTimer];
    assert [ConnectResult(false), ReconnectTimer][1..] == [ReconnectTimer];
    assert [DoConnect, ConnectResult(false)][1..] == [ConnectResult(false)];
    assert Run(s2, [ReconnectTimer]) == s3 && PossibleRun(s2, [ReconnectTimer]);
    assert Run(s1, [ConnectResult(false), ReconnectTimer]) == s3 && Run(s1, [ConnectResult(false)]) == s2;
    assert PossibleRun(s1, [ConnectResult(false), ReconnectTimer]);
  }

  lemma FailsArmed(s: State)
    requires s.status == WAITING && s.autoreconnect && s.log == []
    ensures var s1, s2 := Next(s, DoConnect), Next(Next(s, DoConnect), ConnectResult(false));
            && Possible(s, DoConnect) && Possible(s1, ConnectResult(false)) && Possible(s2, ReconnectTimer)
            && s2.status == CONNECTING && s2.reconnect == Armed
            && Next(s2, ReconnectTimer).status == CONNECTING && Dials(Next(s2, ReconnectTimer)) == 1
  {
    DialsExactly(s, DoConnect);
    DialsExactly(Next(s, DoConnect), ConnectResult(false));
    DealDialsNot(Next(s, DoConnect), false);
    DialsExactly(Next(Next(s, DoConnect), ConnectResult(false)), ReconnectTimer);
  }

  /** After the connection is reported closed, the timer of a reconnecting session does dial. */
  lemma RedialsAfterPeerClose(s: State)
    requires s.autoreconnect
    ensures var s' := Next(s, OnPeerClose);
            Possible(s', ReconnectTimer) && Next(s', ReconnectTimer).log == s'.log + [Dialled]
  {
    hide GiveUpAll;
  }

  /** A closed session nobody owns cannot take a request at all. */
  lemma RequestAfterCloseFaults(s: State, p: Packet)
    ensures Faults(Next(s, Close), DoSendTo(p)) <==> p.request
  {
    hide GiveUpAll;
  }
}
