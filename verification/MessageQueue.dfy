/**
 The priority message queue: three bounded queues under one lock. The monitor as functions, and the
 threads that use it.
 */
module MessageQueue {

  type Item = int

  datatype Priority = High | Medium | Low

  /** One bounded queue as a sequence, with the number of threads inside its wait for room. */
  datatype Lane = Lane(items: seq<Item>, capacity: nat, waitingPut: int)

  predicate Total<V>(f: map<Priority, V>) {
    forall p: Priority :: p in f
  }

  function PerPriority<V>(high: V, medium: V, low: V): (f: map<Priority, V>)
    ensures Total(f) && f[High] == high && f[Medium] == medium && f[Low] == low
  {
    map p: Priority | true :: Pick(p, high, medium, low)
  }

  function Pick<V>(p: Priority, high: V, medium: V, low: V): V {
    match p case High => high case Medium => medium case Low => low
  }

  datatype Monitor = Monitor(lanes: map<Priority, Lane>, waitingGet: int)

  function Stored(lanes: map<Priority, Lane>): nat
    requires Total(lanes)
  {
    |lanes[High].items| + |lanes[Medium].items| + |lanes[Low].items|
  }

  /** The queue a getter is served from: the first non-empty one. */
  function Serving(lanes: map<Priority, Lane>): (p: Priority)
    requires Total(lanes) && Stored(lanes) > 0
    ensures lanes[p].items != []
    ensures p != High ==> lanes[High].items == []
    ensures p == Low ==> lanes[Medium].items == []
  {
    if lanes[High].items != [] then High else if lanes[Medium].items != [] then Medium else Low
  }

  datatype PutResult = Blocks | Put(notify: bool)
  datatype GetResult = Waits | Got(item: Item, from: Priority, notify: bool)

  /** What a putter does from taking the lock to returning or waiting. */
  function DoPut(m: Monitor, item: Item, p: Priority): (r: (Monitor, PutResult))
    requires Total(m.lanes)
  {
    var lane := m.lanes[p];
    if |lane.items| == lane.capacity then (m.(lanes := m.lanes[p := lane.(waitingPut := lane.waitingPut + 1)]), Blocks)
    else (m.(lanes := m.lanes[p := lane.(items := lane.items + [item])]), Put(m.waitingGet != 0))
  }

  /** What a getter does from taking the lock to returning or waiting. */
  function DoGet(m: Monitor): (r: (Monitor, GetResult))
    requires Total(m.lanes)
  {
    if Stored(m.lanes) == 0 then (m.(waitingGet := m.waitingGet + 1), Waits)
    else
      var p := Serving(m.lanes);
      var lane := m.lanes[p];
      (m.(lanes := m.lanes[p := lane.(items := lane.items[1..])]), Got(lane.items[0], p, lane.waitingPut != 0))
  }

  /** A putter that has stopped waiting, whatever the reason. */
  function LeavePut(m: Monitor, p: Priority): Monitor
    requires Total(m.lanes)
  {
    m.(lanes := m.lanes[p := m.lanes[p].(waitingPut := m.lanes[p].waitingPut - 1)])
  }

  function LeaveGet(m: Monitor): Monitor {
    m.(waitingGet := m.waitingGet - 1)
  }

  // ---------------------------------------------------------------- threads

  type Thread = nat

  /** Threads inside a wait, by whether a notification has reached them yet. */
  datatype Waiters = Waiters(blocked: set<Thread>, signalled: set<Thread>) {
    function All(): set<Thread> { blocked + signalled }

    function Enter(t: Thread): Waiters { this.(blocked := blocked + {t}) }

    function Leave(t: Thread): Waiters { Waiters(blocked - {t}, signalled - {t}) }

    function Signal(t: Thread): Waiters { Waiters(blocked - {t}, signalled + {t}) }

    ghost predicate Ok() { blocked !! signalled }

    /** A notification reaches one blocked thread, if there is any. */
    ghost predicate Notified(after: Waiters) {
      if blocked == {} then after == this else exists t :: t in blocked && after == Signal(t)
    }
  }

  /** The whole system, with the history of what was put into and got from each queue. */
  datatype System = System(m: Monitor, getters: Waiters, putters: map<Priority, Waiters>,
                           puts: map<Priority, seq<Item>>, gets: map<Priority, seq<Item>>)

  /**
   A wake is by a notification or for no reason at all. A timeout ends any timed wait: a condition variable may take a
   notification and still report that the time is up.
   */
  datatype Step =
    | PutEnter(thread: Thread, item: Item, priority: Priority)
    | PutWake(thread: Thread, item: Item, priority: Priority)
    | PutTimeout(thread: Thread, priority: Priority)
    | GetEnter(thread: Thread)
    | GetWake(thread: Thread)
    | GetTimeout(thread: Thread)

  predicate Whole(s: System) {
    Total(s.m.lanes) && Total(s.putters) && Total(s.puts) && Total(s.gets)
  }

  ghost predicate Initial(s: System) {
    && Whole(s) && s.m.waitingGet == 0 && s.getters == Waiters({}, {})
    && forall p: Priority ::
         && s.m.lanes[p].items == [] && s.m.lanes[p].waitingPut == 0
         && s.putters[p] == Waiters({}, {}) && s.puts[p] == [] && s.gets[p] == []
  }

  /** A thread not inside any wait. */
  ghost predicate Outside(s: System, t: Thread)
    requires Whole(s)
  {
    t !in s.getters.All() && forall p: Priority :: t !in s.putters[p].All()
  }

  /** One stretch of PutQ under the lock. */
  ghost predicate Putting(s: System, t: Thread, item: Item, p: Priority, s': System)
    requires Whole(s)
  {
    var (m, r) := DoPut(s.m, item, p);
    match r
    case Blocks => s' == s.(m := m, putters := s.putters[p := s.putters[p].Enter(t)])
    case Put(notify) =>
      && (if notify then s.getters.Notified(s'.getters) else s'.getters == s.getters)
      && s' == s.(m := m, getters := s'.getters, puts := s.puts[p := s.puts[p] + [item]])
  }

  /** One stretch of GetQ under the lock. */
  ghost predicate Getting(s: System, t: Thread, s': System)
    requires Whole(s)
  {
    var (m, r) := DoGet(s.m);
    match r
    case Waits => s' == s.(m := m, getters := s.getters.Enter(t))
    case Got(item, p, notify) =>
      && p in s'.putters
      && (if notify then s.putters[p].Notified(s'.putters[p]) else s'.putters[p] == s.putters[p])
      && s' == s.(m := m, putters := s.putters[p := s'.putters[p]], gets := s.gets[p := s.gets[p] + [item]])
  }

  function PutterResumed(s: System, t: Thread, p: Priority): System
    requires Whole(s)
  {
    s.(m := LeavePut(s.m, p), putters := s.putters[p := s.putters[p].Leave(t)])
  }

  function GetterResumed(s: System, t: Thread): System {
    s.(m := LeaveGet(s.m), getters := s.getters.Leave(t))
  }

  ghost predicate Next(s: System, step: Step, s': System) {
    Whole(s) &&
    match step
    case PutEnter(t, item, p) => Outside(s, t) && Putting(s, t, item, p, s')
    case PutWake(t, item, p) => t in s.putters[p].All() && Putting(PutterResumed(s, t, p), t, item, p, s')
    case PutTimeout(t, p) => t in s.putters[p].All() && s' == PutterResumed(s, t, p)
    case GetEnter(t) => Outside(s, t) && Getting(s, t, s')
    case GetWake(t) => t in s.getters.All() && Getting(GetterResumed(s, t), t, s')
    case GetTimeout(t) => t in s.getters.All() && s' == GetterResumed(s, t)
  }

  // ---------------------------------------------------------------- the invariant

  /**
   One queue: it is within bounds, its counter counts the waiting putters, its history accounts for every item in order,
   and while a putter is left waiting every free slot but `spare` has a putter on its way to it.
   */
  ghost predicate LaneOk(lane: Lane, w: Waiters, puts: seq<Item>, gets: seq<Item>, spare: nat) {
    && |lane.items| <= lane.capacity
    && w.Ok() && lane.waitingPut == |w.blocked| + |w.signalled|
    && puts == gets + lane.items
    && (w.blocked != {} ==> lane.capacity - |lane.items| <= |w.signalled| + spare)
  }

  ghost predicate LaneOkAt(s: System, p: Priority, spare: nat)
    requires Whole(s)
  {
    LaneOk(s.m.lanes[p], s.putters[p], s.puts[p], s.gets[p], spare)
  }

  /**
   The getters: the counter counts them, and while one is left waiting every stored item but `spare` has a getter on
   its way.
   */
  ghost predicate GettersOk(waitingGet: int, stored: nat, w: Waiters, spare: nat) {
    && w.Ok() && waitingGet == |w.blocked| + |w.signalled|
    && (w.blocked != {} ==> stored <= |w.signalled| + spare)
  }

  /** How many items, and how many free slots of each queue, may be spoken for by nobody. */
  datatype Slack = Slack(get: nat, put: map<Priority, nat>)

  ghost predicate Within(s: System, slack: Slack) {
    && Whole(s) && Total(slack.put)
    && (forall p: Priority :: LaneOkAt(s, p, slack.put[p]))
    && GettersOk(s.m.waitingGet, Stored(s.m.lanes), s.getters, slack.get)
  }

  const NO_SLACK := Slack(0, PerPriority(0, 0, 0))

  /** The books are right, and what anybody waits for is spoken for by threads already notified. */
  ghost predicate Invariant(s: System) {
    Within(s, NO_SLACK)
  }

  /**
   A timeout that loses no wake-up: of an unnotified thread, with nobody left waiting, or with a notified thread to
   spare.
   */
  predicate Timely(s: System, step: Step)
    requires Whole(s)
  {
    match step
    case PutTimeout(t, p) =>
      var lane, w := s.m.lanes[p], s.putters[p];
      t !in w.signalled || w.blocked == {} || lane.capacity - |lane.items| < |w.signalled|
    case GetTimeout(t) =>
      t !in s.getters.signalled || s.getters.blocked == {} || Stored(s.m.lanes) < |s.getters.signalled|
    case PutEnter(_, _, _) => true
    case PutWake(_, _, _) => true
    case GetEnter(_) => true
    case GetWake(_) => true
  }

  /** Each untimely timeout may leave one more item, or one more slot, that nobody is told of. */
  function After(slack: Slack, s: System, step: Step): (after: Slack)
    requires Whole(s) && Total(slack.put)
    ensures Total(after.put) && after.get >= slack.get
  {
    if Timely(s, step) then slack
    else if step.PutTimeout? then slack.(put := slack.put[step.priority := slack.put[step.priority] + 1])
    else slack.(get := slack.get + 1)
  }

  // ---------------------------------------------------------------- one queue

  lemma EnterCounts(w: Waiters, t: Thread)
    requires w.Ok() && t !in w.All()
    ensures w.Enter(t).Ok() && |w.Enter(t).blocked| == |w.blocked| + 1 && w.Enter(t).signalled == w.signalled
  {
  }

  lemma LeaveCounts(w: Waiters, t: Thread)
    requires w.Ok() && t in w.All()
    ensures var l := w.Leave(t);
            && l.Ok() && t !in l.All() && l.blocked <= w.blocked
            && |l.blocked| + |l.signalled| == |w.blocked| + |w.signalled| - 1
            && |l.signalled| + 1 >= |w.signalled|
            && (if t in w.signalled then l.blocked == w.blocked && |l.signalled| == |w.signalled| - 1
                else l.signalled == w.signalled)
  {
    if t in w.blocked {
      assert w.signalled - {t} == w.signalled;
    } else {
      assert w.blocked - {t} == w.blocked;
    }
  }

  lemma NotifyCounts(w: Waiters, after: Waiters)
    requires w.Ok() && w.Notified(after)
    ensures after.Ok() && |after.blocked| + |after.signalled| == |w.blocked| + |w.signalled|
    ensures after.blocked <= w.blocked
    ensures w.blocked != {} ==> |after.signalled| == |w.signalled| + 1
  {
    if w.blocked != {} {
      var t :| t in w.blocked && after == w.Signal(t);
      assert w.blocked == after.blocked + {t};
    }
  }

  lemma PutterWaits(lane: Lane, w: Waiters, puts: seq<Item>, gets: seq<Item>, t: Thread, spare: nat)
    requires LaneOk(lane, w, puts, gets, spare + 1) && |lane.items| == lane.capacity && t !in w.All()
    ensures LaneOk(lane.(waitingPut := lane.waitingPut + 1), w.Enter(t), puts, gets, spare)
  {
    EnterCounts(w, t);
  }

  lemma PutterStores(lane: Lane, w: Waiters, puts: seq<Item>, gets: seq<Item>, item: Item, spare: nat)
    requires LaneOk(lane, w, puts, gets, spare + 1) && |lane.items| != lane.capacity
    ensures LaneOk(lane.(items := lane.items + [item]), w, puts + [item], gets, spare)
  {
    assert (gets + lane.items) + [item] == gets + (lane.items + [item]);
  }

  lemma GetterTakes(lane: Lane, w: Waiters, puts: seq<Item>, gets: seq<Item>, w': Waiters, spare: nat)
    requires LaneOk(lane, w, puts, gets, spare) && lane.items != []
    requires if lane.waitingPut != 0 then w.Notified(w') else w' == w
    ensures LaneOk(lane.(items := lane.items[1..]), w', puts, gets + [lane.items[0]], spare)
  {
    assert gets + lane.items == (gets + [lane.items[0]]) + lane.items[1..];
    if lane.waitingPut != 0 {
      NotifyCounts(w, w');
    }
  }

  lemma PutterLeaves(lane: Lane, w: Waiters, puts: seq<Item>, gets: seq<Item>, t: Thread, spare: nat)
    requires LaneOk(lane, w, puts, gets, spare) && t in w.All()
    ensures t !in w.Leave(t).All()
    ensures var left := lane.(waitingPut := lane.waitingPut - 1);
            && LaneOk(left, w.Leave(t), puts, gets, spare + 1)
            && (t !in w.signalled || w.blocked == {} || lane.capacity - |lane.items| < |w.signalled| ==>
                  LaneOk(left, w.Leave(t), puts, gets, spare))
            && (LaneOk(left, w.Leave(t), puts, gets, 0) ==>
                  t !in w.signalled || w.blocked == {} || lane.capacity - |lane.items| < |w.signalled|)
  {
    LeaveCounts(w, t);
  }

  lemma MoreSpare(lane: Lane, w: Waiters, puts: seq<Item>, gets: seq<Item>, spare: nat)
    requires LaneOk(lane, w, puts, gets, spare)
    ensures LaneOk(lane, w, puts, gets, spare + 1)
  {
  }

  // ---------------------------------------------------------------- the getters

  lemma OneMoreItem(waitingGet: int, stored: nat, w: Waiters, w': Waiters, spare: nat)
    requires GettersOk(waitingGet, stored, w, spare)
    requires if waitingGet != 0 then w.Notified(w') else w' == w
    ensures GettersOk(waitingGet, stored + 1, w', spare)
  {
    if waitingGet != 0 {
      NotifyCounts(w, w');
    }
  }

  lemma OneItemLess(waitingGet: int, stored: nat, w: Waiters, spare: nat)
    requires GettersOk(waitingGet, stored, w, spare + 1) && stored > 0
    ensures GettersOk(waitingGet, stored - 1, w, spare)
  {
  }

  lemma GetterLeaves(waitingGet: int, stored: nat, w: Waiters, t: Thread, spare: nat)
    requires GettersOk(waitingGet, stored, w, spare) && t in w.All()
    ensures t !in w.Leave(t).All() && GettersOk(waitingGet - 1, stored, w.Leave(t), spare + 1)
    ensures t !in w.signalled || w.blocked == {} || stored < |w.signalled| ==>
              GettersOk(waitingGet - 1, stored, w.Leave(t), spare)
    ensures GettersOk(waitingGet - 1, stored, w.Leave(t), 0) ==>
              t !in w.signalled || w.blocked == {} || stored < |w.signalled|
  {
    LeaveCounts(w, t);
  }

  lemma StoredChange(lanes: map<Priority, Lane>, p: Priority, lane: Lane)
    requires Total(lanes)
    ensures Total(lanes[p := lane])
    ensures Stored(lanes[p := lane]) == Stored(lanes) - |lanes[p].items| + |lane.items|
  {
  }

  // ---------------------------------------------------------------- steps

  /** A putter's stretch, entered with one slot to spare at most. */
  lemma PuttingKeeps(s: System, t: Thread, item: Item, p: Priority, s': System, slack: Slack)
    requires Whole(s) && Total(slack.put) && (forall q: Priority :: q != p ==> LaneOkAt(s, q, slack.put[q]))
    requires LaneOkAt(s, p, slack.put[p] + 1) && t !in s.putters[p].All()
    requires GettersOk(s.m.waitingGet, Stored(s.m.lanes), s.getters, slack.get)
    requires Putting(s, t, item, p, s')
    ensures Within(s', slack)
  {
    hide LaneOk, GettersOk, Stored, Waiters.Notified, Waiters.Enter, Waiters.All;
    var lane, w := s.m.lanes[p], s.putters[p];
    StoredChange(s.m.lanes, p, s'.m.lanes[p]);
    if |lane.items| == lane.capacity {
      PutterWaits(lane, w, s.puts[p], s.gets[p], t, slack.put[p]);
    } else {
      PutterStores(lane, w, s.puts[p], s.gets[p], item, slack.put[p]);
      OneMoreItem(s.m.waitingGet, Stored(s.m.lanes), s.getters, s'.getters, slack.get);
    }
    forall q: Priority ensures LaneOkAt(s', q, slack.put[q]) {
      if q != p {
        assert LaneOkAt(s, q, slack.put[q]);
      }
    }
  }

  /** A getter's stretch, entered with one item to spare at most. */
  lemma GettingKeeps(s: System, t: Thread, s': System, slack: Slack)
    requires Whole(s) && Total(slack.put) && (forall q: Priority :: LaneOkAt(s, q, slack.put[q]))
    requires GettersOk(s.m.waitingGet, Stored(s.m.lanes), s.getters, slack.get + 1) && t !in s.getters.All()
    requires Getting(s, t, s')
    ensures Within(s', slack)
  {
    hide LaneOk, GettersOk, Stored, Getting, Waiters.All;
    if Stored(s.m.lanes) == 0 {
      GettingWaits(s, t, s', slack);
    } else {
      GettingTakes(s, t, s', slack);
    }
  }

  lemma GettingWaits(s: System, t: Thread, s': System, slack: Slack)
    requires Whole(s) && Total(slack.put) && (forall q: Priority :: LaneOkAt(s, q, slack.put[q]))
    requires GettersOk(s.m.waitingGet, Stored(s.m.lanes), s.getters, slack.get + 1) && t !in s.getters.All()
    requires Getting(s, t, s') && Stored(s.m.lanes) == 0
    ensures Within(s', slack)
  {
    hide LaneOk, Stored, Waiters.Notified;
    EnterCounts(s.getters, t);
    forall q: Priority ensures LaneOkAt(s', q, slack.put[q]) {
      assert LaneOkAt(s, q, slack.put[q]);
    }
  }

  lemma GettingTakes(s: System, t: Thread, s': System, slack: Slack)
    requires Whole(s) && Total(slack.put) && (forall q: Priority :: LaneOkAt(s, q, slack.put[q]))
    requires GettersOk(s.m.waitingGet, Stored(s.m.lanes), s.getters, slack.get + 1)
    requires Getting(s, t, s') && Stored(s.m.lanes) > 0
    ensures Within(s', slack)
  {
    hide LaneOk, Stored, Waiters.Notified, Serving, GettersOk;
    var p := Serving(s.m.lanes);
    assert LaneOkAt(s, p, slack.put[p]);
    var lane, w := s.m.lanes[p], s.putters[p];
    StoredChange(s.m.lanes, p, s'.m.lanes[p]);
    GetterTakes(lane, w, s.puts[p], s.gets[p], s'.putters[p], slack.put[p]);
    OneItemLess(s.m.waitingGet, Stored(s.m.lanes), s.getters, slack.get);
    forall q: Priority ensures LaneOkAt(s', q, slack.put[q]) {
      if q != p {
        assert LaneOkAt(s, q, slack.put[q]);
      }
    }
  }

  /** Every step of every thread keeps within the slack, but for an untimely timeout, which costs one more. */
  lemma StepWithin(s: System, step: Step, s': System, slack: Slack)
    requires Within(s, slack) && Next(s, step, s')
    ensures Within(s', After(slack, s, step))
  {
    hide LaneOk, GettersOk, Putting, Getting, Stored, Waiters.All, Waiters.Leave;
    match step
    case PutEnter(t, item, p) =>
      assert LaneOkAt(s, p, slack.put[p]);
      MoreSpare(s.m.lanes[p], s.putters[p], s.puts[p], s.gets[p], slack.put[p]);
      PuttingKeeps(s, t, item, p, s', slack);
    case PutWake(t, item, p) =>
      PutterResumes(s, t, p, slack);
      PuttingKeeps(PutterResumed(s, t, p), t, item, p, s', slack);
    case PutTimeout(t, p) =>
      PutterResumes(s, t, p, slack);
      var after := After(slack, s, step);
      forall q: Priority ensures LaneOkAt(s', q, after.put[q]) {}
    case GetEnter(t) =>
      MoreSpareItems(s.m.waitingGet, Stored(s.m.lanes), s.getters, slack.get);
      GettingKeeps(s, t, s', slack);
    case GetWake(t) =>
      GetterResumes(s, t, slack);
      GettingKeeps(GetterResumed(s, t), t, s', slack);
    case GetTimeout(t) =>
      GetterResumes(s, t, slack);
  }

  /** A step keeps the invariant exactly when it is timely. */
  lemma StepKeeps(s: System, step: Step, s': System)
    requires Invariant(s) && Next(s, step, s')
    ensures Invariant(s') <==> Timely(s, step)
  {
    hide LaneOk, GettersOk, Putting, Getting, Stored, Waiters.All, Waiters.Leave;
    StepWithin(s, step, s', NO_SLACK);
    if step.PutTimeout? {
      PutterResumes(s, step.thread, step.priority, NO_SLACK);
      if Invariant(s') {
        assert LaneOkAt(s', step.priority, 0);
      }
    } else if step.GetTimeout? {
      GetterResumes(s, step.thread, NO_SLACK);
    }
  }

  lemma PutterResumes(s: System, t: Thread, p: Priority, slack: Slack)
    requires Within(s, slack) && t in s.putters[p].All()
    ensures var r := PutterResumed(s, t, p);
            && Whole(r) && t !in r.putters[p].All()
            && (forall q: Priority :: q != p ==> LaneOkAt(r, q, slack.put[q])) && LaneOkAt(r, p, slack.put[p] + 1)
            && (Timely(s, PutTimeout(t, p)) ==> LaneOkAt(r, p, slack.put[p]))
            && (LaneOkAt(r, p, 0) ==> Timely(s, PutTimeout(t, p)))
            && GettersOk(r.m.waitingGet, Stored(r.m.lanes), r.getters, slack.get)
  {
    hide LaneOk, GettersOk, Stored, Waiters.All, Waiters.Leave;
    var r := PutterResumed(s, t, p);
    assert LaneOkAt(s, p, slack.put[p]);
    PutterLeaves(s.m.lanes[p], s.putters[p], s.puts[p], s.gets[p], t, slack.put[p]);
    StoredChange(s.m.lanes, p, r.m.lanes[p]);
    forall q: Priority | q != p ensures LaneOkAt(r, q, slack.put[q]) {
      assert LaneOkAt(s, q, slack.put[q]);
    }
  }

  lemma GetterResumes(s: System, t: Thread, slack: Slack)
    requires Within(s, slack) && t in s.getters.All()
    ensures var r := GetterResumed(s, t);
            && Whole(r) && t !in r.getters.All()
            && (forall q: Priority :: LaneOkAt(r, q, slack.put[q]))
            && GettersOk(r.m.waitingGet, Stored(r.m.lanes), r.getters, slack.get + 1)
            && (Timely(s, GetTimeout(t)) ==> GettersOk(r.m.waitingGet, Stored(r.m.lanes), r.getters, slack.get))
            && (GettersOk(r.m.waitingGet, Stored(r.m.lanes), r.getters, 0) ==> Timely(s, GetTimeout(t)))
  {
    hide LaneOk, GettersOk, Stored, Waiters.All, Waiters.Leave;
    GetterLeaves(s.m.waitingGet, Stored(s.m.lanes), s.getters, t, slack.get);
    forall q: Priority ensures LaneOkAt(GetterResumed(s, t), q, slack.put[q]) {
      assert LaneOkAt(s, q, slack.put[q]);
    }
  }

  lemma MoreSpareItems(waitingGet: int, stored: nat, w: Waiters, spare: nat)
    requires GettersOk(waitingGet, stored, w, spare)
    ensures GettersOk(waitingGet, stored, w, spare + 1)
  {
  }

  lemma InitialInvariant(s: System)
    requires Initial(s)
    ensures Invariant(s)
  {
  }

  // ---------------------------------------------------------------- runs

  /** A run from the start: consecutive states related by steps. */
  ghost predicate Run(states: seq<System>, steps: seq<Step>) {
    && |states| == |steps| + 1 && Initial(states[0])
    && forall i :: 0 <= i < |steps| ==> Next(states[i], steps[i], states[i + 1])
  }

  /** The slack a run has used up after its first `i` steps: one for each untimely timeout. */
  ghost function Used(states: seq<System>, steps: seq<Step>, i: nat): (slack: Slack)
    requires Run(states, steps) && i < |states|
    ensures Total(slack.put)
  {
    if i == 0 then NO_SLACK
    else
      assert Next(states[i - 1], steps[i - 1], states[i - 1 + 1]);
      After(Used(states, steps, i - 1), states[i - 1], steps[i - 1])
  }

  /**
   In every run of any number of threads, timed or not, each queue hands out what was put into it, in order, and what is
   not handed out is still stored; and no more is left unannounced than there were untimely timeouts.
   */
  lemma {:induction false} RunWithin(states: seq<System>, steps: seq<Step>, i: nat)
    requires Run(states, steps) && i < |states|
    ensures Within(states[i], Used(states, steps, i))
    ensures forall p: Priority :: states[i].puts[p] == states[i].gets[p] + states[i].m.lanes[p].items
    decreases i
  {
    hide Next, Initial, After, LaneOk, GettersOk;
    if i == 0 {
      InitialInvariant(states[0]);
    } else {
      RunWithin(states, steps, i - 1);
      assert Next(states[i - 1], steps[i - 1], states[i - 1 + 1]);
      StepWithin(states[i - 1], steps[i - 1], states[i], Used(states, steps, i - 1));
    }
    Ordered(states[i], Used(states, steps, i));
  }

  lemma Ordered(s: System, slack: Slack)
    requires Within(s, slack)
    ensures forall p: Priority :: s.puts[p] == s.gets[p] + s.m.lanes[p].items
  {
    forall p: Priority ensures s.puts[p] == s.gets[p] + s.m.lanes[p].items {
      assert LaneOkAt(s, p, slack.put[p]);
    }
  }

  /** The invariant holds all along a run exactly when every timeout in it is timely. */
  lemma RunExact(states: seq<System>, steps: seq<Step>)
    requires Run(states, steps)
    ensures (forall i :: 0 <= i < |states| ==> Invariant(states[i])) <==>
            (forall i :: 0 <= i < |steps| ==> Whole(states[i]) && Timely(states[i], steps[i]))
  {
    hide Next, Initial, Timely, Within;
    if forall i :: 0 <= i < |states| ==> Invariant(states[i]) {
      forall i | 0 <= i < |steps| ensures Whole(states[i]) && Timely(states[i], steps[i]) {
        WholeNow(states[i], steps[i], states[i + 1]);
        assert Invariant(states[i]) && Invariant(states[i + 1]);
        StepKeeps(states[i], steps[i], states[i + 1]);
      }
    }
    if forall i :: 0 <= i < |steps| ==> Whole(states[i]) && Timely(states[i], steps[i]) {
      forall i | 0 <= i < |states| ensures Invariant(states[i]) {
        TimelyRun(states, steps, i);
      }
    }
  }

  lemma WholeNow(s: System, step: Step, s': System)
    requires Next(s, step, s')
    ensures Whole(s)
  {
  }

  lemma {:induction false} TimelyRun(states: seq<System>, steps: seq<Step>, i: nat)
    requires Run(states, steps) && i < |states|
    requires forall k :: 0 <= k < i ==> Whole(states[k]) && Timely(states[k], steps[k])
    ensures Invariant(states[i])
    decreases i
  {
    hide Next, Initial, Timely, Within;
    if i == 0 {
      InitialInvariant(states[0]);
    } else {
      TimelyRun(states, steps, i - 1);
      assert Next(states[i - 1], steps[i - 1], states[i - 1 + 1]);
      StepKeeps(states[i - 1], steps[i - 1], states[i]);
    }
  }

  /**
   In a run without untimely timeouts, nobody is left waiting for what is there, unless a notified thread is on its
   way.
   */
  lemma NoLostWakeUp(states: seq<System>, steps: seq<Step>, i: nat)
    requires Run(states, steps) && i < |states|
    requires forall k :: 0 <= k < i ==> Whole(states[k]) && Timely(states[k], steps[k])
    ensures var s := states[i];
            && Whole(s)
            && (s.getters.blocked != {} ==> Stored(s.m.lanes) <= |s.getters.signalled|)
            && (forall p: Priority :: s.putters[p].blocked != {} ==>
                  s.m.lanes[p].capacity - |s.m.lanes[p].items| <= |s.putters[p].signalled|)
  {
    hide Next, Initial, Timely, LaneOk;
    TimelyRun(states, steps, i);
    forall p: Priority | states[i].putters[p].blocked != {}
      ensures states[i].m.lanes[p].capacity - |states[i].m.lanes[p].items| <= |states[i].putters[p].signalled|
    {
      assert LaneOkAt(states[i], p, NO_SLACK.put[p]);
      SlotsSpokenFor(states[i].m.lanes[p], states[i].putters[p], states[i].puts[p], states[i].gets[p]);
    }
  }

  lemma SlotsSpokenFor(lane: Lane, w: Waiters, puts: seq<Item>, gets: seq<Item>)
    requires LaneOk(lane, w, puts, gets, 0) && w.blocked != {}
    ensures lane.capacity - |lane.items| <= |w.signalled|
  {
  }

  /** What the invariant means when no notified thread is on its way. */
  lemma StillSpokenFor(s: System)
    requires Invariant(s)
    ensures s.getters.blocked != {} && s.getters.signalled == {} ==> Stored(s.m.lanes) == 0
    ensures forall p: Priority :: s.putters[p].blocked != {} && s.putters[p].signalled == {} ==>
              |s.m.lanes[p].items| == s.m.lanes[p].capacity
  {
    forall p: Priority | s.putters[p].blocked != {} && s.putters[p].signalled == {}
      ensures |s.m.lanes[p].items| == s.m.lanes[p].capacity
    {
      assert LaneOkAt(s, p, NO_SLACK.put[p]);
    }
  }

  // ---------------------------------------------------------------- untimely timeouts happen

  const QUIET := Waiters({}, {})
  const IDLE := Lane([], 1, 0)

  /** A system in which nothing has happened but to one queue of one slot. */
  function At(p: Priority, stored: seq<Item>, waitingGet: int, waitingPut: int, getters: Waiters, putters: Waiters,
              puts: seq<Item>, gets: seq<Item>): (s: System)
    ensures Whole(s) && Stored(s.m.lanes) == |stored|
    ensures s.m.lanes[p] == Lane(stored, 1, waitingPut) && s.putters[p] == putters && s.puts[p] == puts
    ensures s.gets[p] == gets
    ensures forall q: Priority :: q != p ==> s.m.lanes[q] == IDLE && s.putters[q] == QUIET
  {
    StoredChange(PerPriority(IDLE, IDLE, IDLE), p, Lane(stored, 1, waitingPut));
    System(Monitor(PerPriority(IDLE, IDLE, IDLE)[p := Lane(stored, 1, waitingPut)], waitingGet), getters,
           PerPriority(QUIET, QUIET, QUIET)[p := putters], PerPriority([], [], [])[p := puts],
           PerPriority([], [], [])[p := gets])
  }

  lemma FourSteps(s0: System, e0: Step, s1: System, e1: Step, s2: System, e2: Step, s3: System, e3: Step, s4: System)
    requires Initial(s0) && Next(s0, e0, s1) && Next(s1, e1, s2) && Next(s2, e2, s3) && Next(s3, e3, s4)
    ensures Run([s0, s1, s2, s3, s4], [e0, e1, e2, e3])
  {
    hide Next, Initial;
  }

  lemma Extends(states: seq<System>, steps: seq<Step>, step: Step, s': System)
    requires Run(states, steps) && Next(states[|steps|], step, s')
    ensures Run(states + [s'], steps + [step])
  {
    hide Next, Initial;
  }

  lemma Starts(p: Priority)
    ensures Initial(At(p, [], 0, 0, QUIET, QUIET, [], []))
  {
  }

  lemma GetterBlocks(p: Priority, t: Thread, waitingGet: int, w: Waiters)
    requires t !in w.All()
    ensures Next(At(p, [], waitingGet, 0, w, QUIET, [], []), GetEnter(t),
                 At(p, [], waitingGet + 1, 0, w.Enter(t), QUIET, [], []))
  {
  }

  lemma PutterBlocks(p: Priority, t: Thread, item: Item, waitingPut: int, w: Waiters)
    requires t !in w.All()
    ensures Next(At(p, [7], 0, waitingPut, QUIET, w, [7], []), PutEnter(t, item, p),
                 At(p, [7], 0, waitingPut + 1, QUIET, w.Enter(t), [7], []))
  {
    var s := At(p, [7], 0, waitingPut, QUIET, w, [7], []);
    var s' := At(p, [7], 0, waitingPut + 1, QUIET, w.Enter(t), [7], []);
    assert s'.m.lanes == s.m.lanes[p := Lane([7], 1, waitingPut + 1)];
    assert s'.putters == s.putters[p := w.Enter(t)];
  }

  lemma PutNotifies(p: Priority, getters: Waiters, t: Thread, c: Thread)
    requires t in getters.blocked && c !in getters.All()
    ensures Next(At(p, [], 2, 0, getters, QUIET, [], []), PutEnter(c, 7, p),
                 At(p, [7], 2, 0, getters.Signal(t), QUIET, [7], []))
  {
    var s, s' := At(p, [], 2, 0, getters, QUIET, [], []), At(p, [7], 2, 0, getters.Signal(t), QUIET, [7], []);
    assert s.m.lanes[p].items + [7] == [7] && s.puts[p] + [7] == [7];
    assert s'.m.lanes == s.m.lanes[p := Lane([7], 1, 0)];
    assert s'.puts == s.puts[p := [7]];
  }

  lemma PutFills(p: Priority, t: Thread)
    ensures Next(At(p, [], 0, 0, QUIET, QUIET, [], []), PutEnter(t, 7, p), At(p, [7], 0, 0, QUIET, QUIET, [7], []))
  {
    var s, s' := At(p, [], 0, 0, QUIET, QUIET, [], []), At(p, [7], 0, 0, QUIET, QUIET, [7], []);
    assert s.m.lanes[p].items + [7] == [7] && s.puts[p] + [7] == [7];
    assert s'.m.lanes == s.m.lanes[p := Lane([7], 1, 0)];
    assert s'.puts == s.puts[p := [7]];
  }

  lemma GetNotifies(p: Priority, putters: Waiters, t: Thread, c: Thread)
    requires t in putters.blocked && c !in putters.All()
    ensures Next(At(p, [7], 0, 2, QUIET, putters, [7], []), GetEnter(c),
                 At(p, [], 0, 2, QUIET, putters.Signal(t), [7], [7]))
  {
    var s := At(p, [7], 0, 2, QUIET, putters, [7], []);
    var s' := At(p, [], 0, 2, QUIET, putters.Signal(t), [7], [7]);
    assert Serving(s.m.lanes) == p;
    assert s.m.lanes[p].items[1..] == [] && s.gets[p] + [7] == [7];
    assert s'.m.lanes == s.m.lanes[p := Lane([], 1, 2)];
    assert s'.putters == s.putters[p := putters.Signal(t)];
    assert s'.gets == s.gets[p := [7]];
  }

  lemma GetterGivesUp(p: Priority, a: Thread, b: Thread)
    requires a != b
    ensures var s := At(p, [7], 2, 0, Waiters({a}, {b}), QUIET, [7], []);
            var s' := At(p, [7], 1, 0, Waiters({a}, {}), QUIET, [7], []);
            Next(s, GetTimeout(b), s') && !Timely(s, GetTimeout(b))
  {
    assert Waiters({a}, {b}).Leave(b) == Waiters({a}, {});
    assert a in {a};
  }

  lemma PutterGivesUp(p: Priority, a: Thread, b: Thread)
    requires a != b
    ensures var s := At(p, [], 0, 2, QUIET, Waiters({a}, {b}), [7], [7]);
            var s' := At(p, [], 0, 1, QUIET, Waiters({a}, {}), [7], [7]);
            Next(s, PutTimeout(b, p), s') && !Timely(s, PutTimeout(b, p))
  {
    var s := At(p, [], 0, 2, QUIET, Waiters({a}, {b}), [7], [7]);
    var s' := At(p, [], 0, 1, QUIET, Waiters({a}, {}), [7], [7]);
    assert Waiters({a}, {b}).Leave(b) == Waiters({a}, {});
    assert s'.m.lanes == s.m.lanes[p := Lane([], 1, 1)];
    assert s'.putters == s.putters[p := Waiters({a}, {})];
    assert a in {a};
  }

  lemma TwoWait(a: Thread, b: Thread, c: Thread)
    requires a != b && a != c && b != c
    ensures a !in QUIET.All() && QUIET.Enter(a) == Waiters({a}, {})
    ensures b !in Waiters({a}, {}).All() && Waiters({a}, {}).Enter(b) == Waiters({a, b}, {})
    ensures c !in Waiters({a, b}, {}).All() && Waiters({a, b}, {}).Signal(b) == Waiters({a}, {b})
  {
    assert {} + {a} == {a} && {a} + {b} == {a, b} && {a, b} - {b} == {a} && {} - {b} + {b} == {b};
  }

  /**
   Two getters wait, an item is put, and the notified getter's time is up before it has the lock again: the item stays
   stored, the other getter waits, and nobody is notified.
   */
  lemma GetTimeoutLosesWakeUp(p: Priority, a: Thread, b: Thread, c: Thread)
    returns (states: seq<System>, steps: seq<Step>)
    requires a != b && a != c && b != c
    ensures Run(states, steps) && steps == [GetEnter(a), GetEnter(b), PutEnter(c, 7, p), GetTimeout(b)]
    ensures Whole(states[3]) && !Timely(states[3], steps[3])
    ensures states[4] == At(p, [7], 1, 0, Waiters({a}, {}), QUIET, [7], [])
  {
    hide Next, Initial, Putting, Getting, At, Run, Timely, Waiters.Enter, Waiters.Signal, Waiters.All;
    TwoWait(a, b, c);
    var s0, s1 := At(p, [], 0, 0, QUIET, QUIET, [], []), At(p, [], 1, 0, Waiters({a}, {}), QUIET, [], []);
    var s2 := At(p, [], 2, 0, Waiters({a, b}, {}), QUIET, [], []);
    var s3 := At(p, [7], 2, 0, Waiters({a}, {b}), QUIET, [7], []);
    var s4 := At(p, [7], 1, 0, Waiters({a}, {}), QUIET, [7], []);
    Starts(p);
    GetterBlocks(p, a, 0, QUIET);
    GetterBlocks(p, b, 1, Waiters({a}, {}));
    PutNotifies(p, Waiters({a, b}, {}), b, c);
    GetterGivesUp(p, a, b);
    FourSteps(s0, GetEnter(a), s1, GetEnter(b), s2, PutEnter(c, 7, p), s3, GetTimeout(b), s4);
    states, steps := [s0, s1, s2, s3, s4], [GetEnter(a), GetEnter(b), PutEnter(c, 7, p), GetTimeout(b)];
  }

  /** The same of putters: two wait for the one slot, it becomes free, and the notified putter's time is up. */
  lemma PutTimeoutLosesWakeUp(p: Priority, a: Thread, b: Thread, c: Thread)
    returns (states: seq<System>, steps: seq<Step>)
    requires a != b && a != c && b != c
    ensures Run(states, steps)
    ensures steps == [PutEnter(a, 7, p), PutEnter(a, 8, p), PutEnter(b, 9, p), GetEnter(c), PutTimeout(b, p)]
    ensures Whole(states[4]) && !Timely(states[4], steps[4])
    ensures states[5] == At(p, [], 0, 1, QUIET, Waiters({a}, {}), [7], [7])
  {
    hide Next, Initial, Putting, Getting, At, Run, Timely, Waiters.Enter, Waiters.Signal, Waiters.All;
    TwoWait(a, b, c);
    var s0, s1 := At(p, [], 0, 0, QUIET, QUIET, [], []), At(p, [7], 0, 0, QUIET, QUIET, [7], []);
    var s2 := At(p, [7], 0, 1, QUIET, Waiters({a}, {}), [7], []);
    var s3 := At(p, [7], 0, 2, QUIET, Waiters({a, b}, {}), [7], []);
    var s4 := At(p, [], 0, 2, QUIET, Waiters({a}, {b}), [7], [7]);
    var s5 := At(p, [], 0, 1, QUIET, Waiters({a}, {}), [7], [7]);
    var e1, e2, e3 := PutEnter(a, 7, p), PutEnter(a, 8, p), PutEnter(b, 9, p);
    Starts(p);
    PutFills(p, a);
    PutterBlocks(p, a, 8, 0, QUIET);
    PutterBlocks(p, b, 9, 1, Waiters({a}, {}));
    GetNotifies(p, Waiters({a, b}, {}), b, c);
    FourSteps(s0, e1, s1, e2, s2, e3, s3, GetEnter(c), s4);
    PutterGivesUp(p, a, b);
    Extends([s0, s1, s2, s3, s4], [e1, e2, e3, GetEnter(c)], PutTimeout(b, p), s5);
    states, steps := [s0, s1, s2, s3, s4] + [s5], [e1, e2, e3, GetEnter(c)] + [PutTimeout(b, p)];
  }

  // ---------------------------------------------------------------- which set-ups are safe

  /** Only `threads` get, and of these only `timed` with a limit of time; anybody may put. */
  ghost predicate GetsBy(steps: seq<Step>, threads: set<Thread>, timed: set<Thread>) {
    forall i :: 0 <= i < |steps| ==> GetBy(steps[i], threads, timed)
  }

  predicate GetBy(step: Step, threads: set<Thread>, timed: set<Thread>) {
    && (step.GetEnter? || step.GetWake? ==> step.thread in threads)
    && (step.GetTimeout? ==> step.thread in timed)
  }

  /** Only `threads` put into queue `p`, and of these only `timed` with a limit of time. */
  ghost predicate PutsBy(steps: seq<Step>, p: Priority, threads: set<Thread>, timed: set<Thread>) {
    forall i :: 0 <= i < |steps| ==> PutBy(steps[i], p, threads, timed)
  }

  predicate PutBy(step: Step, p: Priority, threads: set<Thread>, timed: set<Thread>) {
    && ((step.PutEnter? || step.PutWake?) && step.priority == p ==> step.thread in threads)
    && (step.PutTimeout? && step.priority == p ==> step.thread in timed)
  }

  /** No getter's time-out of the run loses a wake-up; and no putter's. */
  ghost predicate GetsTimely(states: seq<System>, steps: seq<Step>)
    requires Run(states, steps)
  {
    forall i :: 0 <= i < |steps| && steps[i].GetTimeout? ==> Whole(states[i]) && Timely(states[i], steps[i])
  }

  ghost predicate PutsTimely(states: seq<System>, steps: seq<Step>, p: Priority)
    requires Run(states, steps)
  {
    forall i :: 0 <= i < |steps| && steps[i].PutTimeout? && steps[i].priority == p ==>
                  Whole(states[i]) && Timely(states[i], steps[i])
  }

  lemma GettersStay(s: System, step: Step, s': System, threads: set<Thread>, timed: set<Thread>)
    requires Next(s, step, s') && GetBy(step, threads, timed) && s.getters.All() <= threads
    ensures s'.getters.All() <= threads
  {
    hide Stored, Serving, Total;
  }

  lemma PuttersStay(s: System, step: Step, s': System, p: Priority, threads: set<Thread>, timed: set<Thread>)
    requires Next(s, step, s') && Whole(s') && PutBy(step, p, threads, timed) && s.putters[p].All() <= threads
    ensures s'.putters[p].All() <= threads
  {
    hide Stored, Serving;
  }

  lemma StaysWhole(s: System, step: Step, s': System)
    requires Next(s, step, s')
    ensures Whole(s) && Whole(s')
  {
    hide Stored, Serving, Waiters.Notified, Waiters.Enter, Waiters.Leave, Waiters.All;
  }

  lemma {:induction false} OnlyThese(states: seq<System>, steps: seq<Step>, i: nat, p: Priority, getters: set<Thread>,
                                     putters: set<Thread>, timedGets: set<Thread>, timedPuts: set<Thread>)
    requires Run(states, steps) && i < |states|
    ensures Whole(states[i])
    ensures GetsBy(steps, getters, timedGets) ==> states[i].getters.All() <= getters
    ensures PutsBy(steps, p, putters, timedPuts) ==> states[i].putters[p].All() <= putters
    decreases i
  {
    hide Next, Waiters.All, GetBy, PutBy;
    if i == 0 {
      NobodyAtStart(states[0], p);
    } else {
      OnlyThese(states, steps, i - 1, p, getters, putters, timedGets, timedPuts);
      assert Next(states[i - 1], steps[i - 1], states[i - 1 + 1]);
      StaysWhole(states[i - 1], steps[i - 1], states[i]);
      if GetsBy(steps, getters, timedGets) {
        GettersStay(states[i - 1], steps[i - 1], states[i], getters, timedGets);
      }
      if PutsBy(steps, p, putters, timedPuts) {
        PuttersStay(states[i - 1], steps[i - 1], states[i], p, putters, timedPuts);
      }
    }
  }

  lemma NobodyAtStart(s: System, p: Priority)
    requires Initial(s)
    ensures Whole(s) && s.getters.All() == {} && s.putters[p].All() == {}
  {
  }

  /** One who is notified is not left waiting. */
  lemma Alone(w: Waiters, threads: set<Thread>, t: Thread)
    requires w.Ok() && w.All() <= threads && |threads| <= 1 && t in w.signalled
    ensures w.blocked == {}
  {
    assert t in threads && |threads - {t}| == |threads| - 1;
    assert threads - {t} == {};
    assert w.blocked <= threads - {t};
  }

  /** No run loses a getter's wake-up exactly when no get is limited in time, or there is one getter at most. */
  lemma SafeGetters(threads: set<Thread>, timed: set<Thread>)
    requires timed <= threads
    ensures timed == {} || |threads| <= 1 <==>
            forall states, steps :: Run(states, steps) && GetsBy(steps, threads, timed) ==> GetsTimely(states, steps)
  {
    if timed == {} || |threads| <= 1 {
      forall states, steps | Run(states, steps) && GetsBy(steps, threads, timed) ensures GetsTimely(states, steps) {
        GetsOfFew(states, steps, threads, timed);
      }
    } else {
      hide Run, Timely, Whole;
      var b :| b in timed;
      var a := Another(threads, b);
      var states, steps := GetTimeoutLosesWakeUp(Medium, a, b, a + b + 1);
      assert GetsBy(steps, threads, timed);
      assert steps[3].GetTimeout?;
    }
  }

  lemma Another(threads: set<Thread>, b: Thread) returns (a: Thread)
    requires b in threads && |threads| > 1
    ensures a in threads && a != b
  {
    assert |threads - {b}| > 0;
    a :| a in threads - {b};
  }

  lemma GetsOfFew(states: seq<System>, steps: seq<Step>, threads: set<Thread>, timed: set<Thread>)
    requires Run(states, steps) && GetsBy(steps, threads, timed) && (timed == {} || |threads| <= 1)
    ensures GetsTimely(states, steps)
  {
    hide Run, Next, LaneOk, Used;
    RunLength(states, steps);
    forall i | 0 <= i < |steps| && steps[i].GetTimeout? ensures Whole(states[i]) && Timely(states[i], steps[i]) {
      assert GetBy(steps[i], threads, timed);
      OnlyThese(states, steps, i, Medium, threads, {}, timed, {});
      RunWithin(states, steps, i);
      if steps[i].thread in states[i].getters.signalled {
        Alone(states[i].getters, threads, steps[i].thread);
      }
    }
  }

  lemma RunLength(states: seq<System>, steps: seq<Step>)
    requires Run(states, steps)
    ensures |states| == |steps| + 1
  {
  }

  /**
   No run loses the wake-up of a putter of one queue exactly when none of them is limited in time, or there is only
   one.
   */
  lemma SafePutters(p: Priority, threads: set<Thread>, timed: set<Thread>)
    requires timed <= threads
    ensures timed == {} || |threads| <= 1 <==>
            forall states, steps :: Run(states, steps) && PutsBy(steps, p, threads, timed) ==>
              PutsTimely(states, steps, p)
  {
    if timed == {} || |threads| <= 1 {
      forall states, steps | Run(states, steps) && PutsBy(steps, p, threads, timed)
        ensures PutsTimely(states, steps, p)
      {
        PutsOfFew(states, steps, p, threads, timed);
      }
    } else {
      hide Run, Timely, Whole;
      var b :| b in timed;
      var a := Another(threads, b);
      var states, steps := PutTimeoutLosesWakeUp(p, a, b, a + b + 1);
      assert PutsBy(steps, p, threads, timed);
      assert steps[4].PutTimeout?;
    }
  }

  lemma PutsOfFew(states: seq<System>, steps: seq<Step>, p: Priority, threads: set<Thread>, timed: set<Thread>)
    requires Run(states, steps) && PutsBy(steps, p, threads, timed) && (timed == {} || |threads| <= 1)
    ensures PutsTimely(states, steps, p)
  {
    hide Run, Next, GettersOk, Used;
    RunLength(states, steps);
    forall i | 0 <= i < |steps| && steps[i].PutTimeout? && steps[i].priority == p
      ensures Whole(states[i]) && Timely(states[i], steps[i])
    {
      assert PutBy(steps[i], p, threads, timed);
      OnlyThese(states, steps, i, p, {}, threads, {}, timed);
      RunWithin(states, steps, i);
      assert LaneOkAt(states[i], p, Used(states, steps, i).put[p]);
      if steps[i].thread in states[i].putters[p].signalled {
        Alone(states[i].putters[p], threads, steps[i].thread);
      }
    }
  }
}
