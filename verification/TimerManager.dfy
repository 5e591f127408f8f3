/**
 The hierarchical timer wheel and its timers. The clock is read afresh wherever the program
 reads it and may have advanced by any amount. Callbacks are scripts of starts and stops that the
 environment chooses.
 */
module TimerManagement {
  import opened WheelArithmetic
  import opened NodeTiming
  import opened Rings
  import opened Sequences

  type uint32 = n: nat | n < TWO_TO_THE_32

  datatype Event = Started(timer: ThreadTimer) | Stopped(timer: ThreadTimer) | Called(timer: ThreadTimer)
  datatype Action =
    | Start(timer: ThreadTimer)
    | Stop(timer: ThreadTimer)
    | Create(interval: uint32, circle: bool, start: bool)
  datatype Status = WAITING | TIME_OUT | USER_CANCEL

  /** A timer is armed when the last thing that happened to it is a start. */
  ghost predicate Armed(log: seq<Event>, t: ThreadTimer) {
    |log| > 0 &&
    var last := log[|log| - 1];
    if last.timer == t then last.Started? else Armed(log[..|log| - 1], t)
  }

  /** Stop safety of a whole history: every callback hits a timer that was started and not stopped or called since. */
  ghost predicate CallsOnlyArmed(log: seq<Event>) {
    forall i :: 0 <= i < |log| && log[i].Called? ==> Armed(log[..i], log[i].timer)
  }

  lemma LogEvent(log: seq<Event>, e: Event)
    ensures CallsOnlyArmed(log) && (e.Called? ==> Armed(log, e.timer)) ==> CallsOnlyArmed(log + [e])
    ensures forall t :: Armed(log + [e], t) <==> if t == e.timer then e.Started? else Armed(log, t)
  {
    var log' := log + [e];
    assert log'[..|log|] == log;
    forall i | 0 <= i < |log| ensures log'[..i] == log[..i] {}
  }

  /** Nothing is armed in a history that does not mention it. */
  lemma {:induction false} NeverLogged(log: seq<Event>, t: ThreadTimer)
    requires forall e :: e in log ==> e.timer != t
    ensures !Armed(log, t)
  {
    if |log| > 0 {
      NeverLogged(log[..|log| - 1], t);
    }
  }

  /** What arms a timer is a start since the last stop or call of it. */
  lemma {:induction false} ArmedByStart(log: seq<Event>, i: nat, t: ThreadTimer) returns (k: nat)
    requires Armed(log, t) && i < |log| && log[i].timer == t && !log[i].Started?
    ensures i < k < |log| && log[k] == Started(t)
  {
    var last := |log| - 1;
    if log[last].timer == t {
      k := last;
    } else {
      k := ArmedByStart(log[..last], i, t);
    }
  }

  /**
   In a stop-safe history, a timer that has been stopped, or called, is not called again before it is started again.
   Ready timers that a callback of the same batch stops are no exception.
   */
  lemma CallNeedsStart(log: seq<Event>, i: nat, j: nat)
    requires CallsOnlyArmed(log) && i < j < |log| && log[j].Called?
    requires log[i].timer == log[j].timer && !log[i].Started?
    ensures exists k :: i < k < j && log[k] == Started(log[j].timer)
  {
    var k := ArmedByStart(log[..j], i, log[j].timer);
  }

  // ---------------------------------------------------------------- what callbacks put into the history

  /** One action: a start stops first; what makes a timer makes a new one, of no timer known before. */
  ghost predicate Acts(a: Action, events: seq<Event>, known: set<ThreadTimer>) {
    match a
    case Start(t) => events == [Stopped(t), Started(t)]
    case Stop(t) => events == [Stopped(t)]
    case Create(_, circle, start) =>
      if start then |events| == 2 && NewStart(events[0].timer, circle, events, known) else events == []
  }

  ghost predicate NewStart(t: ThreadTimer, circle: bool, events: seq<Event>, known: set<ThreadTimer>) {
    t !in known && t.circle == circle && events == [Stopped(t), Started(t)]
  }

  function Flat(blocks: seq<seq<Event>>): seq<Event> {
    if blocks == [] then [] else Flat(blocks[..|blocks| - 1]) + blocks[|blocks| - 1]
  }

  /** The actions of a callback, in order. */
  ghost predicate ActsAll(actions: seq<Action>, blocks: seq<seq<Event>>, known: set<ThreadTimer>) {
    |blocks| == |actions| && forall i :: 0 <= i < |actions| ==> Acts(actions[i], blocks[i], known)
  }

  /** One callback: the call, the restart of a circular timer, and what the callback does. */
  datatype Round = Round(node: TimerNode, blocks: seq<seq<Event>>)

  function Restarted(t: ThreadTimer): seq<Event> {
    if t.circle then [Stopped(t), Started(t)] else []
  }

  function RoundEvents(r: Round): seq<Event> {
    [Called(r.node.timer)] + Restarted(r.node.timer) + Flat(r.blocks)
  }

  function Rounds(rs: seq<Round>): seq<Event> {
    if rs == [] then [] else Rounds(rs[..|rs| - 1]) + RoundEvents(rs[|rs| - 1])
  }

  /** The actions of the k-th callback of a visit; none beyond the script. */
  function Scripted(script: seq<seq<Action>>, k: nat): seq<Action> {
    if k < |script| then script[k] else []
  }

  ghost predicate FollowsScript(script: seq<seq<Action>>, rs: seq<Round>, known: set<ThreadTimer>) {
    forall k :: 0 <= k < |rs| ==> ActsAll(Scripted(script, k), rs[k].blocks, known)
  }

  /** A start in a callback's part of the history is an action of it, or the restart of the timer it is for. */
  lemma {:induction false} StartedByAction(actions: seq<Action>, blocks: seq<seq<Event>>, known: set<ThreadTimer>,
                                           t: ThreadTimer)
    requires ActsAll(actions, blocks, known) && t in known && Started(t) in Flat(blocks)
    ensures Action.Start(t) in actions
    decreases |blocks|
  {
    var last := |blocks| - 1;
    if Started(t) in blocks[last] {
      assert Acts(actions[last], blocks[last], known);
      assert actions[last] in actions;
    } else {
      StartedByAction(actions[..last], blocks[..last], known, t);
    }
  }

  /** So in a visit a one-shot timer is started by the actions of callbacks only, and not because it was called. */
  lemma {:induction false} OneShotNotRestarted(script: seq<seq<Action>>, rs: seq<Round>, known: set<ThreadTimer>,
                                               t: ThreadTimer)
    returns (k: nat)
    requires FollowsScript(script, rs, known) && t in known && !t.circle && Started(t) in Rounds(rs)
    ensures k < |rs| && Action.Start(t) in Scripted(script, k)
    decreases |rs|
  {
    k := |rs| - 1;
    if Started(t) in RoundEvents(rs[k]) {
      StartedByAction(Scripted(script, k), rs[k].blocks, known, t);
    } else {
      k := OneShotNotRestarted(script, rs[..k], known, t);
    }
  }

  /** And a circular timer is started right after each of its calls. */
  lemma {:induction false} CircularRestarted(rs: seq<Round>, k: nat) returns (before: seq<Event>, after: seq<Event>)
    requires k < |rs| && rs[k].node.timer.circle
    ensures var t := rs[k].node.timer;
            Rounds(rs) == before + [Called(t), Stopped(t), Started(t)] + after && before == Rounds(rs[..k])
    decreases |rs|
  {
    hide Flat;
    var last := |rs| - 1;
    var t := rs[k].node.timer;
    if k == last {
      before, after := Rounds(rs[..k]), Flat(rs[k].blocks);
      assert RoundEvents(rs[k]) == [Called(t), Stopped(t), Started(t)] + after;
    } else {
      before, after := CircularRestarted(rs[..last], k);
      assert rs[..last][..k] == rs[..k];
      after := after + RoundEvents(rs[last]);
    }
  }

  lemma FlatMore(log: seq<Event>, blocks: seq<seq<Event>>, block: seq<Event>)
    ensures log + Flat(blocks + [block]) == log + Flat(blocks) + block
  {
    assert (blocks + [block])[..|blocks|] == blocks;
  }

  lemma RoundsMore(log: seq<Event>, rs: seq<Round>, r: Round)
    ensures log + Rounds(rs + [r]) == log + Rounds(rs) + RoundEvents(r)
  {
    assert (rs + [r])[..|rs|] == rs;
  }

  /** Every node hung on a spoke keeps its promise, the wheels having been advanced `turns` times. */
  ghost predicate Timed(base: nat, turns: seq<nat>, clock: nat, place: map<TimerNode, Place>,
                        track: map<TimerNode, Track>) {
    && |turns| == WHEEL_NUM
    && forall n :: n in place && place[n].Spoke? ==>
         && n in track && IsPlace(place[n]) && track[n].clock <= clock
         && OnTime(base, n.dead, track[n], place[n].level, Due(place[n].level, place[n].spoke, turns[place[n].level]))
  }

  /** A node becomes ready once, and punctually. */
  ghost predicate Expired(place: map<TimerNode, Place>, expiry: map<TimerNode, Expiry>) {
    && (forall n :: n in expiry ==> Punctual(n.dead, expiry[n]))
    && (forall n :: n in place ==> (n in expiry <==> place[n].Ready?))
  }

  lemma RemovalKeepsPromises(base: nat, turns: seq<nat>, clock: nat, place: map<TimerNode, Place>,
                             track: map<TimerNode, Track>, expiry: map<TimerNode, Expiry>, gone: set<TimerNode>)
    requires Timed(base, turns, clock, place, track) && Expired(place, expiry)
    ensures Timed(base, turns, clock, place - gone, track) && Expired(place - gone, expiry)
  {
  }

  lemma ExpiryKeepsPromises(base: nat, turns: seq<nat>, clock: nat, place: map<TimerNode, Place>,
                            track: map<TimerNode, Track>, expiry: map<TimerNode, Expiry>, n: TimerNode, e: Expiry)
    requires Timed(base, turns, clock, place, track) && Expired(place, expiry)
    requires n !in expiry && Punctual(n.dead, e)
    ensures Timed(base, turns, clock, place[n := Ready], track) && Expired(place[n := Ready], expiry[n := e])
  {
  }

  lemma PlacementKeepsPromises(base: nat, turns: seq<nat>, clock: nat, place: map<TimerNode, Place>,
                               track: map<TimerNode, Track>, expiry: map<TimerNode, Expiry>, n: TimerNode, p: Place,
                               record: Track)
    requires Timed(base, turns, clock, place, track) && Expired(place, expiry)
    requires n !in expiry && n !in place && p.Spoke? && IsPlace(p) && record.clock <= clock
    requires OnTime(base, n.dead, record, p.level, Due(p.level, p.spoke, turns[p.level]))
    ensures Timed(base, turns, clock, place[n := p], track[n := record]) && Expired(place[n := p], expiry)
  {
  }

  lemma ClockKeepsTimed(base: nat, turns: seq<nat>, clock: nat, clock': nat, place: map<TimerNode, Place>,
                        track: map<TimerNode, Track>)
    requires Timed(base, turns, clock, place, track) && clock <= clock'
    ensures Timed(base, turns, clock', place, track)
  {
  }

  /** Re-placement never moves a node to a higher wheel, and nothing leaves the ready list during a tick. */
  ghost predicate Descends(before: map<TimerNode, Place>, after: map<TimerNode, Place>) {
    && before.Keys == after.Keys
    && forall n :: n in before ==>
         && (before[n].Ready? ==> after[n].Ready?)
         && (before[n].Spoke? && after[n].Spoke? ==> after[n].level <= before[n].level)
  }

  /** What is known of the nodes taken off spoke `p` of wheel `level` at tick `ticks`, until they are hung up again. */
  ghost predicate InHand(base: nat, ticks: nat, clock: nat, level: Level, chain: seq<TimerNode>,
                         place: map<TimerNode, Place>, track: map<TimerNode, Track>, expiry: map<TimerNode, Expiry>)
  {
    && NoneTwice(chain)
    && forall n :: n in chain ==>
         && n !in place && n !in expiry && n in track && track[n].clock <= clock
         && OnTime(base, n.dead, track[n], level, ticks)
  }

  lemma TakeInHand(base: nat, ticks: nat, clock: nat, level: Level, n: TimerNode, rest: seq<TimerNode>,
                   place: map<TimerNode, Place>, track: map<TimerNode, Track>, expiry: map<TimerNode, Expiry>)
    requires InHand(base, ticks, clock, level, [n] + rest, place, track, expiry)
    ensures InHand(base, ticks, clock, level, [n], place, track, expiry)
    ensures InHand(base, ticks, clock, level, rest, place, track, expiry)
    ensures n !in rest && n !in place
  {
    var chain := [n] + rest;
    assert chain[1..] == rest && chain[0] == n;
    assert forall i :: 0 <= i < |rest| ==> rest[i] == chain[i + 1];
    assert n in chain && forall m :: m in rest ==> m in chain;
  }

  /** The other nodes in hand are not touched by hanging up `n`. */
  lemma StillInHand(base: nat, ticks: nat, clock: nat, level: Level, n: TimerNode, rest: seq<TimerNode>,
                    place: map<TimerNode, Place>, track: map<TimerNode, Track>, expiry: map<TimerNode, Expiry>,
                    place': map<TimerNode, Place>, track': map<TimerNode, Track>, expiry': map<TimerNode, Expiry>)
    requires InHand(base, ticks, clock, level, rest, place, track, expiry) && n !in rest
    requires place'.Keys <= place.Keys + {n} && expiry'.Keys <= expiry.Keys + {n}
    requires n in track' && track' == track[n := track'[n]]
    ensures InHand(base, ticks, clock, level, rest, place', track', expiry')
  {
  }

  /**
   The nodes of `chain` have been hung up again, ready exactly if overdue and never on a higher wheel; the others stay
   put.
   */
  ghost predicate Rehung(before: map<TimerNode, Place>, after: map<TimerNode, Place>, chain: seq<TimerNode>, level: nat,
                         now: nat) {
    && after.Keys == before.Keys + Elements(chain)
    && (forall n :: n in before ==> n in after && after[n] == before[n])
    && (forall n :: n in chain ==> n in after
                                   && (after[n].Ready? <==> n.dead <= now)
                                   && (after[n].Spoke? ==> after[n].level <= level))
  }

  lemma NothingRehung(place: map<TimerNode, Place>, level: nat, now: nat)
    ensures Rehung(place, place, [], level, now)
  {
  }

  lemma OneMoreRehung(before: map<TimerNode, Place>, middle: map<TimerNode, Place>, after: map<TimerNode, Place>,
                      chain: seq<TimerNode>, level: nat, now: nat, n: TimerNode)
    requires Rehung(before, middle, chain, level, now)
    requires n !in middle && n in after && after == middle[n := after[n]]
    requires after[n].Ready? <==> n.dead <= now
    requires after[n].Spoke? ==> after[n].level <= level
    ensures Rehung(before, after, chain + [n], level, now)
  {
    assert Elements(chain + [n]) == Elements(chain) + {n};
    forall m | m in before || m in chain
      ensures m in middle && m != n
    {
      if m in chain {
        assert m in Elements(chain);
      }
    }
  }

  /** Detaching the spoke under a wheel's index and stepping the wheel leaves the promises of all other nodes intact. */
  lemma DetachSpoke(base: nat, ticks: nat, turns: seq<nat>, clock: nat, rings: RingMap<TimerNode>,
                    place: map<TimerNode, Place>, track: map<TimerNode, Track>, expiry: map<TimerNode, Expiry>,
                    level: Level)
    requires RingsOk(rings, place) && Timed(base, turns, clock, place, track) && Expired(place, expiry)
    requires Weight(level) * (turns[level] + 1) == ticks
    ensures var p := Spoke(level, turns[level] % Size(level));
            var place' := place - Elements(rings[p]);
            && RingsOk(rings[p := []], place')
            && Timed(base, turns[level := turns[level] + 1], clock, place', track)
            && Expired(place', expiry)
            && InHand(base, ticks, clock, level, rings[p], place', track, expiry)
            && (forall n :: n in rings[p] ==> n in place && place[n] == p)
  {
    hide OnTime;
    var p := Spoke(level, turns[level] % Size(level));
    DetachKeepsRings(rings, place, p);
    var place' := place - Elements(rings[p]);
    RemovalKeepsPromises(base, turns, clock, place, track, expiry, Elements(rings[p]));
    AdvanceKeepsTimed(base, turns, clock, place', track, level);
    forall n | n in rings[p]
      ensures n !in expiry && n in track && track[n].clock <= clock && OnTime(base, n.dead, track[n], level, ticks)
    {
      CurrentSpokeIsDue(base, turns, clock, place, track, level, n);
    }
  }

  lemma RehungDescends(before: map<TimerNode, Place>, after: map<TimerNode, Place>, chain: seq<TimerNode>, level: nat,
                       spoke: nat, now: nat)
    requires forall n :: n in chain ==> n in before && before[n] == Spoke(level, spoke)
    requires Rehung(before - Elements(chain), after, chain, level, now)
    ensures Descends(before, after)
  {
    forall n | n in before
      ensures n in after && (n !in chain ==> after[n] == before[n])
    {
      assert n !in chain ==> n in before - Elements(chain);
    }
    assert after.Keys == before.Keys;
  }

  /** The wheels below `done` have been advanced in tick `ticks`, the others not yet; every index shows its digit. */
  ghost predicate Advanced(index: seq<nat>, turns: seq<nat>, ticks: nat, done: nat) {
    && |index| == |turns| == WHEEL_NUM
    && forall l: Level :: turns[l] == Turns(ticks, l, done) && index[l] == turns[l] % Size(l)
  }

  /** After a step that does not carry, all wheels are as advanced as they will be in this tick. */
  lemma StopsCarrying(index: seq<nat>, turns: seq<nat>, ticks: nat, done: nat)
    requires done <= WHEEL_NUM && ticks > 0 && Advanced(index, turns, ticks, done)
    requires done < WHEEL_NUM ==> ticks % Weight(done) != 0
    ensures Advanced(index, turns, ticks, WHEEL_NUM)
  {
    forall l: Level ensures Turns(ticks, l, done) == Turns(ticks, l, WHEEL_NUM) {
      if done <= l {
        NoCarry(ticks, done, l);
      }
    }
  }

  /** One wheel's step, before its index is wrapped. */
  lemma StepWheel(index: seq<nat>, turns: seq<nat>, ticks: nat, level: Level)
    requires ticks > 0 && ticks % Weight(level) == 0 && Advanced(index, turns, ticks, level)
    ensures var turns' := turns[level := turns[level] + 1];
            var index' := index[level := index[level] + 1];
            && Weight(level) * turns'[level] == ticks
            && (forall l: Level :: l <= level ==> turns'[l] == ticks / Weight(l) && IndexShows(index', l, ticks))
            && (index'[level] < Size(level) ==> Advanced(index', turns', ticks, WHEEL_NUM))
            && (index'[level] >= Size(level) ==> ticks % Weight(level + 1) == 0
                                                 && Advanced(index'[level := 0], turns', ticks, level + 1))
  {
    var turns' := turns[level := turns[level] + 1];
    var index' := index[level := index[level] + 1];
    Carry(ticks, level);
    NextDigit(turns[level], Size(level));
    StepShows(index, turns, ticks, level);
    if index'[level] < Size(level) {
      StepAdvances(index, turns, ticks, level, index'[level]);
      StopsCarrying(index', turns', ticks, level + 1);
    } else {
      StepAdvances(index, turns, ticks, level, 0);
      assert index[level := 0] == index'[level := 0];
    }
  }

  lemma StepAdvances(index: seq<nat>, turns: seq<nat>, ticks: nat, level: Level, digit: nat)
    requires ticks > 0 && Advanced(index, turns, ticks, level)
    requires Turns(ticks, level, level + 1) == turns[level] + 1 && digit == (turns[level] + 1) % Size(level)
    ensures Advanced(index[level := digit], turns[level := turns[level] + 1], ticks, level + 1)
  {
    hide Weight, Size;
  }

  lemma StepShows(index: seq<nat>, turns: seq<nat>, ticks: nat, level: Level)
    requires ticks > 0 && ticks % Weight(level) == 0 && Advanced(index, turns, ticks, level)
    requires Turns(ticks, level, level + 1) == turns[level] + 1
    requires (turns[level] + 1) % Size(level) == if index[level] + 1 < Size(level) then index[level] + 1 else 0
    ensures var turns' := turns[level := turns[level] + 1];
            var index' := index[level := index[level] + 1];
            && Weight(level) * turns'[level] == ticks
            && (forall l: Level :: l <= level ==> turns'[l] == ticks / Weight(l) && IndexShows(index', l, ticks))
  {
    hide Weight, Size;
    WholeSteps(ticks, Weight(level));
    var index' := index[level := index[level] + 1];
    forall l: Level | l <= level
      ensures IndexShows(index', l, ticks)
    {
      assert index[l] == turns[l] % Size(l);
      DigitOfDigit(turns[l], Size(l));
    }
  }

  lemma WholeSteps(ticks: nat, w: nat)
    requires w > 0 && ticks % w == 0
    ensures ticks == w * (ticks / w)
  {
  }

  lemma DigitOfDigit(turns: nat, size: nat)
    requires size == WHEEL_SIZE1 || size == WHEEL_SIZE2
    ensures turns % size < size && turns % size % size == turns % size
    ensures size % size == 0
    ensures turns % size + 1 < size ==> (turns % size + 1) % size == turns % size + 1
  {
    if size == WHEEL_SIZE1 {
      assert turns % 256 % 256 == turns % 256;
    } else {
      assert turns % 64 % 64 == turns % 64;
    }
  }

  lemma AdvancedSizes(index: seq<nat>, turns: seq<nat>, ticks: nat, done: nat)
    requires Advanced(index, turns, ticks, done)
    ensures |index| == |turns| == WHEEL_NUM
    ensures forall l: Level :: turns[l] == Turns(ticks, l, done) && index[l] == turns[l] % Size(l)
  {
  }

  lemma SettledShows(index: seq<nat>, turns: seq<nat>, ticks: nat, level: Level)
    requires Advanced(index, turns, ticks, WHEEL_NUM)
    ensures |index| == |turns| == WHEEL_NUM
    ensures turns[level] == ticks / Weight(level) && IndexShows(index, level, ticks)
  {
    hide Weight;
    assert turns[level] == Turns(ticks, level, WHEEL_NUM);
    DigitOfDigit(turns[level], Size(level));
  }

  lemma NextTick(index: seq<nat>, turns: seq<nat>, ticks: nat)
    requires Advanced(index, turns, ticks, WHEEL_NUM)
    ensures Advanced(index, turns, ticks + 1, 0)
  {
  }

  lemma SpokeIsEmpty(rings: RingMap<TimerNode>, place: map<TimerNode, Place>, p: Place)
    requires RingsOk(rings, place) && p in rings && rings[p] == []
    ensures forall n :: n in place ==> place[n] != p
  {
  }

  lemma ReadyDescends(place: map<TimerNode, Place>, n: TimerNode)
    requires n in place
    ensures Descends(place, (place - {n})[n := Ready])
  {
  }

  lemma DescendsInPlace(place: map<TimerNode, Place>)
    ensures Descends(place, place)
  {
  }

  lemma DescendsKeepsNodes(before: map<TimerNode, Place>, after: map<TimerNode, Place>)
    requires Descends(before, after)
    ensures before.Keys == after.Keys
  {
  }

  /** How many ticks are owed, cut to 32 bits. */
  function Loops(checktime: nat, now: nat): nat {
    if now > checktime then (now - checktime) / GRANULARITY % TWO_TO_THE_32 else 0
  }

  lemma CatchesUp(checktime: nat, now: nat)
    ensures checktime + Loops(checktime, now) * GRANULARITY <= if now > checktime then now else checktime
    ensures now - checktime < GRANULARITY * TWO_TO_THE_32 ==>
              now < checktime + Loops(checktime, now) * GRANULARITY + GRANULARITY
  {
  }

  /** Some visit made before the deadline comes as far as the tick `due`. */
  ghost predicate CalledEarly(checktime: nat, ticks: nat, due: nat, clock: nat, dead: nat) {
    exists now :: clock <= now < dead && due <= ticks + Loops(checktime, now)
  }

  /**
   The lag cannot be left out: a timer hung on wheel 0 can be called with the clock before its deadline exactly if wheel
   time was, when it was hung up, further behind than what the interval lacks to the next granule.
   */
  lemma EarlyCallExact(base: nat, ticks: nat, index: seq<nat>, clock: nat, milliseconds: nat)
    requires WheelTime(base, ticks) <= clock && IndexShows(index, 0, ticks)
    requires WheelFor(milliseconds / GRANULARITY) == 0
    requires clock + milliseconds - WheelTime(base, ticks) < GRANULARITY * TWO_TO_THE_32
    ensures var due := DueOfPlacement(milliseconds, index, ticks);
            CalledEarly(WheelTime(base, ticks), ticks, due, clock, clock + milliseconds) <==>
              milliseconds > 0 && clock - WheelTime(base, ticks) > GRANULARITY - milliseconds % GRANULARITY
  {
    var checktime, dead := WheelTime(base, ticks), clock + milliseconds;
    var due := DueOfPlacement(milliseconds, index, ticks);
    PlacementFallsDueInTime(milliseconds / GRANULARITY, index, ticks);
    assert due == ticks + milliseconds / GRANULARITY + 1;
    if milliseconds > 0 && clock - checktime > GRANULARITY - milliseconds % GRANULARITY {
      var now := if WheelTime(base, due) < clock then clock else WheelTime(base, due);
      LoopsReach(checktime, now, due - ticks);
      assert clock <= now < dead && due <= ticks + Loops(checktime, now);
    }
    if now :| clock <= now < dead && due <= ticks + Loops(checktime, now) {
      CatchesUp(checktime, now);
    }
  }

  lemma LoopsReach(checktime: nat, now: nat, n: nat)
    requires checktime + GRANULARITY * n <= now < checktime + GRANULARITY * TWO_TO_THE_32
    ensures n <= Loops(checktime, now)
  {
  }

  /** For instance: started when the wheel is ten seconds behind, an interval of 20 milliseconds is over after 5. */
  lemma StartedWhileLagging()
    ensures var index := [0, 0, 0, 0, 0];
            && IndexShows(index, 0, 0) && WheelFor(20 / GRANULARITY) == 0
            && DueOfPlacement(20, index, 0) <= Loops(WheelTime(0, 0), 10_000) && 10_000 < 9_995 + 20
  {
  }

  lemma DescendsFurther(before: map<TimerNode, Place>, middle: map<TimerNode, Place>, after: map<TimerNode, Place>)
    requires Descends(before, middle) && Descends(middle, after)
    ensures Descends(before, after)
  {
  }

  lemma NextDigit(turns: nat, size: nat)
    requires size == WHEEL_SIZE1 || size == WHEEL_SIZE2
    ensures (turns + 1) % size == if turns % size + 1 < size then turns % size + 1 else 0
  {
    if size == WHEEL_SIZE1 {
      NextDigit256(turns);
    } else {
      NextDigit64(turns);
    }
  }

  lemma NextDigit256(turns: nat)
    ensures (turns + 1) % 256 == if turns % 256 + 1 < 256 then turns % 256 + 1 else 0
  {
    assert turns == 256 * (turns / 256) + turns % 256;
  }

  lemma NextDigit64(turns: nat)
    ensures (turns + 1) % 64 == if turns % 64 + 1 < 64 then turns % 64 + 1 else 0
  {
    assert turns == 64 * (turns / 64) + turns % 64;
  }

  /** An emptied spoke may be stepped over. */
  lemma AdvanceKeepsTimed(base: nat, turns: seq<nat>, clock: nat, place: map<TimerNode, Place>,
                          track: map<TimerNode, Track>, level: Level)
    requires Timed(base, turns, clock, place, track)
    requires forall n :: n in place ==> place[n] != Spoke(level, turns[level] % Size(level))
    ensures Timed(base, turns[level := turns[level] + 1], clock, place, track)
  {
    forall n | n in place && place[n].Spoke? && place[n].level == level
      ensures Due(level, place[n].spoke, turns[level] + 1) == Due(level, place[n].spoke, turns[level])
    {
      StepEmptiesOneSpoke(level, place[n].spoke, turns[level]);
    }
  }

  /** A node under its wheel's index is due when that wheel next steps. */
  lemma CurrentSpokeIsDue(base: nat, turns: seq<nat>, clock: nat, place: map<TimerNode, Place>,
                          track: map<TimerNode, Track>, level: Level, n: TimerNode)
    requires Timed(base, turns, clock, place, track)
    requires n in place && place[n] == Spoke(level, turns[level] % Size(level))
    ensures n in track && track[n].clock <= clock
    ensures OnTime(base, n.dead, track[n], level, Weight(level) * (turns[level] + 1))
  {
    StepEmptiesOneSpoke(level, place[n].spoke, turns[level]);
  }

  lemma NotYetExpired(place: map<TimerNode, Place>, expiry: map<TimerNode, Expiry>, n: TimerNode)
    requires Expired(place, expiry) && n in place
    ensures n in expiry <==> place[n].Ready?
  {
  }

  class TimerNode {
    const dead: nat
    const timer: ThreadTimer

    constructor (timer: ThreadTimer, dead: nat)
      ensures this.timer == timer && this.dead == dead
    {
      this.timer, this.dead := timer, dead;
    }
  }

  class TimerManager {
    var checktime: nat
    var index: seq<nat>
    var rings: RingMap<TimerNode>
    var place: map<TimerNode, Place>
    var clock: nat
    ghost var base: nat
    ghost var ticks: nat
    ghost var turns: seq<nat>
    ghost var track: map<TimerNode, Track>
    ghost var expiry: map<TimerNode, Expiry>
    ghost var timers: set<ThreadTimer>
    ghost var created: set<TimerNode>
    ghost var called: set<TimerNode>
    ghost var removed: set<TimerNode>
    /** The ready node whose timer is being called back. */
    ghost var calling: TimerNode?
    ghost var log: seq<Event>

    /** The rings are sound and every node keeps its promise. */
    ghost predicate Hung()
      reads this
    {
      RingsOk(rings, place) && Timed(base, turns, clock, place, track) && Expired(place, expiry)
    }

    /** In a tick in which the wheels below `done` have been advanced. */
    ghost predicate MidTick(done: nat)
      reads this
    {
      ticks > 0 && checktime + GRANULARITY == WheelTime(base, ticks) <= clock && Advanced(index, turns, ticks, done)
    }

    /** Between ticks the spoke indices are the mixed-radix digits of the number of ticks. */
    ghost predicate Settled()
      reads this
    {
      checktime == WheelTime(base, ticks) <= clock && Advanced(index, turns, ticks, WHEEL_NUM)
    }

    /** Every node ever created is pending in a ring, called back, or removed: exactly one of these. */
    ghost predicate Accounted()
      reads this
    {
      && created == place.Keys + called + removed
      && place.Keys !! called && place.Keys !! removed && called !! removed
      && called <= expiry.Keys
    }

    /** A timer's node pointer is set exactly while its node is pending, the node being called back excepted. */
    ghost predicate Linked()
      reads this, timers
    {
      && (forall t :: t in timers ==> t.owner == this)
      && (forall n :: n in place && n != calling ==> n.timer in timers && n.timer.node == n)
      && (forall t :: t in timers && t.node != null ==>
            t.node in place && t.node != calling && t.node.timer == t && t.status == TIME_OUT)
    }

    /** The timers with a node are the armed ones, and the history is stop safe. */
    ghost predicate Logged()
      reads this, timers
    {
      (forall t :: t in timers ==> (t.node != null <==> Armed(log, t))) && CallsOnlyArmed(log)
    }

    ghost predicate Owned()
      reads this, timers
    {
      Linked() && Logged()
    }

    twostate predicate OnlyTouches(t: ThreadTimer)
      reads this, timers
    {
      && timers == old(timers)
      && forall u :: u in timers && u != t ==> u.node == old(u.node) && u.status == old(u.status)
    }

    lemma NodeIsPending(t: ThreadTimer)
      requires Linked() && t in timers && t.node != null
      ensures t.node in place && t.node != calling && t.node.timer == t && t.status == TIME_OUT
    {
    }

    /**
     What actions of callbacks can do: the history and the set of nodes grow, the clock advances, the ready list
     shrinks.
     */
    twostate predicate Grows()
      reads this, timers
    {
      && old(timers) <= timers && fresh(timers - old(timers)) && called == old(called) && clock >= old(clock)
      && Ready in rings && Ready in old(rings) && |rings[Ready]| <= |old(rings)[Ready]|
      && old(created) <= created && old(removed) <= removed && old(log) <= log
    }

    twostate lemma GrowsInPlace()
      requires Valid() && unchanged(this)
      ensures Grows()
    {
    }

    lemma OwnerOf(t: ThreadTimer)
      requires Valid() && t in timers
      ensures t.owner == this
    {
    }

    method FirstReady() returns (n: TimerNode)
      requires Valid() && calling == null && rings[Ready] != []
      ensures n == rings[Ready][0] && n in place && place[n] == Ready
      ensures n.timer in timers && n.timer.node == n && n.timer.owner == this
    {
      n := rings[Ready][0];
      assert n in rings[Ready];
    }

    lemma NotYetCreated()
      requires Accounted()
      ensures place.Keys <= created
    {
    }

    twostate lemma CreateKeepsAccounted(new n: TimerNode)
      requires old(Accounted()) && n !in old(created)
      requires place.Keys == old(place.Keys) + {n} && created == old(created) + {n}
      requires called == old(called) && removed == old(removed) && expiry == old(expiry)
      ensures Accounted()
    {
    }

    /** One tick moves nodes between rings but neither creates, deletes nor calls anything. */
    method Turn()
      requires Hung() && Settled() && Accounted() && Owned() && calling == null && checktime + GRANULARITY <= clock
      modifies this`rings, this`place, this`track, this`expiry, this`index, this`turns, this`clock, this`checktime,
        this`ticks
      ensures Hung() && Settled() && Accounted() && Owned() && Ready in rings
      ensures clock >= old(clock) && checktime == old(checktime) + GRANULARITY
    {
      hide Hung, Settled;
      Tick();
      DescendsKeepsNodes(old(place), place);
    }

    lemma NothingOverdue()
      requires Valid()
      ensures forall n :: n in place && place[n].Spoke? ==> n in track && checktime <= n.dead - track[n].lag <= n.dead
      ensures forall n :: n in called ==> n in expiry && Punctual(n.dead, expiry[n])
      ensures rings[Ready] == [] ==> forall n :: n in place ==> place[n].Spoke?
    {
      forall n | n in place && place[n].Spoke?
        ensures n in track && checktime <= n.dead - track[n].lag <= n.dead
      {
        assert turns[place[n].level] == ticks / Weight(place[n].level);
        StillHungNotOverdue(base, ticks, n.dead, track[n], place[n].level, place[n].spoke);
      }
    }

    lemma AllAccounted()
      requires Accounted()
      ensures forall n :: n in created ==> n in place || n in called || n in removed
    {
    }

    twostate lemma SameLog()
      requires old(Logged()) && timers == old(timers) && log == old(log)
      requires forall t :: t in timers ==> t.node == old(t.node)
      ensures Logged()
    {
    }

    method Perform(action: Action) returns (ghost block: seq<Event>)
      requires Valid() && (action.Create? || action.timer in timers)
      modifies timers, this`timers, this`rings, this`place, this`removed, this`log, this`track, this`clock, this`created
      ensures Valid() && Grows() && log == old(log) + block && Acts(action, block, old(timers))
      ensures action.Create? && action.start ==> Runs(block[0].timer, action.interval)
    {
      hide Valid;
      match action {
        case Start(timer) =>
          OwnerOf(timer);
          var ok := timer.Start();
          block := [Stopped(timer), Started(timer)];
        case Stop(timer) =>
          OwnerOf(timer);
          timer.Stop();
          block := [Stopped(timer)];
        case Create(interval, circle, start) => block := MakeTimer(interval, circle, start);
      }
    }

    /** A timer just started, with this interval. */
    ghost predicate Runs(t: ThreadTimer, interval: nat)
      reads this, t
    {
      t.interval == interval && t.node != null && t.node.dead == clock + interval
    }

    /** A callback makes another timer, and may start it. */
    method MakeTimer(interval: uint32, circle: bool, start: bool) returns (ghost block: seq<Event>)
      requires Valid()
      modifies this`timers, this`rings, this`place, this`removed, this`log, this`track, this`clock, this`created
      ensures Valid() && Grows() && log == old(log) + block && Acts(Create(interval, circle, start), block, old(timers))
      ensures start ==> Runs(block[0].timer, interval)
    {
      hide Valid;
      ReadyIsRing();
      var timer := new ThreadTimer(this, interval, circle);
      block := [];
      if start {
        var ok := timer.Start();
        block := [Stopped(timer), Started(timer)];
      }
    }

    lemma ReadyIsRing()
      requires Valid()
      ensures Ready in rings
    {
    }

    twostate lemma CallKeepsLinked(t: ThreadTimer)
      requires old(Linked()) && t in timers && OnlyTouches(t) && place == old(place)
      requires old(calling) == null && old(t.node) != null && calling == old(t.node) && t.node == null
      ensures Linked()
    {
    }

    /** Deleting the node that has been called back. */
    twostate lemma DeleteKeepsLinked()
      requires old(Linked()) && timers == old(timers) && old(calling) != null && calling == null
      requires place == old(place) - {old(calling)}
      requires forall t :: t in timers ==> t.node == old(t.node) && t.status == old(t.status)
      ensures Linked()
    {
    }

    twostate lemma UnlinkKeepsLinked(t: ThreadTimer)
      requires old(Linked()) && t in timers && OnlyTouches(t) && calling == old(calling)
      requires t.node == null
      requires place == if old(t.node) == null then old(place) else old(place) - {old(t.node)}
      ensures Linked()
    {
    }

    twostate lemma LinkKeepsLinked(t: ThreadTimer)
      requires old(Linked()) && t in timers && OnlyTouches(t) && calling == old(calling)
      requires old(t.node) == null && t.node != null && t.node !in old(place) && t.node != calling
      requires t.status == TIME_OUT && t.node.timer == t
      requires t.node in place && place == old(place)[t.node := place[t.node]]
      ensures Linked()
    {
    }

    twostate lemma LogKeepsLogged(e: Event)
      requires old(Logged()) && e.timer in timers && OnlyTouches(e.timer)
      requires log == old(log) + [e]
      requires e.timer.node != null <==> e.Started?
      requires e.Called? ==> old(e.timer.node) != null
      ensures Logged()
    {
      LogEvent(old(log), e);
    }

    /** One more event in the history, which the rings know nothing of. */
    ghost method Record(e: Event)
      requires Hung() && Settled() && Accounted()
      modifies this`log
      ensures Hung() && Settled() && Accounted() && log == old(log) + [e]
    {
      log := log + [e];
    }

    ghost predicate Valid()
      reads this, timers
    {
      && Hung() && Settled() && Accounted() && Owned() && Ready in rings
      && (calling != null ==>
          calling in place && place[calling] == Ready && rings[Ready] != [] && rings[Ready][0] == calling)
    }

    constructor ()
      ensures Valid() && fresh(this) && calling == null && ticks == 0 && created == {} && timers == {}
      ensures base == checktime
    {
      var start: nat :| true;
      checktime, clock, base, ticks := start, start, start, 0;
      index, turns := [0, 0, 0, 0, 0], [0, 0, 0, 0, 0];
      rings := map p: Place | p in AllPlaces() :: [];
      place, track, expiry := map[], map[], map[];
      timers, created, called, removed := {}, {}, {}, {};
      calling, log := null, [];
    }

    method GetCurrentMillisec() returns (now: nat)
      modifies this`clock
      ensures now == clock >= old(clock)
    {
      now :| now >= clock;
      clock := now;
    }

    method AddToReadyNode(node: TimerNode, ghost e: Expiry)
      requires Hung() && node !in place && node !in expiry && Punctual(node.dead, e)
      modifies this`rings, this`place, this`expiry
      ensures Hung() && rings.Keys == old(rings.Keys) && Ready in rings
      ensures place == old(place)[node := Ready] && expiry == old(expiry)[node := e]
      ensures rings == old(rings)[Ready := old(rings)[Ready] + [node]]
    {
      hide RingsOk, Timed, Expired;
      RingsTotal(rings, place);
      AppendKeepsRings(rings, place, Ready, node);
      ExpiryKeepsPromises(base, turns, clock, place, track, expiry, node, e);
      rings := rings[Ready := rings[Ready] + [node]];
      place := place[node := Ready];
      expiry := expiry[node := e];
    }

    method AddTimerNode(milliseconds: nat, node: TimerNode, ghost record: Track)
      requires Hung() && node !in place && node !in expiry
      requires |index| == |turns| == WHEEL_NUM
      requires var l := WheelFor(milliseconds / GRANULARITY);
               turns[l] == ticks / Weight(l) && record.clock <= clock
               && OnTime(base, node.dead, record, l, DueOfPlacement(milliseconds, index, ticks))
      modifies this`rings, this`place, this`track
      ensures Hung() && rings.Keys == old(rings.Keys)
      ensures Ready in rings && rings[Ready] == old(rings)[Ready]
      ensures var p := Spoke(WheelFor(milliseconds / GRANULARITY), SpokeFor(milliseconds / GRANULARITY, index));
              place == old(place)[node := p] && rings == old(rings)[p := old(rings)[p] + [node]]
      ensures track == old(track)[node := record]
    {
      var interval := milliseconds / GRANULARITY;
      var spoke := Spoke(WheelFor(interval), SpokeFor(interval, index));
      hide RingsOk, Timed, Expired;
      RingsTotal(rings, place);
      AppendKeepsRings(rings, place, spoke, node);
      PlacementKeepsPromises(base, turns, clock, place, track, expiry, node, spoke, record);
      rings := rings[spoke := rings[spoke] + [node]];
      place := place[node := spoke];
      track := track[node := record];
    }

    /** Takes the first node off a ring. */
    method UnlinkFirst(p: Place) returns (node: TimerNode)
      requires Hung() && IsPlace(p)
      requires p in rings && rings[p] != []
      modifies this`rings, this`place
      ensures Hung()
      ensures node == old(rings)[p][0] && node in old(place) && old(place)[node] == p
      ensures rings == old(rings)[p := old(rings)[p][1..]] && place == old(place) - {node}
    {
      hide Timed, Expired;
      node := rings[p][0];
      PopKeepsRings(rings, place, p);
      RemovalKeepsPromises(base, turns, clock, place, track, expiry, {node});
      rings := rings[p := rings[p][1..]];
      place := place - {node};
    }

    /** Moves the first node of wheel 0's current spoke to the end of the ready list. */
    method HarvestFirst(spoke: Place)
      requires Hung() && Settled() && checktime + GRANULARITY <= clock
      requires |index| == |turns| == WHEEL_NUM && spoke == Spoke(0, index[0]) && IsPlace(spoke)
      requires spoke in rings && rings[spoke] != [] && Ready in rings
      modifies this`rings, this`place, this`expiry
      ensures Hung() && Descends(old(place), place) && old(expiry).Keys <= expiry.Keys
      ensures rings == old(rings)[spoke := old(rings)[spoke][1..]][Ready := old(rings)[Ready] + [old(rings)[spoke][0]]]
    {
      hide RingsOk, Timed, Expired, Descends, Punctual, OnTime;
      ghost var before := place;
      var node := UnlinkFirst(spoke);
      CurrentSpokeIsDue(base, turns, clock, before, track, 0, node);
      HarvestedNodePunctual(base, ticks + 1, clock, node.dead, track[node]);
      NotYetExpired(before, expiry, node);
      AddToReadyNode(node, Expiry(WheelTime(base, ticks + 1), false, clock, track[node]));
      ReadyDescends(before, node);
    }

    /** Moves the nodes of wheel 0's current spoke, in order, to the end of the ready list. */
    method HarvestSpoke()
      requires Hung() && Settled() && checktime + GRANULARITY <= clock
      modifies this`rings, this`place, this`expiry
      ensures Hung() && Descends(old(place), place) && old(expiry).Keys <= expiry.Keys
      ensures rings.Keys == old(rings.Keys) && Spoke(0, index[0]) in rings && Ready in rings
      ensures var p := Spoke(0, index[0]);
              rings == old(rings)[p := []][Ready := old(rings)[Ready] + old(rings)[p]]
    {
      hide RingsOk, Timed, Expired, Descends;
      RingsTotal(rings, place);
      AdvancedSizes(index, turns, ticks, WHEEL_NUM);
      DescendsInPlace(place);
      var spoke := Spoke(0, index[0]);
      ghost var harvest := rings[spoke];
      ghost var i := 0;
      while rings[spoke] != []
        invariant Hung() && Descends(old(place), place) && old(expiry).Keys <= expiry.Keys
        invariant rings.Keys == old(rings.Keys)
        invariant i <= |harvest| && rings[spoke] == harvest[i..] && rings[Ready] == old(rings)[Ready] + harvest[..i]
        invariant forall p :: p in rings && p != spoke && p != Ready ==> rings[p] == old(rings)[p]
        decreases |rings[spoke]|
      {
        ghost var before := place;
        HarvestFirst(spoke);
        DescendsFurther(old(place), before, place);
        assert harvest[..i + 1] == harvest[..i] + [harvest[i]];
        i := i + 1;
      }
      assert harvest[..i] == harvest;
    }

    /** Hangs up again one node taken off a higher wheel's spoke, or readies it if it is already due. */
    method RehangOne(level: nat, node: TimerNode, now: nat) returns (moved: nat)
      requires 1 <= level < WHEEL_NUM && ticks % Weight(level) == 0
      requires Hung() && WheelTime(base, ticks) <= now == clock
      requires |index| == |turns| == WHEEL_NUM
      requires forall l: Level :: l <= level ==> turns[l] == ticks / Weight(l) && IndexShows(index, l, ticks)
      requires Ready in rings && InHand(base, ticks, clock, level, [node], place, track, expiry)
      modifies this`rings, this`place, this`track, this`expiry
      ensures Hung() && Ready in rings && old(rings)[Ready] <= rings[Ready] && old(expiry).Keys <= expiry.Keys
      ensures node in place && place == old(place)[node := place[node]]
      ensures place[node].Ready? <==> node.dead <= now
      ensures place[node].Spoke? ==> place[node].level <= level
      ensures node in track && track == old(track)[node := track[node]]
      ensures expiry.Keys <= old(expiry).Keys + {node}
      ensures moved == if node.dead <= now then 0 else 1
    {
      hide RingsOk, Timed, Expired, Punctual, IndexShows;
      assert node == [node][0];
      if node.dead <= now {
        OverdueNodePunctual(base, ticks, now, node.dead, track[node], level);
        AddToReadyNode(node, Expiry(WheelTime(base, ticks), true, now, Hopped(track[node], level)));
        moved := 0;
      } else {
        NeverClimbs(now, node.dead, track[node], level);
        CascadedNodeOnTime(base, ticks, index, now, node.dead, track[node], level);
        AddTimerNode(Wrap32(node.dead - now), node, Placed(Hopped(track[node], level), base, ticks, now));
        moved := 1;
      }
    }

    /** Hangs up again, in order, the nodes taken off a higher wheel's spoke. */
    method Rehang(level: nat, chain: seq<TimerNode>, now: nat) returns (casnum: nat)
      requires 1 <= level < WHEEL_NUM && ticks % Weight(level) == 0
      requires Hung() && WheelTime(base, ticks) <= now == clock
      requires |index| == |turns| == WHEEL_NUM
      requires forall l: Level :: l <= level ==> turns[l] == ticks / Weight(l) && IndexShows(index, l, ticks)
      requires Ready in rings && InHand(base, ticks, clock, level, chain, place, track, expiry)
      modifies this`rings, this`place, this`track, this`expiry
      ensures Hung() && Ready in rings && old(rings)[Ready] <= rings[Ready] && old(expiry).Keys <= expiry.Keys
      ensures Rehung(old(place), place, chain, level, now)
    {
      hide RingsOk, Timed, Expired, IndexShows, InHand, Rehung;
      casnum := 0;
      NothingRehung(place, level, now);
      assert chain[0..] == chain && chain[..0] == [];
      var i := 0;
      while i < |chain|
        invariant 0 <= i <= |chain|
        invariant Hung() && Ready in rings && old(rings)[Ready] <= rings[Ready] && old(expiry).Keys <= expiry.Keys
        invariant InHand(base, ticks, clock, level, chain[i..], place, track, expiry)
        invariant Rehung(old(place), place, chain[..i], level, now)
      {
        var node := chain[i];
        ghost var place0, track0, expiry0 := place, track, expiry;
        assert chain[i..] == [node] + chain[i + 1..];
        TakeInHand(base, ticks, clock, level, node, chain[i + 1..], place0, track0, expiry0);
        var moved := RehangOne(level, node, now);
        StillInHand(base, ticks, clock, level, node, chain[i + 1..], place0, track0, expiry0, place, track, expiry);
        OneMoreRehung(old(place), place0, place, chain[..i], level, now, node);
        assert chain[..i + 1] == chain[..i] + [node];
        casnum := casnum + moved;
        i := i + 1;
      }
      assert chain[..i] == chain;
    }

    /** Steps wheel `level` and takes the nodes off the spoke it has left, before the index is wrapped. */
    method TakeSpoke(level: nat) returns (chain: seq<TimerNode>)
      requires 1 <= level < WHEEL_NUM && ticks % Weight(level) == 0
      requires Hung() && MidTick(level)
      modifies this`rings, this`place, this`index, this`turns
      ensures Hung() && Ready in rings && Ready in old(rings) && rings[Ready] == old(rings)[Ready]
      ensures InHand(base, ticks, clock, level, chain, place, track, expiry)
      ensures |index| == |turns| == |old(index)| == WHEEL_NUM && place == old(place) - Elements(chain)
      ensures forall l: Level :: l <= level ==> turns[l] == ticks / Weight(l) && IndexShows(index, l, ticks)
      ensures forall n :: n in chain ==> n in old(place) && old(place)[n] == Spoke(level, old(index)[level])
      ensures if index[level] < Size(level) then Advanced(index, turns, ticks, WHEEL_NUM)
              else ticks % Weight(level + 1) == 0 && Advanced(index[level := 0], turns, ticks, level + 1)
    {
      hide RingsOk, Timed, Expired, IndexShows, InHand, Advanced;
      RingsTotal(rings, place);
      AdvancedSizes(index, turns, ticks, level);
      StepWheel(index, turns, ticks, level);
      DetachSpoke(base, ticks, turns, clock, rings, place, track, expiry, level);
      var spoke := Spoke(level, index[level]);
      index := index[level := index[level] + 1];
      turns := turns[level := turns[level] + 1];
      chain := rings[spoke];
      rings := rings[spoke := []];
      place := place - Elements(chain);
    }

    /** Steps wheel `level`, hangs up its spoke's nodes again, and carries into the next wheel. */
    method Cascade(level: nat) returns (casnum: nat)
      requires 1 <= level <= WHEEL_NUM && ticks % Weight(level) == 0
      requires Hung() && MidTick(level)
      modifies this`rings, this`place, this`track, this`expiry, this`index, this`turns, this`clock
      ensures Hung() && MidTick(WHEEL_NUM) && clock >= old(clock)
      ensures Ready in rings && Ready in old(rings) && old(rings)[Ready] <= rings[Ready]
      ensures old(expiry).Keys <= expiry.Keys
      ensures Descends(old(place), place)
      decreases WHEEL_NUM - level
    {
      hide RingsOk, Timed, Expired, IndexShows, InHand, Advanced, Descends, Rehung;
      if level >= WHEEL_NUM {
        RingsTotal(rings, place);
        DescendsInPlace(place);
        return 0;
      }
      var now := GetCurrentMillisec();
      ClockKeepsTimed(base, turns, old(clock), clock, place, track);
      AdvancedSizes(index, turns, ticks, level);
      ghost var spoke := index[level];
      var chain := TakeSpoke(level);
      casnum := Rehang(level, chain, now);
      RehungDescends(old(place), place, chain, level, spoke, now);
      if index[level] >= Size(level) {
        index := index[level := 0];
        ghost var middle := place;
        var more := Cascade(level + 1);
        DescendsFurther(old(place), middle, place);
        casnum := casnum + more;
      }
    }

    /** The first half of a tick: harvest wheel 0's spoke and step the wheel, whose index may now equal its size. */
    method HarvestAndStep()
      requires Hung() && Settled() && checktime + GRANULARITY <= clock
      modifies this`rings, this`place, this`expiry, this`index, this`turns, this`ticks
      ensures Hung() && Descends(old(place), place) && old(expiry).Keys <= expiry.Keys
      ensures Ready in rings && Ready in old(rings) && old(rings)[Ready] <= rings[Ready]
      ensures |index| == WHEEL_NUM && ticks > 0 && checktime + GRANULARITY == WheelTime(base, ticks) <= clock
      ensures if index[0] < WHEEL_SIZE1 then Advanced(index, turns, ticks, WHEEL_NUM)
              else ticks % Weight(1) == 0 && Advanced(index[0 := 0], turns, ticks, 1)
    {
      hide RingsOk, Timed, Expired, Advanced, Descends;
      RingsTotal(rings, place);
      AdvancedSizes(index, turns, ticks, WHEEL_NUM);
      HarvestSpoke();
      SpokeIsEmpty(rings, place, Spoke(0, index[0]));
      StepFirst();
    }

    /** Steps wheel 0 past a spoke that has been emptied. */
    method StepFirst()
      requires Hung() && Settled() && checktime + GRANULARITY <= clock
      requires |index| == WHEEL_NUM && forall n :: n in place ==> place[n] != Spoke(0, index[0])
      modifies this`index, this`turns, this`ticks
      ensures Hung() && |index| == WHEEL_NUM && ticks > 0 && checktime + GRANULARITY == WheelTime(base, ticks) <= clock
      ensures if index[0] < WHEEL_SIZE1 then Advanced(index, turns, ticks, WHEEL_NUM)
              else ticks % Weight(1) == 0 && Advanced(index[0 := 0], turns, ticks, 1)
    {
      hide RingsOk, Timed, Expired, Advanced;
      AdvancedSizes(index, turns, ticks, WHEEL_NUM);
      AdvanceKeepsTimed(base, turns, clock, place, track, 0);
      NextTick(index, turns, ticks);
      ticks := ticks + 1;
      StepWheel(index, turns, ticks, 0);
      index := index[0 := index[0] + 1];
      turns := turns[0 := turns[0] + 1];
    }

    /** One tick: harvest wheel 0's spoke, step the wheel, carry. */
    method Tick()
      requires Hung() && Settled() && checktime + GRANULARITY <= clock
      modifies this`rings, this`place, this`track, this`expiry, this`index, this`turns, this`clock, this`checktime,
        this`ticks
      ensures Hung() && Settled() && clock >= old(clock) && checktime == old(checktime) + GRANULARITY
      ensures Ready in rings && Ready in old(rings) && old(rings)[Ready] <= rings[Ready]
      ensures old(expiry).Keys <= expiry.Keys
      ensures Descends(old(place), place)
    {
      hide RingsOk, Timed, Expired, Advanced, Descends;
      HarvestAndStep();
      ghost var harvested := place;
      if index[0] >= WHEEL_SIZE1 {
        index := index[0 := 0];
        var casnum := Cascade(1);
        DescendsFurther(old(place), harvested, place);
      }
      checktime := checktime + GRANULARITY;
    }

    /** Hangs up a new node for a timer whose own fields the caller is about to set. */
    method AddTimer(milliseconds: uint32, timer: ThreadTimer) returns (node: TimerNode)
      requires Hung() && Settled() && Accounted()
      modifies this`rings, this`place, this`track, this`clock, this`created
      ensures Hung() && Settled() && Accounted() && clock >= old(clock)
      ensures fresh(node) && node.timer == timer && node.dead == clock + milliseconds
      ensures place.Keys == old(place.Keys) + {node} && place == old(place)[node := place[node]] && place[node].Spoke?
      ensures Ready in rings && Ready in old(rings) && rings[Ready] == old(rings)[Ready]
      ensures created == old(created) + {node}
    {
      hide RingsOk, Timed, Expired, Advanced, Accounted;
      RingsTotal(rings, place);
      NotYetCreated();
      var now := GetCurrentMillisec();
      ClockKeepsTimed(base, turns, old(clock), clock, place, track);
      node := new TimerNode(timer, now + milliseconds);
      SettledShows(index, turns, ticks, WheelFor(milliseconds / GRANULARITY));
      FreshNodeOnTime(base, ticks, index, now, milliseconds);
      AddTimerNode(milliseconds, node, Placed(CREATED, base, ticks, now));
      created := created + {node};
      CreateKeepsAccounted(node);
    }

    /** Unlinks and deletes a pending node. */
    method RemoveTimer(node: TimerNode)
      requires Hung() && Accounted() && node in place
      modifies this`rings, this`place, this`removed
      ensures Hung() && Accounted()
      ensures place == old(place) - {node} && removed == old(removed) + {node}
      ensures Ready in rings && Ready in old(rings)
      ensures rings[Ready] == if old(place)[node].Ready? then Without(old(rings)[Ready], node) else old(rings)[Ready]
    {
      hide RingsOk, Timed, Expired;
      RingsTotal(rings, place);
      PlaceIsRing(rings, place, node);
      RemoveKeepsRings(rings, place, node);
      RemovalKeepsPromises(base, turns, clock, place, track, expiry, {node});
      var ring := place[node];
      rings := rings[ring := Without(rings[ring], node)];
      place := place - {node};
      removed := removed + {node};
    }

    /**
     One visit of the timer thread. Unless the clock has run more than `2^32` granules ahead, wheel time catches up
     with it and every timer a granule overdue has been called back or removed; whatever was called back had expired
     punctually.
     */
    method DetectTimerList(script: seq<seq<Action>>) returns (ghost now: nat, ghost rounds: seq<Round>)
      requires Valid() && calling == null && rings[Ready] == []
      requires forall actions, a :: actions in script && a in actions ==> a.Create? || a.timer in timers
      modifies timers, this
      ensures Valid() && calling == null && rings[Ready] == []
      ensures old(timers) <= timers && fresh(timers - old(timers))
      ensures old(clock) <= now <= clock && base == old(base)
      ensures checktime == old(checktime) + Loops(old(checktime), now) * GRANULARITY <= clock
      ensures old(created) <= created && old(removed) <= removed && called == old(called) + CalledIn(rounds)
      ensures log == old(log) + Rounds(rounds) && FollowsScript(script, rounds, old(timers))
      ensures forall n :: n in called ==> n in expiry && Punctual(n.dead, expiry[n])
      ensures forall n :: n in place ==> n in track && checktime <= n.dead - track[n].lag <= n.dead
      ensures now - old(checktime) < GRANULARITY * TWO_TO_THE_32 ==>
                forall n :: n in created && n.dead + GRANULARITY <= now ==> n in called || n in removed
    {
      hide Hung, Settled, Owned, Accounted, Rounds, FollowsScript, CalledIn;
      var reading := ReadClock();
      now := reading;
      WheelTimeBehindClock();
      CatchesUp(checktime, reading);
      CatchUp(Loops(checktime, reading));
      rounds := DoTimeOutCallBack(script);
      WheelTimeBehindClock();
      NothingOverdue();
      AllAccounted();
    }

    method ReadClock() returns (now: nat)
      requires Valid()
      modifies this`clock
      ensures Valid() && now == clock >= old(clock)
    {
      hide RingsOk, Expired, Advanced, Armed, CallsOnlyArmed;
      now := GetCurrentMillisec();
      ClockKeepsTimed(base, turns, old(clock), clock, place, track);
    }

    lemma WheelTimeBehindClock()
      requires Settled()
      ensures checktime <= clock
    {
    }

    method CatchUp(loopnum: nat)
      requires Hung() && Settled() && Accounted() && Owned() && calling == null && Ready in rings
      requires checktime + loopnum * GRANULARITY <= clock
      modifies this`rings, this`place, this`track, this`expiry, this`index, this`turns, this`clock, this`checktime,
        this`ticks
      ensures Hung() && Settled() && Accounted() && Owned() && Ready in rings
      ensures checktime == old(checktime) + loopnum * GRANULARITY && clock >= old(clock)
    {
      hide Hung, Settled, Accounted, Owned;
      var i := 0;
      while i < loopnum
        invariant 0 <= i <= loopnum
        invariant Hung() && Settled() && Accounted() && Owned() && Ready in rings
        invariant checktime == old(checktime) + i * GRANULARITY && clock >= old(clock)
      {
        Turn();
        i := i + 1;
      }
    }

    /** Calls back the first ready timer and then deletes its node. */
    method CallFirst(actions: seq<Action>) returns (ghost round: Round)
      requires Valid() && calling == null && rings[Ready] != []
      requires forall a :: a in actions ==> a.Create? || a.timer in timers
      modifies timers, this`timers, this`rings, this`place, this`removed, this`called, this`log, this`track, this`clock,
        this`created, this`calling
      ensures Valid() && calling == null && clock >= old(clock)
      ensures old(timers) <= timers && fresh(timers - old(timers))
      ensures |rings[Ready]| < |old(rings)[Ready]|
      ensures called == old(called) + {old(rings)[Ready][0]}
      ensures old(created) <= created && old(removed) <= removed
      ensures round.node == old(rings)[Ready][0] && ActsAll(actions, round.blocks, old(timers))
      ensures log == old(log) + RoundEvents(round)
    {
      hide Valid, Flat;
      var node := FirstReady();
      ghost var blocks := node.timer.Callback(actions);
      round := Round(node, blocks);
      DeleteCalled();
    }

    method DeleteCalled()
      requires Valid() && calling != null
      modifies this`rings, this`place, this`called, this`calling
      ensures Valid() && calling == null && called == old(called) + {old(calling)}
      ensures Ready in rings && Ready in old(rings) && |rings[Ready]| < |old(rings)[Ready]|
    {
      hide RingsOk, Timed, Expired, Advanced, Linked, Logged;
      NotYetExpired(place, expiry, calling);
      var first := UnlinkFirst(Ready);
      called := called + {first};
      calling := null;
      DeleteKeepsLinked();
      SameLog();
    }

    /** Calls back the ready timers in order. A callback may stop later ones, but cannot make more nodes ready. */
    method DoTimeOutCallBack(script: seq<seq<Action>>) returns (ghost rounds: seq<Round>)
      requires Valid() && calling == null
      requires forall actions, a :: actions in script && a in actions ==> a.Create? || a.timer in timers
      modifies timers, this`timers, this`rings, this`place, this`removed, this`called, this`log, this`track, this`clock,
        this`created, this`calling
      ensures Valid() && calling == null && rings[Ready] == [] && clock >= old(clock)
      ensures old(timers) <= timers && fresh(timers - old(timers))
      ensures old(created) <= created && old(removed) <= removed && old(called) <= called
      ensures log == old(log) + Rounds(rounds) && FollowsScript(script, rounds, old(timers))
      ensures called == old(called) + CalledIn(rounds)
    {
      hide Valid, Rounds, Acts, ActsAll, FollowsScript;
      ReadyIsRing();
      rounds := [];
      NoRounds(script, log, timers);
      var k := 0;
      while rings[Ready] != []
        invariant Valid() && Ready in rings && calling == null && clock >= old(clock)
        invariant old(timers) <= timers && fresh(timers - old(timers))
        invariant old(created) <= created && old(removed) <= removed && called == old(called) + CalledIn(rounds)
        invariant |rounds| == k && log == old(log) + Rounds(rounds) && FollowsScript(script, rounds, old(timers))
        decreases |rings[Ready]|
      {
        ghost var before := timers;
        var actions := if k < |script| then script[k] else [];
        ghost var round := CallFirst(actions);
        RoundsMore(old(log), rounds, round);
        OneMoreRound(script, rounds, round, old(timers), before);
        rounds := rounds + [round];
        ReadyIsRing();
        k := k + 1;
      }
    }
  }

  ghost function CalledIn(rs: seq<Round>): set<TimerNode> {
    set k | 0 <= k < |rs| :: rs[k].node
  }

  lemma NoRounds(script: seq<seq<Action>>, log: seq<Event>, known: set<ThreadTimer>)
    ensures log + Rounds([]) == log && FollowsScript(script, [], known)
  {
  }

  lemma OneMoreRound(script: seq<seq<Action>>, rs: seq<Round>, r: Round, known: set<ThreadTimer>,
                     later: set<ThreadTimer>)
    requires FollowsScript(script, rs, known) && ActsAll(Scripted(script, |rs|), r.blocks, later) && known <= later
    ensures FollowsScript(script, rs + [r], known) && CalledIn(rs + [r]) == CalledIn(rs) + {r.node}
  {
    hide Acts;
    var actions := Scripted(script, |rs|);
    forall i | 0 <= i < |actions| ensures Acts(actions[i], r.blocks[i], known) {
      FewerKnown(actions[i], r.blocks[i], known, later);
    }
    var more := rs + [r];
    assert more[|rs|] == r && forall k :: 0 <= k < |rs| ==> more[k] == rs[k];
    assert CalledIn(more) == CalledIn(rs) + {r.node} by {
      assert forall k :: 0 <= k < |rs| ==> rs[k].node == more[k].node;
    }
  }

  lemma FewerKnown(a: Action, events: seq<Event>, known: set<ThreadTimer>, later: set<ThreadTimer>)
    requires Acts(a, events, later) && known <= later
    ensures Acts(a, events, known)
  {
  }

  class ThreadTimer {
    const owner: TimerManager
    const circle: bool
    var interval: uint32
    var status: Status
    var node: TimerNode?

    constructor (owner: TimerManager, interval: uint32, circle: bool)
      requires owner.Valid()
      modifies owner`timers
      ensures owner.Valid() && owner.timers == old(owner.timers) + {this}
      ensures this.owner == owner && this.interval == interval && this.circle == circle && node == null
      ensures status == WAITING
    {
      this.owner, this.interval, this.circle := owner, interval, circle;
      status, node := WAITING, null;
      new;
      NeverLogged(owner.log, this);
      owner.timers := owner.timers + {this};
    }

    /** After Stop the timer has no pending node and will not be called before it is started again. */
    method Stop()
      requires owner.Valid() && this in owner.timers
      modifies this, owner`rings, owner`place, owner`removed, owner`log
      ensures owner.Valid() && node == null && status == USER_CANCEL
      ensures interval == old(interval)
      ensures owner.place == if old(node) == null then old(owner.place) else old(owner.place) - {old(node)}
      ensures owner.log == old(owner.log) + [Stopped(this)]
      ensures owner.Grows()
    {
      hide RingsOk, Timed, Expired, Advanced, TimerManager.Linked, TimerManager.Logged;
      if node != null {
        owner.NodeIsPending(this);
      }
      status := USER_CANCEL;
      if node != null {
        owner.RemoveTimer(node);
        node := null;
      }
      owner.Record(Stopped(this));
      owner.UnlinkKeepsLinked(this);
      owner.LogKeepsLogged(Stopped(this));
    }

    method Start() returns (ok: bool)
      requires owner.Valid() && this in owner.timers
      modifies this, owner`rings, owner`place, owner`removed, owner`log, owner`track, owner`clock, owner`created
      ensures owner.Valid() && ok && status == TIME_OUT && interval == old(interval)
      ensures node != null && fresh(node) && node.dead == owner.clock + interval && owner.clock >= old(owner.clock)
      ensures owner.log == old(owner.log) + [Stopped(this), Started(this)]
      ensures owner.place.Keys
           == (if old(node) == null then old(owner.place).Keys else old(owner.place).Keys - {old(node)}) + {node}
      ensures forall n :: n in old(owner.place) && n in owner.place ==> owner.place[n] == old(owner.place)[n]
      ensures owner.created == old(owner.created) + {node}
      ensures owner.Grows()
    {
      hide TimerManager.Valid;
      Stop();
      Arm();
      ok := true;
    }

    /** Hangs up a node for a timer that has none. */
    method Arm()
      requires owner.Valid() && this in owner.timers && node == null
      modifies this`status, this`node, owner`rings, owner`place, owner`log, owner`track, owner`clock, owner`created
      ensures owner.Valid() && status == TIME_OUT && node != null && fresh(node)
      ensures node.dead == owner.clock + interval && owner.clock >= old(owner.clock)
      ensures owner.log == old(owner.log) + [Started(this)] && owner.created == old(owner.created) + {node}
      ensures owner.place.Keys == old(owner.place.Keys) + {node}
      ensures owner.place == old(owner.place)[node := owner.place[node]]
      ensures owner.Grows()
    {
      hide TimerManager.Hung, TimerManager.Settled, TimerManager.Accounted, TimerManager.Linked, TimerManager.Logged;
      status := TIME_OUT;
      node := owner.AddTimer(interval, this);
      owner.Record(Started(this));
      owner.LinkKeepsLinked(this);
      owner.LogKeepsLogged(Started(this));
    }

    /** The callback of an expired timer: it is disarmed first, restarted if circular, and then acts on any timers. */
    method Callback(actions: seq<Action>) returns (ghost blocks: seq<seq<Event>>)
      requires owner.Valid() && this in owner.timers && owner.calling == null
      requires node != null && owner.place[node] == Ready && owner.rings[Ready] != [] && owner.rings[Ready][0] == node
      requires forall a :: a in actions ==> a.Create? || a.timer in owner.timers
      modifies owner.timers, owner`timers, owner`rings, owner`place, owner`removed, owner`log, owner`track, owner`clock,
        owner`created
      modifies owner`calling
      ensures owner.Valid() && owner.calling == old(node)
      ensures owner.Grows() && ActsAll(actions, blocks, old(owner.timers))
      ensures owner.log == old(owner.log) + ([Called(this)] + Restarted(this) + Flat(blocks))
      ensures actions == [] ==>
                if circle then node != null && node.dead == owner.clock + interval && interval == old(interval)
                else node == null
    {
      hide TimerManager.Valid, Flat, ActsAll;
      Disarm();
      if circle {
        var ok := Start();
      }
      assert owner.log == old(owner.log) + ([Called(this)] + Restarted(this));
      blocks := RunActions(owner, actions);
    }

    method Disarm()
      requires owner.Valid() && this in owner.timers && owner.calling == null
      requires node != null && owner.place[node] == Ready && owner.rings[Ready] != [] && owner.rings[Ready][0] == node
      modifies this`node, owner`log, owner`calling
      ensures owner.Valid() && owner.calling == old(node) && node == null
      ensures owner.log == old(owner.log) + [Called(this)] && Ready in owner.rings
    {
      hide RingsOk, Timed, Expired, Advanced, TimerManager.Linked, TimerManager.Logged;
      owner.NodeIsPending(this);
      owner.calling := node;
      node := null;
      owner.log := owner.log + [Called(this)];
      owner.CallKeepsLinked(this);
      owner.LogKeepsLogged(Called(this));
    }
  }

  /** What a callback does to the timers of its manager: its actions, one after another. */
  method RunActions(owner: TimerManager, actions: seq<Action>) returns (ghost blocks: seq<seq<Event>>)
    requires owner.Valid()
    requires forall a :: a in actions ==> a.Create? || a.timer in owner.timers
    modifies owner.timers, owner`timers, owner`rings, owner`place, owner`removed, owner`log, owner`track, owner`clock,
      owner`created
    ensures owner.Valid() && owner.Grows()
    ensures owner.log == old(owner.log) + Flat(blocks) && ActsAll(actions, blocks, old(owner.timers))
    ensures actions == [] ==> unchanged(owner) && unchanged(old(owner.timers))
  {
    hide TimerManager.Valid, Acts, Flat;
    owner.GrowsInPlace();
    blocks := [];
    assert Flat([]) == [] by { NothingFlat(); }
    var i := 0;
    while i < |actions|
      invariant 0 <= i <= |actions|
      invariant owner.Valid() && owner.Grows()
      invariant |blocks| == i && owner.log == old(owner.log) + Flat(blocks)
      invariant forall j :: 0 <= j < i ==> Acts(actions[j], blocks[j], old(owner.timers))
      invariant i == 0 ==> unchanged(owner) && unchanged(old(owner.timers))
    {
      ghost var before := owner.timers;
      ghost var block := owner.Perform(actions[i]);
      FlatMore(old(owner.log), blocks, block);
      FewerKnown(actions[i], block, old(owner.timers), before);
      blocks := blocks + [block];
      i := i + 1;
    }
  }

  lemma NothingFlat()
    ensures Flat([]) == []
  {
  }
}
