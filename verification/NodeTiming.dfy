/**
 What the place of one timer node promises about the time at which it becomes
 ready. Wheel time is `base + GRANULARITY * ticks`; the lag of a placement is the
 clock read for it minus the wheel time then.
 */
module NodeTiming {
  import opened WheelArithmetic

  /** How often a node has been taken off each wheel by a cascade. */
  type Hops = h: seq<nat> | |h| == WHEEL_NUM witness [0, 0, 0, 0, 0]

  /** A promptly handled node is taken off each higher wheel at most twice, and wheel 0 never cascades. */
  function MaxHops(level: Level): nat {
    if level == 0 then 0 else 2
  }

  ghost predicate FewHops(hops: Hops) {
    forall l: Level :: hops[l] <= MaxHops(l)
  }

  /** So there are eight at most in all. */
  lemma EightHops(hops: Hops)
    requires FewHops(hops)
    ensures hops[0] == 0 && hops[1] + hops[2] + hops[3] + hops[4] <= 8
  {
    var l0: Level, l1: Level, l2: Level, l3: Level, l4: Level := 0, 1, 2, 3, 4;
    assert hops[l0] <= MaxHops(l0) && hops[l1] <= MaxHops(l1) && hops[l2] <= MaxHops(l2);
    assert hops[l3] <= MaxHops(l3) && hops[l4] <= MaxHops(l4);
  }

  /**
   Bookkeeping about a hung-up node: the clock and the lag of its last placement, how often it has
   been taken off each wheel, and whether any placement lagged by a whole granule.
   */
  datatype Track = Track(clock: nat, lag: int, hops: Hops, tardy: bool)

  /**
   How a node became ready: closing wheel time of that tick, whether straight out of a cascade, and the clock reading
   then.
   */
  datatype Expiry = Expiry(closing: nat, direct: bool, clock: nat, track: Track)

  function WheelTime(base: nat, ticks: nat): nat {
    base + GRANULARITY * ticks
  }

  /** How many more times a promptly handled node can be taken off the wheel it hangs on. */
  function StepsLeft(base: nat, dead: nat, level: Level, due: nat): nat {
    if level == 0 then 0 else if dead < WheelTime(base, due + Weight(level)) then 1 else 2
  }

  /**
   It has been taken off higher wheels twice at most, off this one no more than leaves it what it needs, and off no
   lower one.
   */
  ghost predicate WithinBudget(base: nat, dead: nat, hops: Hops, level: Level, due: nat) {
    && hops[level] + StepsLeft(base, dead, level, due) <= MaxHops(level)
    && (forall l: Level :: level < l ==> hops[l] <= MaxHops(l))
    && (forall l: Level :: l < level ==> hops[l] == 0)
  }

  ghost predicate Prompt(base: nat, dead: nat, hops: Hops, level: Level, due: nat) {
    && (level >= 1 ==> dead < WheelTime(base, due + 2 * Weight(level)))
    && WithinBudget(base, dead, hops, level, due)
  }

  /** The clock distance to the deadline fits the wheel and 32 bits. */
  ghost predicate InReach(dead: nat, track: Track, level: Level) {
    && dead - track.clock < TWO_TO_THE_32
    && (level < 4 ==> dead - track.clock < GRANULARITY * Weight(level + 1))
  }

  /** The promise carried by a node hung on wheel `level` in a spoke that is emptied at counted tick `due`. */
  ghost predicate OnTime(base: nat, dead: nat, track: Track, level: Level, due: nat) {
    && track.lag >= 0
    && InReach(dead, track, level)
    && (level == 0 ==> dead - track.lag < WheelTime(base, due) <= dead - track.lag + GRANULARITY)
    && (level >= 1 ==> WheelTime(base, due) <= dead - track.lag)
    && (!track.tardy ==> Prompt(base, dead, track.hops, level, due))
  }

  /** The promise kept when a node becomes ready. */
  ghost predicate Punctual(dead: nat, e: Expiry) {
    && e.closing <= dead + GRANULARITY && e.closing <= e.clock
    && (e.direct ==> dead <= e.clock && e.closing <= dead)
    && (!e.direct ==> dead - e.track.lag < e.closing <= dead - e.track.lag + GRANULARITY)
    && (!e.track.tardy ==> FewHops(e.track.hops))
  }

  /** Bookkeeping for a node hung up now. */
  function Placed(prior: Track, base: nat, ticks: nat, clock: nat): Track {
    var lag := clock - WheelTime(base, ticks);
    Track(clock, lag, prior.hops, prior.tardy || lag >= GRANULARITY)
  }

  const CREATED := Track(0, 0, [0, 0, 0, 0, 0], false)

  /** A node taken off a wheel once more. */
  function Hopped(track: Track, level: Level): Track {
    track.(hops := track.hops[level := track.hops[level] + 1])
  }

  ghost predicate IndexShows(index: seq<nat>, level: Level, ticks: nat) {
    |index| == WHEEL_NUM && index[level] <= Size(level)
    && index[level] % Size(level) == ticks / Weight(level) % Size(level)
  }

  /** The spoke's tick for a node placed now. */
  function DueOfPlacement(milliseconds: nat, index: seq<nat>, ticks: nat): nat
    requires |index| == WHEEL_NUM
  {
    var level := WheelFor(milliseconds / GRANULARITY);
    Due(level, SpokeFor(milliseconds / GRANULARITY, index), ticks / Weight(level))
  }

  /** All but the cascade budget, for every placement. */
  lemma PlacementInTime(base: nat, ticks: nat, index: seq<nat>, clock: nat, milliseconds: nat)
    requires milliseconds < TWO_TO_THE_32 && WheelTime(base, ticks) <= clock
    requires IndexShows(index, WheelFor(milliseconds / GRANULARITY), ticks)
    ensures var level, lag := WheelFor(milliseconds / GRANULARITY), clock - WheelTime(base, ticks);
            var dead, due := clock + milliseconds, DueOfPlacement(milliseconds, index, ticks);
            && (level == 0 ==> dead - lag < WheelTime(base, due) <= dead - lag + GRANULARITY)
            && (level >= 1 ==> WheelTime(base, due) <= dead - lag)
            && (level < 4 ==> milliseconds < GRANULARITY * Weight(level + 1))
            && (level >= 1 && lag < GRANULARITY ==> dead < WheelTime(base, due + 2 * Weight(level)))
  {
    var interval := milliseconds / GRANULARITY;
    PlacementFallsDueInTime(interval, index, ticks);
    WithinTwoSteps(ticks, interval, Weight(WheelFor(interval)));
  }

  lemma WithinTwoSteps(ticks: nat, interval: nat, w: nat)
    requires w > 0
    ensures ticks + interval + 2 <= w * (ticks / w + interval / w) + 2 * w
  {
    assert ticks == w * (ticks / w) + ticks % w;
    assert interval == w * (interval / w) + interval % w;
    assert w * (ticks / w + interval / w) == w * (ticks / w) + w * (interval / w);
  }

  /** A freshly created node starts with the whole promise. */
  lemma FreshNodeOnTime(base: nat, ticks: nat, index: seq<nat>, clock: nat, milliseconds: nat)
    requires milliseconds < TWO_TO_THE_32 && WheelTime(base, ticks) <= clock
    requires IndexShows(index, WheelFor(milliseconds / GRANULARITY), ticks)
    ensures OnTime(base, clock + milliseconds, Placed(CREATED, base, ticks, clock),
                   WheelFor(milliseconds / GRANULARITY), DueOfPlacement(milliseconds, index, ticks))
  {
    PlacementInTime(base, ticks, index, clock, milliseconds);
  }

  /**
   The remaining time of a node taken off wheel `level` fits 32 bits and calls for no higher wheel, whatever the clock
   has done.
   */
  lemma NeverClimbs(clock: nat, dead: nat, track: Track, level: Level)
    requires InReach(dead, track, level) && track.clock <= clock < dead
    ensures Wrap32(dead - clock) == dead - clock
    ensures WheelFor((dead - clock) / GRANULARITY) <= level
  {
    assert level < 4 ==> (dead - clock) / GRANULARITY < Weight(level + 1);
  }

  /**
   A node taken off wheel `level` when its spoke is emptied keeps the promise in its new place,
   at the cost of one cascade.
   */
  lemma CascadedNodeOnTime(base: nat, ticks: nat, index: seq<nat>, clock: nat, dead: nat, track: Track, level: Level)
    requires level >= 1 && ticks % Weight(level) == 0
    requires OnTime(base, dead, track, level, ticks)
    requires WheelTime(base, ticks) <= clock < dead && track.clock <= clock
    requires IndexShows(index, WheelFor((dead - clock) / GRANULARITY), ticks)
    ensures OnTime(base, dead, Placed(Hopped(track, level), base, ticks, clock),
                   WheelFor((dead - clock) / GRANULARITY), DueOfPlacement(dead - clock, index, ticks))
  {
    var milliseconds := dead - clock;
    PlacementInTime(base, ticks, index, clock, milliseconds);
    NeverClimbs(clock, dead, track, level);
    if !Placed(Hopped(track, level), base, ticks, clock).tardy {
      BudgetSuffices(base, ticks, index, clock, dead, track, level);
    }
  }

  /**
   Each prompt cascade counts against the wheel the node is taken off; it goes to a lower wheel, or stays on the same
   one for the last time.
   */
  lemma BudgetSuffices(base: nat, ticks: nat, index: seq<nat>, clock: nat, dead: nat, track: Track, level: Level)
    requires level >= 1 && ticks % Weight(level) == 0
    requires Prompt(base, dead, track.hops, level, ticks)
    requires WheelTime(base, ticks) <= clock < dead < clock + TWO_TO_THE_32
    requires WheelFor((dead - clock) / GRANULARITY) <= level
    requires IndexShows(index, WheelFor((dead - clock) / GRANULARITY), ticks)
    ensures WithinBudget(base, dead, Hopped(track, level).hops, WheelFor((dead - clock) / GRANULARITY),
                         DueOfPlacement(dead - clock, index, ticks))
  {
    var interval := (dead - clock) / GRANULARITY;
    var w := Weight(level);
    assert interval < 2 * w;
    if WheelFor(interval) == level {
      assert w <= interval;
      PlacementFallsDueInTime(interval, index, ticks);
      OneStepOn(ticks, interval, w);
    }
  }

  lemma OneStepOn(ticks: nat, interval: nat, w: nat)
    requires 0 < w <= interval < 2 * w && ticks % w == 0
    ensures w * (ticks / w + interval / w) == ticks + w
  {
    assert interval == w * (interval / w) + interval % w;
    assert interval / w == 1;
    assert ticks == w * (ticks / w);
    assert w * (ticks / w + 1) == w * (ticks / w) + w;
  }

  /** Wherever a prompt node is, it has been taken off no wheel more often than it may. */
  lemma BudgetKept(base: nat, dead: nat, hops: Hops, level: Level, due: nat)
    requires WithinBudget(base, dead, hops, level, due)
    ensures FewHops(hops) && (level >= 1 ==> FewHops(hops[level := hops[level] + 1]))
  {
    forall l: Level ensures hops[l] <= MaxHops(l) {}
  }

  /** A node found on the current spoke of wheel 0 becomes ready punctually at the end of this tick. */
  lemma HarvestedNodePunctual(base: nat, ticks: nat, clock: nat, dead: nat, track: Track)
    requires OnTime(base, dead, track, 0, ticks) && WheelTime(base, ticks) <= clock
    ensures Punctual(dead, Expiry(WheelTime(base, ticks), false, clock, track))
  {
    if !track.tardy {
      BudgetKept(base, dead, track.hops, 0, ticks);
    }
  }

  /** A node that a cascade finds overdue has really reached its deadline, and is not late either. */
  lemma OverdueNodePunctual(base: nat, ticks: nat, clock: nat, dead: nat, track: Track, level: Level)
    requires level >= 1 && OnTime(base, dead, track, level, ticks) && dead <= clock && WheelTime(base, ticks) <= clock
    ensures Punctual(dead, Expiry(WheelTime(base, ticks), true, clock, Hopped(track, level)))
  {
    if !track.tardy {
      BudgetKept(base, dead, track.hops, level, ticks);
    }
  }

  /** What becomes ready with the clock before its deadline does so on wheel 0, and because it was hung up lagging. */
  lemma EarlyOnlyByLag(dead: nat, e: Expiry)
    requires Punctual(dead, e) && e.clock < dead
    ensures !e.direct && e.track.lag > 1
  {
  }

  /**
   As long as a node hangs on a spoke, wheel time has not passed its deadline, not even less the lag of its placement.
   */
  lemma StillHungNotOverdue(base: nat, ticks: nat, dead: nat, track: Track, level: Level, spoke: nat)
    requires spoke < Size(level)
    requires OnTime(base, dead, track, level, Due(level, spoke, ticks / Weight(level)))
    ensures WheelTime(base, ticks) <= dead - track.lag
  {
    BeyondWholeSteps(ticks, Weight(level), (spoke - ticks / Weight(level)) % Size(level));
  }

  lemma BeyondWholeSteps(ticks: nat, w: nat, more: nat)
    requires w > 0
    ensures ticks < w * (ticks / w + 1 + more)
  {
    assert ticks == w * (ticks / w) + ticks % w;
    assert w * (ticks / w + 1 + more) == w * (ticks / w) + w + w * more;
    assert w * more >= 0;
  }
}
