/**
 The arithmetic of the five-wheel timer: the mixed-radix clock formed by the
 spoke indices, the spoke an interval is hung on, and the tick at which a spoke
 is next emptied.
 */
module WheelArithmetic {

  const GRANULARITY := 10
  const WHEEL_NUM := 5
  const WHEEL_SIZE1 := 256
  const WHEEL_SIZE2 := 64
  const TWO_TO_THE_32 := 0x1_0000_0000

  type Level = l: nat | l < WHEEL_NUM

  /** Number of spokes of a wheel. */
  function Size(level: nat): (n: nat)
    ensures n == WHEEL_SIZE1 || n == WHEEL_SIZE2
  {
    if level == 0 then WHEEL_SIZE1 else WHEEL_SIZE2
  }

  /** How many ticks one step of a wheel is worth; `Weight(5)` is one full revolution of the last wheel. */
  function Weight(level: nat): (w: nat)
    requires level <= WHEEL_NUM
    ensures w > 0
  {
    match level
    case 0 => 1
    case 1 => 256
    case 2 => 16384
    case 3 => 1048576
    case 4 => 67108864
    case _ => TWO_TO_THE_32
  }

  function Wrap32(n: int): (w: nat)
    ensures w < TWO_TO_THE_32
  {
    n % TWO_TO_THE_32
  }

  /** Wheel chosen for an interval counted in ticks. */
  function WheelFor(interval: nat): Level
  {
    if interval < Weight(1) then 0
    else if interval < Weight(2) then 1
    else if interval < Weight(3) then 2
    else if interval < Weight(4) then 3
    else 4
  }

  /** Spoke chosen on that wheel, in 32-bit unsigned arithmetic. */
  function SpokeFor(interval: nat, index: seq<nat>): (spoke: nat)
    requires |index| == WHEEL_NUM
    ensures spoke < Size(WheelFor(interval))
  {
    var level := WheelFor(interval);
    if level == 0 then Wrap32(interval + index[0]) % WHEEL_SIZE1
    else SpokeAbove(interval, index[level], Weight(level))
  }

  function SpokeAbove(interval: nat, index: nat, threshold: nat): (spoke: nat)
    requires threshold > 0
    ensures spoke < WHEEL_SIZE2
  {
    Wrap32(Wrap32(interval - threshold) + Wrap32(index * threshold)) / threshold % WHEEL_SIZE2
  }

  /**
   How often wheel `level` has been advanced once `ticks` ticks are counted, when in
   the tick being executed only the wheels below `done` have been advanced so far.
   */
  function Turns(ticks: nat, level: Level, done: nat): nat
  {
    if level < done || ticks == 0 then ticks / Weight(level) else (ticks - 1) / Weight(level)
  }

  /** The counted tick at which spoke `spoke` is next emptied, on a wheel that has been advanced `turns` times. */
  function Due(level: Level, spoke: nat, turns: nat): nat
  {
    Weight(level) * (turns + 1 + (spoke - turns) % Size(level))
  }

  /**
   A node hung up for `interval` ticks falls due when the interval is over on wheel 0,
   and on a higher wheel at the last step of that wheel which is not after it. This holds
   although an index may still show the wheel's full size and although the level-4
   computation wraps at 32 bits.
   */
  lemma PlacementFallsDueInTime(interval: nat, index: seq<nat>, ticks: nat)
    requires interval <= TWO_TO_THE_32 / GRANULARITY
    requires |index| == WHEEL_NUM
    requires var l := WheelFor(interval); index[l] <= Size(l) && index[l] % Size(l) == ticks / Weight(l) % Size(l)
    ensures var l := WheelFor(interval);
            var due := Due(l, SpokeFor(interval, index), ticks / Weight(l));
            && (l == 0 ==> due == ticks + interval + 1)
            && (l >= 1 ==> due == Weight(l) * (ticks / Weight(l) + interval / Weight(l)))
            && (l >= 1 ==> ticks < due <= ticks + interval)
            && (l >= 1 ==> interval < Weight(l) * 64)
  {
    var l := WheelFor(interval);
    SpokeIsStepsAhead(interval, index, ticks / Weight(l));
    if l >= 1 {
      WholeStepsFit(ticks, interval, Weight(l));
    }
  }

  /** The spoke chosen lies as many steps ahead of the current digit as the interval has whole steps to spare. */
  lemma SpokeIsStepsAhead(interval: nat, index: seq<nat>, turns: nat)
    requires interval <= TWO_TO_THE_32 / GRANULARITY
    requires |index| == WHEEL_NUM
    requires var l := WheelFor(interval); index[l] <= Size(l) && index[l] % Size(l) == turns % Size(l)
    ensures var l := WheelFor(interval);
            (SpokeFor(interval, index) - turns) % Size(l) == if l == 0 then interval else interval / Weight(l) - 1
  {
    var l := WheelFor(interval);
    SpokeInSteps(interval, index);
    if l == 0 {
      Congruent256(turns, interval, index[0]);
    } else {
      Congruent64(turns, interval / Weight(l) - 1, index[l]);
    }
  }

  lemma SpokeInSteps(interval: nat, index: seq<nat>)
    requires interval <= TWO_TO_THE_32 / GRANULARITY
    requires |index| == WHEEL_NUM && index[WheelFor(interval)] <= Size(WheelFor(interval))
    ensures var l := WheelFor(interval);
            && (l >= 1 ==> 1 <= interval / Weight(l) < 64)
            && SpokeFor(interval, index) == if l == 0 then (interval + index[0]) % 256
                                            else (interval / Weight(l) - 1 + index[l]) % 64
  {
    hide SpokeAbove, Wrap32;
    if interval < 256 {
      SmallSum(interval, index[0]);
    } else if interval < 16384 {
      StepsOnWheel1(interval, index[1]);
    } else if interval < 1048576 {
      StepsOnWheel2(interval, index[2]);
    } else if interval < 67108864 {
      StepsOnWheel3(interval, index[3]);
    } else {
      StepsOnWheel4(interval, index[4]);
    }
  }

  lemma SmallSum(interval: nat, index: nat)
    requires interval < 256 && index <= 256
    ensures Wrap32(interval + index) % 256 == (interval + index) % 256
  {
  }

  lemma Congruent64(turns: nat, steps: nat, index: nat)
    requires steps < 64 && index % 64 == turns % 64
    ensures ((steps + index) % 64 - turns) % 64 == steps
  {
    var r := index % 64;
    assert index == 64 * (index / 64) + r && turns == 64 * (turns / 64) + r;
    assert (steps + index) % 64 == if steps + r < 64 then steps + r else steps + r - 64;
  }

  lemma Congruent256(turns: nat, steps: nat, index: nat)
    requires steps < 256 && index % 256 == turns % 256
    ensures ((steps + index) % 256 - turns) % 256 == steps
  {
    var r := index % 256;
    assert index == 256 * (index / 256) + r && turns == 256 * (turns / 256) + r;
    assert (steps + index) % 256 == if steps + r < 256 then steps + r else steps + r - 256;
  }

  lemma StepsOnWheel1(interval: nat, index: nat)
    requires 256 <= interval < 16384 && index <= 64
    ensures SpokeAbove(interval, index, 256) == (interval / 256 - 1 + index) % 64
  {
    assert Wrap32(Wrap32(interval - 256) + Wrap32(index * 256)) == interval - 256 + index * 256;
  }

  lemma StepsOnWheel2(interval: nat, index: nat)
    requires 16384 <= interval < 1048576 && index <= 64
    ensures SpokeAbove(interval, index, 16384) == (interval / 16384 - 1 + index) % 64
  {
    assert Wrap32(Wrap32(interval - 16384) + Wrap32(index * 16384)) == interval - 16384 + index * 16384;
  }

  lemma StepsOnWheel3(interval: nat, index: nat)
    requires 1048576 <= interval < 67108864 && index <= 64
    ensures SpokeAbove(interval, index, 1048576) == (interval / 1048576 - 1 + index) % 64
  {
    assert Wrap32(Wrap32(interval - 1048576) + Wrap32(index * 1048576)) == interval - 1048576 + index * 1048576;
  }

  /**
   On wheel 4 the sum may pass `2^32`; one revolution of that wheel is exactly `2^32` ticks, so the spoke is
   unaffected.
   */
  lemma StepsOnWheel4(interval: nat, index: nat)
    requires 67108864 <= interval <= TWO_TO_THE_32 / GRANULARITY && index <= 64
    ensures interval / 67108864 <= 6
    ensures SpokeAbove(interval, index, 67108864) == (interval / 67108864 - 1 + index) % 64
  {
    var n := interval - 67108864 + index * 67108864;
    var wrapped := Wrap32(Wrap32(interval - 67108864) + Wrap32(index * 67108864));
    if index == 64 {
      assert wrapped == interval - 67108864;
    } else if n < TWO_TO_THE_32 {
      assert wrapped == n;
    } else {
      assert wrapped == n - 64 * 67108864;
    }
  }

  lemma WholeStepsFit(ticks: nat, interval: nat, w: nat)
    requires 0 < w <= interval
    ensures ticks < w * (ticks / w + interval / w) <= ticks + interval
  {
    assert ticks == w * (ticks / w) + ticks % w;
    assert interval == w * (interval / w) + interval % w;
    assert interval / w >= 1;
    assert w * (interval / w) >= w;
    assert w * (ticks / w + interval / w) == w * (ticks / w) + w * (interval / w);
  }

  /**
   Only the spoke under the index is emptied by a step of its wheel; no other spoke's tick is changed by that step.
   */
  lemma StepEmptiesOneSpoke(level: Level, spoke: nat, turns: nat)
    requires spoke < Size(level)
    ensures spoke == turns % Size(level) ==> Due(level, spoke, turns) == Weight(level) * (turns + 1)
    ensures spoke != turns % Size(level) ==> Due(level, spoke, turns + 1) == Due(level, spoke, turns)
    ensures Due(level, spoke, turns) > Weight(level) * turns
  {
    if level == 0 {
      NextStep256(spoke, turns);
    } else {
      NextStep64(spoke, turns);
    }
    assert Weight(level) * (turns + 1 + (spoke - turns) % Size(level)) >= Weight(level) * (turns + 1);
  }

  lemma NextStep64(spoke: nat, turns: nat)
    requires spoke < 64
    ensures spoke == turns % 64 <==> (spoke - turns) % 64 == 0
    ensures spoke != turns % 64 ==> (spoke - (turns + 1)) % 64 == (spoke - turns) % 64 - 1
  {
  }

  lemma NextStep256(spoke: nat, turns: nat)
    requires spoke < 256
    ensures spoke == turns % 256 <==> (spoke - turns) % 256 == 0
    ensures spoke != turns % 256 ==> (spoke - (turns + 1)) % 256 == (spoke - turns) % 256 - 1
  {
  }

  /**
   A wheel steps exactly when the tick counter reaches a multiple of its weight, and then carries exactly at multiples
   of the next weight.
   */
  lemma Carry(ticks: nat, level: Level)
    requires ticks > 0 && ticks % Weight(level) == 0
    ensures Turns(ticks, level, level + 1) == Turns(ticks, level, level) + 1
    ensures Turns(ticks, level, level + 1) % Size(level) == 0 <==> ticks % Weight(level + 1) == 0
  {
    match level
    case 0 =>
    case 1 => Carry1(ticks);
    case 2 => Carry2(ticks);
    case 3 => Carry3(ticks);
    case 4 => Carry4(ticks);
  }

  lemma Carry1(ticks: nat)
    requires ticks > 0 && ticks % 256 == 0
    ensures ticks / 256 == (ticks - 1) / 256 + 1
    ensures ticks / 256 % 64 == 0 <==> ticks % 16384 == 0
  {
  }

  lemma Carry2(ticks: nat)
    requires ticks > 0 && ticks % 16384 == 0
    ensures ticks / 16384 == (ticks - 1) / 16384 + 1
    ensures ticks / 16384 % 64 == 0 <==> ticks % 1048576 == 0
  {
  }

  lemma Carry3(ticks: nat)
    requires ticks > 0 && ticks % 1048576 == 0
    ensures ticks / 1048576 == (ticks - 1) / 1048576 + 1
    ensures ticks / 1048576 % 64 == 0 <==> ticks % 67108864 == 0
  {
  }

  lemma Carry4(ticks: nat)
    requires ticks > 0 && ticks % 67108864 == 0
    ensures ticks / 67108864 == (ticks - 1) / 67108864 + 1
    ensures ticks / 67108864 % 64 == 0 <==> ticks % TWO_TO_THE_32 == 0
  {
  }

  /** Without a carry into wheel `level`, it and all wheels above it already show the digits of the tick counter. */
  lemma NoCarry(ticks: nat, level: nat, above: Level)
    requires level <= above && ticks > 0 && ticks % Weight(level) != 0
    ensures (ticks - 1) / Weight(above) == ticks / Weight(above)
  {
    if ticks % Weight(above) == 0 {
      Finer(ticks, level, above);
    }
  }

  lemma {:induction false} Finer(ticks: nat, level: nat, above: Level)
    requires level <= above && ticks % Weight(above) == 0
    ensures ticks % Weight(level) == 0
    decreases above
  {
    if level < above {
      FinerByOne(ticks, above - 1);
      Finer(ticks, level, above - 1);
    }
  }

  lemma FinerByOne(ticks: nat, level: nat)
    requires level < 4 && ticks % Weight(level + 1) == 0
    ensures ticks % Weight(level) == 0
  {
    match level
    case 0 =>
    case 1 => Finer1(ticks);
    case 2 => Finer2(ticks);
    case 3 => Finer3(ticks);
  }

  lemma Finer1(ticks: nat)
    requires ticks % 16384 == 0
    ensures ticks % 256 == 0
  {
    var q := ticks / 16384;
    assert ticks == 256 * (64 * q);
  }

  lemma Finer2(ticks: nat)
    requires ticks % 1048576 == 0
    ensures ticks % 16384 == 0
  {
    var q := ticks / 1048576;
    assert ticks == 16384 * (64 * q);
  }

  lemma Finer3(ticks: nat)
    requires ticks % 67108864 == 0
    ensures ticks % 1048576 == 0
  {
    var q := ticks / 67108864;
    assert ticks == 1048576 * (64 * q);
  }
}
