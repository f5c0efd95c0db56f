/** timespec arithmetic and the absolute-deadline schedule (include/rt_utils.hpp, src/motor_thread.cpp). */
module Timing {

  datatype Timespec = Timespec(sec: int, nsec: int) {
    function Total(): int { sec * 1_000_000_000 + nsec }
    predicate Normal() { 0 <= nsec < 1_000_000_000 }
  }

  /** timespec_add_ns. The loop only carries upwards, so the result is normalised exactly when the
      nanosecond field does not go negative. */
  method AddNs(ts: Timespec, ns: int) returns (r: Timespec)
    ensures r.Total() == ts.Total() + ns
    ensures r.Normal() <==> ts.nsec + ns >= 0
    ensures ts.nsec + ns < 1_000_000_000 ==> r.sec == ts.sec
  {
    r := ts.(nsec := ts.nsec + ns);
    while r.nsec >= 1_000_000_000
      invariant r.Total() == ts.Total() + ns
      invariant ts.nsec + ns >= 0 <==> r.nsec >= 0
      invariant r.nsec <= ts.nsec + ns
      invariant ts.nsec + ns < 1_000_000_000 ==> r.sec == ts.sec
      decreases r.nsec
    {
      r := Timespec(r.sec + 1, r.nsec - 1_000_000_000);
    }
  }

  /** timespec_diff_ns works field by field, also when the nanosecond difference is negative. */
  function DiffNs(a: Timespec, b: Timespec): (d: int)
    ensures d == a.Total() - b.Total()
  {
    (a.sec - b.sec) * 1_000_000_000 + (a.nsec - b.nsec)
  }

  /** A normalised timespec is determined by its total: the representation is unique. */
  lemma NormalUnique(a: Timespec, b: Timespec)
    requires a.Normal() && b.Normal() && a.Total() == b.Total()
    ensures a == b
  {
  }

  // ----- the bookkeeping of MotorThread::run -----

  // MOTOR_PERIOD_NS = 2 ms; a period counts as missed above MOTOR_PERIOD_NS * 3 / 2
  const PERIOD: int := 2_000_000

  function Periods(k: int): int { k * 2_000_000 }
  predicate Late(period: int) { period > 3_000_000 }

  function Sum(s: seq<int>): int
  {
    if s == [] then 0 else Sum(s[..|s| - 1]) + s[|s| - 1]
  }

  function LateCount(s: seq<int>): nat
  {
    if s == [] then 0 else LateCount(s[..|s| - 1]) + if Late(s[|s| - 1]) then 1 else 0
  }

  lemma {:induction false} LateBounded(s: seq<int>)
    requires forall i | 0 <= i < |s| :: s[i] >= 0
    ensures LateCount(s) * 3_000_000 <= Sum(s)
    ensures LateCount(s) > 0 ==> LateCount(s) * 3_000_000 < Sum(s)
  {
    if s != [] { LateBounded(s[..|s| - 1]); }
  }

  /** The positions of the periods above 3 ms. */
  function Over3ms(s: seq<int>): set<nat> {
    set i: nat | i < |s| && s[i] > 3_000_000
  }

  /** Every one of them is counted, and nothing else. */
  lemma {:induction false} LateCounted(s: seq<int>)
    ensures LateCount(s) == |Over3ms(s)|
  {
    if s == [] {
      assert Over3ms(s) == {};
    } else {
      var n := |s| - 1;
      LateCounted(s[..n]);
      assert Over3ms(s) == Over3ms(s[..n]) + if s[n] > 3_000_000 then {n} else {};
    }
  }

  /** run()'s locals and statistics, the host clock, and the history they are judged by. */
  class Pacer {
    var now: nat                // CLOCK_MONOTONIC in nanoseconds
    var next: Timespec
    var prevWake: Timespec
    var loopCount: nat
    var lastPeriod: int
    var missed: nat
    ghost var begin: nat        // the clock when run() started
    ghost var periods: seq<int> // every value last_period_ns_ has taken
    ghost var streak: nat       // sleeps interrupted in a row, up to now

    ghost predicate Valid() reads this {
      && now > 0 && next.Normal() && prevWake.Normal()
      && next.Total() == begin + Periods(loopCount)
      && |periods| == loopCount && Sum(periods) == prevWake.Total() - begin
      && missed == LateCount(periods)
      && (forall i | 0 <= i < |periods| :: periods[i] >= 0)
      && begin <= prevWake.Total() <= now
      && begin + Periods(loopCount - streak) <= now
    }

    /** clock_gettime: time has passed since the last reading, but never backwards. */
    method ReadClock() returns (t: Timespec)
      requires Valid()
      modifies this`now
      ensures Valid() && now >= old(now) && t.Normal() && t.Total() == now
    {
      var d: nat :| d >= 0;
      now := now + d;
      t := Timespec(now / 1_000_000_000, now % 1_000_000_000);
    }

    constructor (clock: nat)
      requires clock > 0
      ensures Valid() && loopCount == 0 && missed == 0 && begin == now == clock
      ensures prevWake.Total() == clock && periods == []
    {
      now := clock;
      next := Timespec(clock / 1_000_000_000, clock % 1_000_000_000);
      prevWake := Timespec(clock / 1_000_000_000, clock % 1_000_000_000);
      loopCount, lastPeriod, missed := 0, 0, 0;
      begin, periods, streak := clock, [], 0;
    }

    /** The end of one cycle: measure the period, count, and sleep to the next absolute deadline. */
    method EndCycle()
      requires Valid()
      modifies this
      ensures Valid() && begin == old(begin) && loopCount == old(loopCount) + 1 && now >= old(now)
      ensures periods == old(periods) + [lastPeriod] && lastPeriod == prevWake.Total() - old(prevWake.Total())
      ensures old(now) <= prevWake.Total() <= now
      ensures streak == 0 || streak == old(streak) + 1
    {
      Measure();
      next := AddNs(next, 2_000_000);
      loopCount := loopCount + 1;
      Sleep();
    }

    /** Everything but the deadline: last_period_ns_, prev_wake and missed_deadlines_. */
    method Measure()
      requires Valid()
      modifies this`now, this`lastPeriod, this`prevWake, this`missed, this`periods
      ensures now >= old(now) && prevWake.Normal() && prevWake.Total() == now
      ensures lastPeriod == now - old(prevWake.Total()) >= 0
      ensures periods == old(periods) + [lastPeriod] && missed == LateCount(periods)
      ensures Sum(periods) == now - begin
    {
      var t := ReadClock();
      lastPeriod := DiffNs(t, prevWake);
      prevWake := t;
      if lastPeriod > PERIOD * 3 / 2 { missed := missed + 1; }
      periods := periods + [lastPeriod];
      assert periods[..|periods| - 1] == old(periods);
    }

    /** clock_nanosleep to an absolute time: it wakes no earlier, unless a signal interrupts it. */
    method Sleep()
      requires now > 0
      modifies this`now, this`streak
      ensures now >= old(now)
      ensures (streak == 0 && now >= next.Total()) || streak == old(streak) + 1
    {
      var d: nat :| d >= 0;
      var interrupted: bool := *;
      if interrupted {
        now, streak := now + d, streak + 1;
      } else {
        now := (if now < next.Total() then next.Total() else now) + d;
        streak := 0;
      }
    }

    /** No drift and honest statistics, at the top of every iteration. */
    lemma ScheduleHolds()
      requires Valid()
      ensures next.Total() == begin + Periods(loopCount)
      ensures loopCount <= streak + (now - begin) / 2_000_000
      ensures missed * 3_000_000 <= now - begin && missed == |Over3ms(periods)|
    {
      LateCounted(periods);
      LateBounded(periods);
    }
  }
}
