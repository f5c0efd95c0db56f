/**
 What the operations of apps/position_read.cpp may put on the bus, as predicates over the frames
 exchanged, and what those frames imply.
 */
module HoldFrames {
  import opened Util
  import opened Codec
  import opened Wire
  import opened HoldTrace
  import opened Hold
  import opened Polling

  predicate SameKeys(a: seq<Motor>, b: seq<Motor>) {
    |a| == |b| && forall i | 0 <= i < |a| :: a[i].ch == b[i].ch && a[i].id == b[i].id
  }

  predicate AllSameControl(a: seq<Motor>, b: seq<Motor>) {
    |a| == |b| && forall i | 0 <= i < |a| ::
      a[i].ch == b[i].ch && a[i].id == b[i].id && a[i].enabled == b[i].enabled && a[i].hold == b[i].hold
  }

  /** Frames received on one channel, applied in order. */
  function Replay(cfg: Config, motors: seq<Motor>, events: seq<Event>): (after: seq<Motor>)
    ensures |after| == |motors|
  {
    if events == [] then motors
    else
      var before := Replay(cfg, motors, events[..|events| - 1]);
      match events[|events| - 1]
      case Rx(ch, m) => Apply(cfg, before, ch, m)
      case Tx(_, _, _, _) => before
  }

  function Join4(parts: seq<seq<Event>>): seq<Event>
    requires |parts| == 4
  {
    parts[0] + parts[1] + parts[2] + parts[3]
  }

  predicate FramesFrom(events: seq<Event>, ch: nat) {
    forall k | 0 <= k < |events| :: events[k].Rx? && events[k].ch == ch
  }

  /** The frame reports a position of motor id. */
  predicate Names(cfg: Config, e: Event, id: Byte) {
    e.Rx? && Reported(cfg, e.msg).Some? && Reported(cfg, e.msg).value.0 == id
  }

  predicate Silent(cfg: Config, events: seq<Event>, id: Byte) {
    forall k | 0 <= k < |events| :: !Names(cfg, events[k], id)
  }

  /** Open channels below n were read until a read delivered nothing or 256 frames were taken; the
      rest were left alone. */
  predicate Emptied(open: seq<bool>, drained: seq<seq<Event>>, before: seq<nat>, after: seq<nat>, n: nat) {
    && |open| == |drained| == |before| == |after| == 4
    && forall c | 0 <= c < 4 ::
      && FramesFrom(drained[c], c) && |drained[c]| <= 256
      && (if c < n && open[c] then after[c] == before[c] + (if |drained[c]| == 256 then 0 else 1)
          else drained[c] == [] && after[c] == before[c])
  }

  lemma NothingDrained(cfg: Config, motors: seq<Motor>, open: seq<bool>, refusals: seq<nat>)
    requires |open| == |refusals| == 4
    ensures var none := [[], [], [], []];
            Emptied(open, none, refusals, refusals, 0) && Join4(none) == [] && Replay(cfg, motors, []) == motors
  {
  }

  lemma EmptiedStep(open: seq<bool>, drained: seq<seq<Event>>, before: seq<nat>, mid: seq<nat>, after: seq<nat>, n: nat,
                    events: seq<Event>)
    requires Emptied(open, drained, before, mid, n) && n < 4 && FramesFrom(events, n) && |events| <= 256
    requires open[n] && after == if |events| == 256 then mid else mid[n := mid[n] + 1]
    ensures Emptied(open, drained[n := events], before, after, n + 1)
    ensures Join4(drained[n := events]) == Join4(drained) + events
  {
    assert drained[n] == [];
    assert forall c | n <= c < 4 :: drained[c] == [];
  }

  lemma EmptiedSkip(open: seq<bool>, drained: seq<seq<Event>>, before: seq<nat>, after: seq<nat>, n: nat)
    requires Emptied(open, drained, before, after, n) && n < 4 && !open[n]
    ensures Emptied(open, drained, before, after, n + 1)
  {
  }

  /** The frames of one refresh: the request, then frames that do not report the motor, then, when it
      succeeds, the one that does. */
  predicate Refresh(cfg: Config, ch: nat, id: Byte, events: seq<Event>, ok: bool) {
    var last := |events| - if ok then 1 else 0;
    && last >= 1 && Attempts(events[0], ch, id, ReadMechPos) && (!events[0].ok ==> |events| == 1)
    && FramesFrom(events[1..last], ch) && Silent(cfg, events[1..last], id)
    && (ok ==> events[last].Rx? && events[last].ch == ch && Names(cfg, events[last], id))
  }

  /** The motor's own position was received, then STOP and MIT mode were accepted. */
  predicate Primable(cfg: Config, log: seq<Event>, ch: nat, id: Byte, q: Float) {
    var n := |log|;
    && n >= 3 && log[n - 1] == Tx(ch, id, SetRunMode(MODE_MIT), true) && log[n - 2] == Tx(ch, id, Stop, true)
    && InMitRange(q) && Reports(cfg, log[n - 3], ch, id, q)
  }

  lemma Primed(cfg: Config, log: seq<Event>, ch: nat, id: Byte, q: Float)
    requires Primable(cfg, log, ch, id, q)
    ensures HoldTarget(cfg, log, ch, id, q)
    ensures var l := log + [Tx(ch, id, HoldCommand(cfg, q), true)];
            HoldTarget(cfg, l, ch, id, q) && forall ok :: Permitted(cfg, l, Tx(ch, id, Enable, ok))
  {
    var n := |log|;
    Stopped(log[..n - 2], ch, id);
    assert log == log[..n - 2] + [log[n - 2]] + [log[n - 1]];
    Unaffected(cfg, log[..n - 2] + [log[n - 2]], log[n - 1], ch, id);
    Unaffected(cfg, log, Tx(ch, id, HoldCommand(cfg, q), true), ch, id);
  }

  /** The priming frame, then ENABLE; whichever is refused is followed by a STOP attempt. */
  predicate PrimeFrames(cfg: Config, ch: nat, id: Byte, hold: Float, tail: seq<Event>, on: bool) {
    && 2 <= |tail| <= 3 && tail[0] == Tx(ch, id, HoldCommand(cfg, hold), on || |tail| == 3)
    && (if on then |tail| == 2 && tail[1] == Tx(ch, id, Enable, true)
        else Attempts(tail[|tail| - 1], ch, id, Stop) && (|tail| == 3 ==> tail[1] == Tx(ch, id, Enable, false)))
  }

  /** STOP, MIT mode, priming frame, ENABLE: the first refusal ends it. */
  predicate SwitchOnFrames(cfg: Config, ch: nat, id: Byte, hold: Float, tail: seq<Event>, on: bool) {
    var n := |tail|;
    && n >= 1 && tail[0] == Tx(ch, id, Stop, n > 1)
    && (n > 1 ==> tail[1] == Tx(ch, id, SetRunMode(MODE_MIT), n > 2))
    && (if n > 2 then PrimeFrames(cfg, ch, id, hold, tail[2..], on) else !on)
  }

  /** The frames of one enable_selected_motor: the refresh and, exactly when it read a position of
      the MIT range, the switching on with that position as the target. */
  predicate EnableFrames(cfg: Config, m: Motor, asked: seq<Event>, tail: seq<Event>) {
    && Refreshed(cfg, m, asked)
    && (if Names(cfg, asked[|asked| - 1], m.id) && InMitRange(Reported(cfg, asked[|asked| - 1].msg).value.1) then
          && SwitchOnFrames(cfg, m.ch, m.id, m.hold, tail, m.enabled)
          && m.hold == Reported(cfg, asked[|asked| - 1].msg).value.1
        else tail == [] && !m.enabled)
  }

  /** One refresh of this motor, whether it succeeded or not. */
  predicate Refreshed(cfg: Config, m: Motor, events: seq<Event>) {
    events != [] && Refresh(cfg, m.ch, m.id, events, Names(cfg, events[|events| - 1], m.id))
  }

  /** Whether a refresh succeeded can be read off its last frame. */
  lemma RefreshDecided(cfg: Config, m: Motor, events: seq<Event>, ok: bool)
    requires events != [] && Refresh(cfg, m.ch, m.id, events, ok)
    ensures Refreshed(cfg, m, events)
  {
    var last := |events| - 1;
    if !ok && last > 0 { assert events[1..|events|][last - 1] == events[last]; }
  }

  /** The first motors of the list, refreshed one after the other. */
  ghost predicate InTurn(cfg: Config, motors: seq<Motor>, parts: seq<seq<Event>>) {
    |parts| <= |motors| && forall k | 0 <= k < |parts| :: Refreshed(cfg, motors[k], parts[k])
  }

  lemma NotSwitchedOn(cfg: Config, m: Motor, asked: seq<Event>, ok: bool, p: Float)
    requires Refresh(cfg, m.ch, m.id, asked, ok) && !m.enabled
    requires ok ==> Reports(cfg, asked[|asked| - 1], m.ch, m.id, p) && !InMitRange(p)
    ensures EnableFrames(cfg, m, asked, [])
  {
    RefreshDecided(cfg, m, asked, ok);
  }

  lemma SwitchedOn(cfg: Config, m: Motor, asked: seq<Event>, tail: seq<Event>)
    requires Refresh(cfg, m.ch, m.id, asked, true) && InMitRange(m.hold)
    requires Reports(cfg, asked[|asked| - 1], m.ch, m.id, m.hold)
    requires SwitchOnFrames(cfg, m.ch, m.id, m.hold, tail, m.enabled)
    ensures EnableFrames(cfg, m, asked, tail)
  {
    hide SwitchOnFrames, InMitRange;
  }

  /** What the hold round sends to one motor, before it as b and after it as a: nothing when it is off;
      its target; or, when that is refused, one STOP attempt, and the motor is off. */
  predicate HoldStep(cfg: Config, b: Motor, a: Motor, frames: seq<Event>) {
    if !b.enabled then a == b && frames == []
    else if a == b then frames == [Tx(b.ch, b.id, HoldCommand(cfg, b.hold), true)]
    else
      && a == b.(enabled := false) && |frames| == 2
      && frames[0] == Tx(b.ch, b.id, HoldCommand(cfg, b.hold), false) && Attempts(frames[1], b.ch, b.id, Stop)
  }

  /** One hold round: every motor's step in turn. */
  ghost predicate HoldRound(cfg: Config, before: seq<Motor>, after: seq<Motor>, events: seq<Event>)
    requires |before| == |after|
  {
    if before == [] then events == []
    else
      var n := |before| - 1;
      exists p | 0 <= p <= |events| ::
        HoldRound(cfg, before[..n], after[..n], events[..p]) && HoldStep(cfg, before[n], after[n], events[p..])
  }

  lemma HoldRoundSnoc(cfg: Config, before: seq<Motor>, after: seq<Motor>, events: seq<Event>, frames: seq<Event>)
    requires |before| == |after| > 0
    requires HoldRound(cfg, before[..|before| - 1], after[..|after| - 1], events)
    requires HoldStep(cfg, before[|before| - 1], after[|after| - 1], frames)
    ensures HoldRound(cfg, before, after, events + frames)
  {
    assert (events + frames)[..|events|] == events && (events + frames)[|events|..] == frames;
  }

  /** The exit: one STOP attempt per enabled motor, in order, and nothing else. */
  predicate StopRound(motors: seq<Motor>, events: seq<Event>) {
    if motors == [] then events == []
    else
      var n := |motors| - 1;
      if motors[n].enabled then
        |events| >= 1 && Attempts(events[|events| - 1], motors[n].ch, motors[n].id, Stop)
        && StopRound(motors[..n], events[..|events| - 1])
      else StopRound(motors[..n], events)
  }

  function AllOff(motors: seq<Motor>): (off: seq<Motor>)
    ensures |off| == |motors|
  {
    if motors == [] then [] else AllOff(motors[..|motors| - 1]) + [motors[|motors| - 1].(enabled := false)]
  }

  /** Exactly one of the exit's frames concerns an enabled motor. */
  lemma {:induction false} StopRoundFrame(motors: seq<Motor>, events: seq<Event>, t: nat) returns (k: nat)
    requires Sorted(motors) && StopRound(motors, events) && t < |motors| && motors[t].enabled
    ensures k < |events|
    ensures forall j | 0 <= j < |events| :: Attempts(events[j], motors[t].ch, motors[t].id, Stop) <==> j == k
  {
    var n := |motors| - 1;
    if t < n {
      DistinctKeys(motors, t, n);
      k := StopRoundFrame(motors[..n], if motors[n].enabled then events[..|events| - 1] else events, t);
    } else {
      k := |events| - 1;
      StopRoundOthers(motors[..n], events[..k], motors[t].ch, motors[t].id) by {
        forall i | 0 <= i < n ensures motors[i].ch != motors[t].ch || motors[i].id != motors[t].id {
          DistinctKeys(motors, i, t);
        }
      }
    }
  }

  lemma {:induction false} StopRoundOthers(motors: seq<Motor>, events: seq<Event>, ch: nat, id: Byte)
    requires StopRound(motors, events)
    requires forall i | 0 <= i < |motors| :: motors[i].ch != ch || motors[i].id != id
    ensures forall j | 0 <= j < |events| :: !Attempts(events[j], ch, id, Stop)
  {
    if motors != [] {
      var n := |motors| - 1;
      StopRoundOthers(motors[..n], if motors[n].enabled then events[..|events| - 1] else events, ch, id);
    }
  }

  lemma {:induction false} StopRoundNoEnable(motors: seq<Motor>, events: seq<Event>)
    requires StopRound(motors, events)
    ensures forall j | 0 <= j < |events| :: events[j].Tx? && events[j].cmd == Stop
  {
    if motors != [] {
      var n := |motors| - 1;
      StopRoundNoEnable(motors[..n], if motors[n].enabled then events[..|events| - 1] else events);
    }
  }

  /** Frames other than ENABLE leave a motor armed exactly until one of them is an accepted STOP to it. */
  lemma {:induction false} ArmedUntilStopped(log: seq<Event>, events: seq<Event>, ch: nat, id: Byte)
    requires forall j | 0 <= j < |events| :: !Attempts(events[j], ch, id, Enable)
    ensures Armed(log + events, ch, id) <==> Armed(log, ch, id) && Tx(ch, id, Stop, true) !in events
    decreases |events|
  {
    if events == [] {
      assert log + events == log;
    } else {
      var n := |events| - 1;
      ArmedUntilStopped(log, events[..n], ch, id);
      assert (log + events)[..|log + events| - 1] == log + events[..n];
      assert events == events[..n] + [events[n]];
    }
  }

  /** The exit sends nothing to a motor that was off. */
  lemma {:induction false} StopRoundSkips(motors: seq<Motor>, events: seq<Event>, t: nat)
    requires Sorted(motors) && StopRound(motors, events) && t < |motors| && !motors[t].enabled
    ensures forall j | 0 <= j < |events| :: !Attempts(events[j], motors[t].ch, motors[t].id, Stop)
  {
    var n := |motors| - 1;
    if t < n {
      DistinctKeys(motors, t, n);
      StopRoundSkips(motors[..n], if motors[n].enabled then events[..|events| - 1] else events, t);
    } else {
      StopRoundOthers(motors[..n], events, motors[t].ch, motors[t].id) by {
        forall i | 0 <= i < n ensures motors[i].ch != motors[t].ch || motors[i].id != motors[t].id {
          DistinctKeys(motors, i, t);
        }
      }
    }
  }

  /**
   Does the exit leave motor t armed? If it was on: the bus refused the one STOP frame the exit sent it.
   If it was off: since its last accepted ENABLE a hold frame was refused, and every STOP as well.
   */
  ghost predicate LeftArmed(on: seq<Motor>, seen: seq<Event>, stops: seq<Event>, t: nat)
    requires t < |on|
  {
    if on[t].enabled then Tx(on[t].ch, on[t].id, Stop, false) in stops
    else exists p: nat, q: nat :: StrandedBy(seen, on[t].ch, on[t].id, p, q)
  }

  /** Quitting, exactly, for one motor. */
  lemma ExitStops(cfg: Config, on: seq<Motor>, seen: seq<Event>, stops: seq<Event>, t: nat)
    requires Safe(cfg, on, seen, true) && StopRound(on, stops) && t < |on|
    ensures Armed(seen + stops, on[t].ch, on[t].id) <==> LeftArmed(on, seen, stops, t)
  {
    var ch, id := on[t].ch, on[t].id;
    StopRoundNoEnable(on, stops);
    assert MotorSafe(cfg, on[t], seen, true);
    ArmedUntilStopped(seen, stops, ch, id);
    hide Safe, StopRound;
    StrandedMeaning(seen, ch, id);
    if on[t].enabled {
      var k := StopRoundFrame(on, stops, t);
      assert stops[k] == Tx(ch, id, Stop, stops[k].ok);
    } else {
      StopRoundSkips(on, stops, t);
    }
  }

  /**
   Quitting, exactly, for the whole bus: the motors of the list that LeftArmed names are armed after the
   exit, and no other ID on any channel is.
   */
  lemma ExitExactly(cfg: Config, on: seq<Motor>, seen: seq<Event>, stops: seq<Event>)
    requires Safe(cfg, on, seen, true) && StopRound(on, stops)
    ensures forall t | 0 <= t < |on| :: Armed(seen + stops, on[t].ch, on[t].id) <==> LeftArmed(on, seen, stops, t)
    ensures NoStranger(on, seen + stops)
  {
    forall t | 0 <= t < |on|
      ensures Armed(seen + stops, on[t].ch, on[t].id) <==> LeftArmed(on, seen, stops, t)
    {
      ExitStops(cfg, on, seen, stops, t);
    }
    StopRoundNoEnable(on, stops);
    forall ch: nat, id: Byte | Armed(seen + stops, ch, id) ensures Listed(on, ch, id) {
      ArmedUntilStopped(seen, stops, ch, id);
    }
  }

  lemma HoldRoundStart(cfg: Config, was: seq<Motor>)
    ensures HoldRound(cfg, was[..0], was[..0], [])
  {
  }

  lemma StaysOff(cfg: Config, m: Motor)
    requires !m.enabled
    ensures HoldStep(cfg, m, m, [])
  {
  }

  lemma HoldRoundExtend(cfg: Config, was: seq<Motor>, mid: seq<Motor>, now: seq<Motor>, events: seq<Event>,
                        frames: seq<Event>, i: nat)
    requires |was| == |mid| == |now| && i < |was| && HoldRound(cfg, was[..i], mid[..i], events)
    requires mid[i..] == was[i..] && now == mid[i := now[i]] && HoldStep(cfg, mid[i], now[i], frames)
    ensures HoldRound(cfg, was[..i + 1], now[..i + 1], events + frames) && now[i + 1..] == was[i + 1..]
  {
    assert mid[i..][0] == was[i..][0];
    assert was[..i + 1][..i] == was[..i] && now[..i + 1][..i] == mid[..i];
    HoldRoundSnoc(cfg, was[..i + 1], now[..i + 1], events, frames);
    assert now[i + 1..] == mid[i..][1..] == was[i..][1..] == was[i + 1..];
  }

  lemma StopRoundStart(was: seq<Motor>)
    ensures StopRound(was[..0], []) && was == AllOff(was[..0]) + was[0..]
  {
  }

  lemma StopRoundExtend(was: seq<Motor>, mid: seq<Motor>, now: seq<Motor>, events: seq<Event>, frames: seq<Event>, i: nat)
    requires |was| == |mid| == |now| && i < |was| && StopRound(was[..i], events)
    requires mid == AllOff(was[..i]) + was[i..]
    requires now == if mid[i].enabled then SwitchedOff(mid, i) else mid
    requires if mid[i].enabled then |frames| == 1 && Attempts(frames[0], mid[i].ch, mid[i].id, Stop) else frames == []
    ensures StopRound(was[..i + 1], events + frames) && now == AllOff(was[..i + 1]) + was[i + 1..]
  {
    AllOffExtend(was, mid, now, i);
    hide AllOff, Attempts;
    assert mid[i] == was[i] && was[..i + 1][..i] == was[..i];
    if was[i].enabled {
      assert (events + frames)[..|events + frames| - 1] == events;
    } else {
      assert events + frames == events;
    }
  }

  lemma AllOffSnoc(was: seq<Motor>, i: nat)
    requires i < |was|
    ensures AllOff(was[..i + 1]) == AllOff(was[..i]) + [was[i].(enabled := false)] && |AllOff(was[..i])| == i
  {
    assert was[..i + 1][..i] == was[..i];
  }

  lemma AllOffExtend(was: seq<Motor>, mid: seq<Motor>, now: seq<Motor>, i: nat)
    requires |was| == |mid| == |now| && i < |was| && mid == AllOff(was[..i]) + was[i..]
    requires now == if mid[i].enabled then SwitchedOff(mid, i) else mid
    ensures mid[i] == was[i] && now == AllOff(was[..i + 1]) + was[i + 1..]
  {
    hide AllOff;
    var off := was[i].(enabled := false);
    AllOffSnoc(was, i);
    assert was[i..] == [was[i]] + was[i + 1..];
    assert now[i] == off && now == mid[i := off];
    assert mid[i := off] == AllOff(was[..i]) + ([off] + was[i + 1..]);
  }

  lemma {:induction false} HoldRoundKeysAll(cfg: Config, before: seq<Motor>, after: seq<Motor>, events: seq<Event>)
    requires |before| == |after| && HoldRound(cfg, before, after, events)
    ensures SameKeys(before, after)
  {
    if before != [] {
      var n := |before| - 1;
      var p :| 0 <= p <= |events| && HoldRound(cfg, before[..n], after[..n], events[..p])
               && HoldStep(cfg, before[n], after[n], events[p..]);
      HoldRoundKeysAll(cfg, before[..n], after[..n], events[..p]);
      forall i | 0 <= i < |before| ensures after[i].ch == before[i].ch && after[i].id == before[i].id {
        if i < n { assert before[..n][i] == before[i] && after[..n][i] == after[i]; }
      }
    }
  }

  lemma HoldRoundKeys(cfg: Config, before: seq<Motor>, after: seq<Motor>, events: seq<Event>, done: nat)
    requires |before| == |after| && done <= |before|
    requires HoldRound(cfg, before[..done], after[..done], events) && after[done..] == before[done..]
    ensures SameKeys(before, after)
  {
    HoldRoundKeysAll(cfg, before[..done], after[..done], events);
    forall i | 0 <= i < |before| ensures after[i].ch == before[i].ch && after[i].id == before[i].id {
      if i < done {
        assert before[..done][i] == before[i] && after[..done][i] == after[i];
      } else {
        assert before[done..][i - done] == before[i] && after[done..][i - done] == after[i];
      }
    }
  }

  lemma SameControlKeys(a: seq<Motor>, b: seq<Motor>)
    requires AllSameControl(a, b)
    ensures SameKeys(a, b)
  {
  }

  lemma SameKeysTrans(a: seq<Motor>, b: seq<Motor>, c: seq<Motor>)
    requires SameKeys(a, b) && SameKeys(b, c)
    ensures SameKeys(a, c)
  {
  }

  lemma {:induction false} AllOffKeys(motors: seq<Motor>)
    ensures SameKeys(motors, AllOff(motors)) && forall i | 0 <= i < |motors| :: !AllOff(motors)[i].enabled
  {
    if motors != [] { AllOffKeys(motors[..|motors| - 1]); }
  }

  lemma NonePending(cfg: Config, motors: seq<Motor>, log: seq<Event>)
    requires Safe(cfg, motors, log, false) && forall i | 0 <= i < |motors| :: !motors[i].enabled
    ensures forall ch: nat, id: Byte :: !Pending(log, ch, id)
  {
    forall ch: nat, id: Byte ensures !Pending(log, ch, id) {
      assert !Running(motors, ch, id);
    }
  }

  // ----- whole ticks -----

  datatype Key = NoKey | Up | Down | Toggle | Quit

  /** The selection after a key, modulo the number of motors. */
  function Select(key: Key, selected: nat, n: nat): nat {
    if n == 0 then selected
    else
      match key
      case Up => Slot(selected, n - 1, n)
      case Down => Slot(selected, 1, n)
      case _ => selected
  }

  /** Up is one before and Down one after, round the ends; nothing else moves the selection. */
  lemma SelectMoves(key: Key, selected: nat, n: nat)
    requires selected < n
    ensures Select(Up, selected, n) == if selected == 0 then n - 1 else selected - 1
    ensures Select(Down, selected, n) == if selected == n - 1 then 0 else selected + 1
    ensures key != Up && key != Down ==> Select(key, selected, n) == selected
  {
    Divides(if selected == 0 then 0 else 1, if selected == 0 then n - 1 else selected - 1, n, selected + (n - 1));
    Divides(if selected == n - 1 then 1 else 0, if selected == n - 1 then 0 else selected + 1, n, selected + 1);
  }

  /** What a key does: only a toggle sends frames, to the selected motor; it alone may change sides. */
  ghost predicate KeyStep(cfg: Config, key: Key, selected: nat, before: seq<Motor>, typed: seq<Event>, after: seq<Motor>) {
    if key != Toggle || before == [] then typed == [] && after == before
    else
      && selected < |before| == |after|
      && (forall i | 0 <= i < |before| && i != selected ::
            after[i].enabled == before[i].enabled && after[i].hold == before[i].hold)
      && if before[selected].enabled then
           && |typed| == 1 && Attempts(typed[0], before[selected].ch, before[selected].id, Stop)
           && after == if typed[0].ok then SwitchedOff(before, selected) else before
         else
           exists asked, tail :: typed == asked + tail && Toggled(cfg, selected, before, asked, tail, after)
  }

  /** Switching on: the frames exchanged, every frame received processed, and then the motor's flag and target. */
  ghost predicate Toggled(cfg: Config, selected: nat, before: seq<Motor>, asked: seq<Event>, tail: seq<Event>, after: seq<Motor>)
    requires selected < |before| == |after|
  {
    && EnableFrames(cfg, after[selected], asked, tail)
    && after == WithControl(Replay(cfg, before, asked), selected, after[selected])
  }

  /** The motors, except that one has this flag and target. */
  function WithControl(motors: seq<Motor>, i: nat, m: Motor): seq<Motor>
    requires i < |motors|
  {
    motors[i := motors[i].(enabled := m.enabled, hold := m.hold)]
  }

  /** The rest of a tick: hold frames, the motors after them, the cursors, the poll, the frames drained, and
      how many reads of each channel had delivered nothing before and after the drain. */
  datatype Service = Service(held: seq<Event>, mid: seq<Motor>, cursors: seq<nat>, parts: seq<seq<Event>>,
                             drained: seq<seq<Event>>, idle: seq<nat>, idleAfter: seq<nat>)

  function ServiceFrames(s: Service): seq<Event> { s.held + Flatten(s.parts) + Flatten(s.drained) }

  ghost predicate ServeStep(cfg: Config, open: seq<bool>, tick: nat, before: seq<Motor>, s: Service, after: seq<Motor>) {
    && |before| == |s.mid| && HoldRound(cfg, before, s.mid, s.held)
    && (if tick % 5 == 0 then PollAsked(s.mid, open, s.cursors, s.parts) else s.parts == [])
    && Emptied(open, s.drained, s.idle, s.idleAfter, 4) && after == Replay(cfg, s.mid, Flatten(s.drained))
  }

  lemma WholeRound(cfg: Config, before: seq<Motor>, after: seq<Motor>, held: seq<Event>)
    requires |before| == |after| && HoldRound(cfg, before[..|before|], after[..|after|], held)
    ensures HoldRound(cfg, before, after, held)
  {
    assert before[..|before|] == before && after[..|after|] == after;
  }

  lemma DrainedFrames(open: seq<bool>, drained: seq<seq<Event>>, before: seq<nat>, after: seq<nat>)
    requires Emptied(open, drained, before, after, 4)
    ensures Join4(drained) == Flatten(drained)
  {
    assert drained[..3][..2] == drained[..2] && drained[..2][..1] == drained[..1];
    assert Flatten(drained[..1]) == drained[0];
    assert Flatten(drained[..2]) == drained[0] + drained[1];
    assert Flatten(drained[..3]) == drained[0] + drained[1] + drained[2];
  }

  datatype Tick = Tick(key: Key, selected: nat, before: seq<Motor>, typed: seq<Event>, toggled: seq<Motor>, service: Service)

  ghost predicate TickStep(cfg: Config, open: seq<bool>, n: nat, t: Tick, end: seq<Motor>, sel: nat) {
    && KeyStep(cfg, t.key, t.selected, t.before, t.typed, t.toggled)
    && ServeStep(cfg, open, n, t.toggled, t.service, end) && sel == Select(t.key, t.selected, |t.before|)
  }

  /** Complete ticks in a row, from the motors at the start to those at the end, with the selection. */
  ghost predicate Trace(cfg: Config, open: seq<bool>, start: seq<Motor>, ticks: seq<Tick>, end: seq<Motor>, sel: nat)
    decreases |ticks|
  {
    if ticks == [] then end == start && sel == 0
    else
      var n := |ticks| - 1;
      var t := ticks[n];
      Trace(cfg, open, start, ticks[..n], t.before, t.selected) && TickStep(cfg, open, n, t, end, sel)
  }

  /** Everything those ticks put on the bus or took from it. */
  function History(ticks: seq<Tick>): seq<Event> {
    if ticks == [] then []
    else History(ticks[..|ticks| - 1]) + ticks[|ticks| - 1].typed + ServiceFrames(ticks[|ticks| - 1].service)
  }

  lemma TraceStart(cfg: Config, open: seq<bool>, start: seq<Motor>)
    ensures Trace(cfg, open, start, [], start, 0) && History([]) == [] && SameKeys(start, start)
  {
  }

  lemma TraceSnoc(cfg: Config, open: seq<bool>, start: seq<Motor>, ticks: seq<Tick>, t: Tick, end: seq<Motor>, sel: nat)
    requires Trace(cfg, open, start, ticks, t.before, t.selected)
    requires TickStep(cfg, open, |ticks|, t, end, sel)
    ensures Trace(cfg, open, start, ticks + [t], end, sel)
    ensures History(ticks + [t]) == History(ticks) + t.typed + ServiceFrames(t.service)
  {
    assert (ticks + [t])[..|ticks|] == ticks && (ticks + [t])[|ticks|] == t;
  }

  // ----- the polls of the ticks -----

  /** What tick n adds to the polls: every fifth one adds its motors after the hold round, and what it asked. */
  predicate PollAdds(n: nat, s: Service, asks: seq<seq<seq<Event>>>, now: seq<seq<seq<Event>>>,
                     was: seq<seq<Motor>>, polls: seq<seq<Motor>>)
  {
    if n % 5 == 0 then polls == was + [s.mid] && now == asks + [s.parts] else polls == was && now == asks
  }

  /** Poll t is tick 5t's, made from where all the polls before it left the cursors. */
  predicate TickPolled(ticks: seq<Tick>, asks: seq<seq<seq<Event>>>, polls: seq<seq<Motor>>, open: seq<bool>, t: nat)
    requires |open| == 4
  {
    5 * t < |ticks| ==>
      && t < |polls| && t < |asks|
      && polls[t] == ticks[5 * t].service.mid && asks[t] == ticks[5 * t].service.parts
      && ticks[5 * t].service.cursors == CursorsAt(polls, open, t)
  }

  ghost predicate PollsOfTicks(ticks: seq<Tick>, asks: seq<seq<seq<Event>>>, polls: seq<seq<Motor>>, open: seq<bool>)
    requires |open| == 4
  {
    forall t: nat :: TickPolled(ticks, asks, polls, open, t)
  }

  lemma NoTicksNoPolls(asks: seq<seq<seq<Event>>>, polls: seq<seq<Motor>>, open: seq<bool>)
    requires |open| == 4
    ensures PollsOfTicks([], asks, polls, open)
  {
  }

  /** More polls, of a tick that an exception cut short, change nothing. */
  lemma PollsOfTicksMore(ticks: seq<Tick>, asks: seq<seq<seq<Event>>>, now: seq<seq<seq<Event>>>,
                         was: seq<seq<Motor>>, polls: seq<seq<Motor>>, open: seq<bool>)
    requires |open| == 4 && PollsOfTicks(ticks, asks, was, open) && asks <= now && was <= polls
    ensures PollsOfTicks(ticks, now, polls, open)
  {
    forall t: nat ensures TickPolled(ticks, now, polls, open, t) {
      assert TickPolled(ticks, asks, was, open, t);
      if t < |was| { CursorsAtPrefix(was, polls, open, t); }
    }
  }

  lemma PollsOfTicksSnoc(ticks: seq<Tick>, k: Tick, asks: seq<seq<seq<Event>>>, now: seq<seq<seq<Event>>>,
                         was: seq<seq<Motor>>, polls: seq<seq<Motor>>, open: seq<bool>)
    requires |open| == 4 && PollsOfTicks(ticks, asks, was, open) && |asks| == |was| == (|ticks| + 4) / 5
    requires PollAdds(|ticks|, k.service, asks, now, was, polls) && k.service.cursors == CursorsAt(was, open, |was|)
    ensures PollsOfTicks(ticks + [k], now, polls, open) && |now| == |polls| == (|ticks| + 5) / 5
  {
    hide CursorsAt;
    PollsOfTicksMore(ticks, asks, now, was, polls, open);
    forall t: nat ensures TickPolled(ticks + [k], now, polls, open, t) {
      assert TickPolled(ticks, now, polls, open, t);
      if 5 * t == |ticks| { CursorsAtPrefix(was, polls, open, t); }
    }
  }

  /** A tick that ran to its end adds itself to the trace and to the polls. */
  lemma TickDone(cfg: Config, open: seq<bool>, start: seq<Motor>, ticks: seq<Tick>, k: Tick, end: seq<Motor>, sel: nat,
                 asks: seq<seq<seq<Event>>>, now: seq<seq<seq<Event>>>, was: seq<seq<Motor>>, polls: seq<seq<Motor>>)
    requires Trace(cfg, open, start, ticks, k.before, k.selected) && TickStep(cfg, open, |ticks|, k, end, sel)
    requires |open| == 4 && PollsOfTicks(ticks, asks, was, open) && |asks| == |was| == (|ticks| + 4) / 5
    requires PollAdds(|ticks|, k.service, asks, now, was, polls) && k.service.cursors == CursorsAt(was, open, |was|)
    ensures Trace(cfg, open, start, ticks + [k], end, sel)
    ensures History(ticks + [k]) == History(ticks) + k.typed + ServiceFrames(k.service)
    ensures PollsOfTicks(ticks + [k], now, polls, open) && |now| == |polls| == (|ticks| + 5) / 5
  {
    hide CursorsAt, Trace, TickStep, History, ServiceFrames, PollsOfTicks, PollAdds;
    TraceSnoc(cfg, open, start, ticks, k, end, sel);
    PollsOfTicksSnoc(ticks, k, asks, now, was, polls, open);
  }

  /** Tick n of a trace is a step. */
  lemma {:induction false} TickOf(cfg: Config, open: seq<bool>, start: seq<Motor>, ticks: seq<Tick>, end: seq<Motor>,
                                  sel: nat, n: nat) returns (after: seq<Motor>, next: nat)
    requires Trace(cfg, open, start, ticks, end, sel) && n < |ticks|
    ensures TickStep(cfg, open, n, ticks[n], after, next)
    decreases |ticks|
  {
    var last := |ticks| - 1;
    if n == last {
      after, next := end, sel;
    } else {
      after, next := TickOf(cfg, open, start, ticks[..last], ticks[last].before, ticks[last].selected, n);
    }
  }

  /** Frame k of tick n stands in the history, after all earlier ticks. */
  lemma {:induction false} InHistory(ticks: seq<Tick>, n: nat, k: nat) returns (p: nat)
    requires n < |ticks| && k < |ticks[n].typed + ServiceFrames(ticks[n].service)|
    ensures p == |History(ticks[..n])| + k < |History(ticks[..n + 1])| <= |History(ticks)|
    ensures |History(ticks[..n + 1])| == |History(ticks[..n])| + |ticks[n].typed + ServiceFrames(ticks[n].service)|
    ensures History(ticks)[p] == (ticks[n].typed + ServiceFrames(ticks[n].service))[k]
    decreases |ticks|
  {
    hide ServiceFrames;
    var last := |ticks| - 1;
    if n == last {
      p := |History(ticks[..n])| + k;
      assert ticks[..n + 1] == ticks;
      assert History(ticks) == History(ticks[..n]) + (ticks[n].typed + ServiceFrames(ticks[n].service));
    } else {
      p := InHistory(ticks[..last], n, k);
      assert ticks[..last][..n] == ticks[..n] && ticks[..last][..n + 1] == ticks[..n + 1];
    }
  }

  /** Motor i is disabled when tick 5t polls. */
  predicate OffAtPoll(ticks: seq<Tick>, i: nat, t: nat) {
    5 * t < |ticks| && i < |ticks[5 * t].service.mid| && !ticks[5 * t].service.mid[i].enabled
  }

  /** Tick 5t asks motor i of channel ch for its position, and nothing else on that channel. */
  predicate AsksAt(ticks: seq<Tick>, ch: nat, i: nat, t: nat) {
    && 5 * t < |ticks| && i < |ticks[5 * t].service.mid| && ch < |ticks[5 * t].service.parts|
    && |ticks[5 * t].service.parts[ch]| == 1
    && Attempts(ticks[5 * t].service.parts[ch][0], ch, ticks[5 * t].service.mid[i].id, ReadMechPos)
  }

  lemma RequestIsAsked(cfg: Config, open: seq<bool>, ticks: seq<Tick>, asks: seq<seq<seq<Event>>>, polls: seq<seq<Motor>>,
                       ch: nat, i: nat, t: nat, after: seq<Motor>, next: nat)
    requires |open| == 4 && ch < 4 && open[ch] && 5 * t < |ticks| && TickStep(cfg, open, 5 * t, ticks[5 * t], after, next)
    requires TickPolled(ticks, asks, polls, open, t) && t < |polls| && Requests(polls, ch, 0, t, i)
    ensures AsksAt(ticks, ch, i, t)
  {
    var s := ticks[5 * t].service;
    hide KeyStep, HoldRound, Emptied, Replay, Pick, CursorAt;
    assert PollAsked(s.mid, open, s.cursors, s.parts);
    assert ChannelAsked(s.mid, open[ch], ch, s.cursors[ch], s.parts[ch]);
  }

  /**
   Fairness of a run: a motor of an open channel that is disabled at k consecutive polls of the ticks, k
   being the number of motors on its channel, is asked for its position by one of those ticks, and the
   request stands in the log among that tick's frames.
   */
  lemma DisabledIsAsked(cfg: Config, open: seq<bool>, start: seq<Motor>, ticks: seq<Tick>, end: seq<Motor>, sel: nat,
                        asks: seq<seq<seq<Event>>>, polls: seq<seq<Motor>>, chs: seq<nat>, ch: nat, i: nat, a: nat,
                        before: seq<Event>, log: seq<Event>)
    returns (u: nat, p: nat)
    requires |open| == 4 && ch < 4 && open[ch] && Trace(cfg, open, start, ticks, end, sel)
    requires PollsOfTicks(ticks, asks, polls, open) && SameMotors(polls, chs) && before + History(ticks) <= log
    requires i < |chs| && chs[i] == ch && forall t | a <= t < a + Count(chs, ch) :: OffAtPoll(ticks, i, t)
    ensures a <= u < a + Count(chs, ch) && AsksAt(ticks, ch, i, u)
    ensures |before + History(ticks[..5 * u])| <= p < |before + History(ticks[..5 * u + 1])| <= |log|
    ensures log[p] == ticks[5 * u].service.parts[ch][0]
  {
    hide Trace, TickStep, Pick, CursorAt, CursorsAt, History, Flatten, Requests, Attempts;
    u := RequestedAt(ticks, asks, polls, open, chs, ch, i, a);
    var after, next := TickOf(cfg, open, start, ticks, end, sel, 5 * u);
    RequestIsAsked(cfg, open, ticks, asks, polls, ch, i, u, after, next);
    var k := InFlatten(ticks[5 * u].service.parts, ch);
    var q := InHistory(ticks, 5 * u, |ticks[5 * u].typed| + |ticks[5 * u].service.held| + k);
    p := |before| + q;
    assert log[p] == (before + History(ticks))[p];
  }

  lemma RequestedAt(ticks: seq<Tick>, asks: seq<seq<seq<Event>>>, polls: seq<seq<Motor>>, open: seq<bool>,
                    chs: seq<nat>, ch: nat, i: nat, a: nat) returns (u: nat)
    requires |open| == 4 && PollsOfTicks(ticks, asks, polls, open) && SameMotors(polls, chs)
    requires i < |chs| && chs[i] == ch && forall t | a <= t < a + Count(chs, ch) :: OffAtPoll(ticks, i, t)
    ensures a <= u < a + Count(chs, ch) && u < |polls| && 5 * u < |ticks| && Requests(polls, ch, 0, u, i)
    ensures TickPolled(ticks, asks, polls, open, u)
  {
    hide Requests, CursorsAt;
    forall t: nat | a <= t < a + Count(chs, ch) ensures t < |polls| && Waiting(polls, i, t) {
      assert TickPolled(ticks, asks, polls, open, t) && OffAtPoll(ticks, i, t);
    }
    AheadBounded(chs, ch, i, i);
    var last := a + Count(chs, ch) - 1;
    assert OffAtPoll(ticks, i, last) && TickPolled(ticks, asks, polls, open, last);
    PolledWithinK(polls, chs, ch, 0, i, a);
    u :| a <= u < a + Count(chs, ch) && Requests(polls, ch, 0, u, i);
    assert TickPolled(ticks, asks, polls, open, u) && OffAtPoll(ticks, i, u);
  }

  // ----- the hold frames of the ticks -----

  /** From k on stand the frames of a hold round for an enabled motor, before it as b and after it as a. */
  predicate HeldFrom(cfg: Config, b: Motor, a: Motor, events: seq<Event>, k: nat) {
    && k < |events| && Attempts(events[k], b.ch, b.id, HoldCommand(cfg, b.hold))
    && if events[k].ok then a == b
       else a == b.(enabled := false) && k + 1 < |events| && Attempts(events[k + 1], b.ch, b.id, Stop)
  }

  lemma HeldFromMore(cfg: Config, b: Motor, a: Motor, before: seq<Event>, frames: seq<Event>, more: seq<Event>, k: nat)
    requires HeldFrom(cfg, b, a, frames, k)
    ensures HeldFrom(cfg, b, a, before + frames + more, |before| + k)
  {
    assert (before + frames + more)[|before| + k] == frames[k];
    if k + 1 < |frames| { assert (before + frames + more)[|before| + k + 1] == frames[k + 1]; }
  }

  lemma RoundSplit(cfg: Config, before: seq<Motor>, after: seq<Motor>, events: seq<Event>) returns (p: nat)
    requires |before| == |after| > 0 && HoldRound(cfg, before, after, events)
    ensures p <= |events|
    ensures HoldRound(cfg, before[..|before| - 1], after[..|before| - 1], events[..p])
    ensures HoldStep(cfg, before[|before| - 1], after[|before| - 1], events[p..])
  {
    var n := |before| - 1;
    hide HoldStep;
    p :| 0 <= p <= |events| && HoldRound(cfg, before[..n], after[..n], events[..p])
         && HoldStep(cfg, before[n], after[n], events[p..]);
  }

  lemma StepHeld(cfg: Config, b: Motor, a: Motor, frames: seq<Event>)
    requires HoldStep(cfg, b, a, frames) && b.enabled
    ensures HeldFrom(cfg, b, a, frames, 0)
  {
  }

  /** The frames of a hold round for motor i start at k. */
  lemma {:induction false} HeldAt(cfg: Config, before: seq<Motor>, after: seq<Motor>, events: seq<Event>, i: nat) returns (k: nat)
    requires |before| == |after| && HoldRound(cfg, before, after, events) && i < |before| && before[i].enabled
    ensures HeldFrom(cfg, before[i], after[i], events, k)
  {
    hide HoldRound, HeldFrom, HoldStep;
    var n := |before| - 1;
    var p := RoundSplit(cfg, before, after, events);
    if i == n {
      k := p;
      StepHeld(cfg, before[n], after[n], events[p..]);
      HeldFromMore(cfg, before[n], after[n], events[..p], events[p..], [], 0);
      assert events[..p] + events[p..] + [] == events;
    } else {
      k := HeldAt(cfg, before[..n], after[..n], events[..p], i);
      HeldFromMore(cfg, before[i], after[i], [], events[..p], events[p..], k);
      assert [] + events[..p] + events[p..] == events;
    }
  }

  /**
   In every complete tick of a run every motor that is on after the key is told to hold its target: the frame
   stands in the log among that tick's, and the motor decodes from it the target and the configured gains.
   If the bus refuses it, a STOP attempt to the motor is next, and the motor is off.
   */
  lemma EnabledIsHeld(cfg: Config, open: seq<bool>, start: seq<Motor>, ticks: seq<Tick>, end: seq<Motor>, sel: nat,
                      rnd: Rounding, n: nat, i: nat, before: seq<Event>, log: seq<Event>) returns (p: nat)
    requires Trace(cfg, open, start, ticks, end, sel) && Disciplined(cfg, log) && before + History(ticks) <= log
    requires n < |ticks| && i < |ticks[n].toggled| && ticks[n].toggled[i].enabled && Faithful(rnd)
    ensures |before + History(ticks[..n])| <= p < |before + History(ticks[..n + 1])| <= |log|
    ensures Faithful(Exact) && Holds(cfg, rnd, log[p], ticks[n].toggled[i].ch, ticks[n].toggled[i].id, ticks[n].toggled[i].hold)
    ensures |ticks[n].service.mid| == |ticks[n].toggled|
    ensures var m, a := ticks[n].toggled[i], ticks[n].service.mid[i];
            if log[p].ok then a == m
            else a == m.(enabled := false) && p + 1 < |before + History(ticks[..n + 1])| && Attempts(log[p + 1], m.ch, m.id, Stop)
  {
    hide Trace, KeyStep, HoldRound, PollAsked, Emptied, Replay, Disciplined, Holds, Faithful, History, Flatten, HoldCommand;
    var after, next := TickOf(cfg, open, start, ticks, end, sel, n);
    var t := ticks[n];
    var k := HeldAt(cfg, t.toggled, t.service.mid, t.service.held, i);
    var q := InHistory(ticks, n, |t.typed| + k);
    p := |before| + q;
    assert log[p] == (before + History(ticks))[p];
    if !t.service.held[k].ok {
      var q' := InHistory(ticks, n, |t.typed| + k + 1);
      assert log[p + 1] == (before + History(ticks))[p + 1];
    }
    HoldCommandIsMit(cfg, t.toggled[i].hold);
    var r, target := MitFramesHold(cfg, rnd, log, p);
  }

  lemma HoldCommandIsMit(cfg: Config, q: Float)
    ensures HoldCommand(cfg, q).Mit? && HoldCommand(cfg, q).q == q
  {
  }

  // ----- runs that end armed -----

  /** The frames by which one motor is switched on, all accepted. */
  function EnablingFrames(cfg: Config, m: Motor, msg: CanMsg, q: Float): seq<Event> {
    [Tx(m.ch, m.id, ReadMechPos, true), Rx(m.ch, msg)]
    + [Tx(m.ch, m.id, Stop, true), Tx(m.ch, m.id, SetRunMode(MODE_MIT), true),
       Tx(m.ch, m.id, HoldCommand(cfg, q), true), Tx(m.ch, m.id, Enable, true)]
  }

  lemma EnablesOne(cfg: Config, m: Motor, msg: CanMsg, q: Float)
    requires !m.enabled && Reported(cfg, msg) == Some((m.id, q)) && InMitRange(q)
    ensures KeyStep(cfg, Toggle, 0, [m], EnablingFrames(cfg, m, msg, q), [OnAt(cfg, m, msg, q)])
  {
    var asked := [Tx(m.ch, m.id, ReadMechPos, true), Rx(m.ch, msg)];
    var tail := [Tx(m.ch, m.id, Stop, true), Tx(m.ch, m.id, SetRunMode(MODE_MIT), true),
                 Tx(m.ch, m.id, HoldCommand(cfg, q), true), Tx(m.ch, m.id, Enable, true)];
    ApplyIsolated(cfg, [m], m.ch, msg, 0);
    EnablesFrames(cfg, OnAt(cfg, m, msg, q), msg, q, asked, tail);
    ReplayOne(cfg, m, msg);
    hide EnableFrames, Reported, InMitRange, Apply;
    assert Toggled(cfg, 0, [m], asked, tail, [OnAt(cfg, m, msg, q)]);
  }

  lemma ReplayOne(cfg: Config, m: Motor, msg: CanMsg)
    ensures Replay(cfg, [m], [Tx(m.ch, m.id, ReadMechPos, true), Rx(m.ch, msg)]) == Apply(cfg, [m], m.ch, msg)
  {
    var e: seq<Event> := [Tx(m.ch, m.id, ReadMechPos, true)];
    assert e[..0] == [] && (e + [Rx(m.ch, msg)])[..1] == e;
    assert Replay(cfg, [m], e) == [m];
    assert Replay(cfg, [m], e + [Rx(m.ch, msg)]) == Apply(cfg, [m], m.ch, msg);
  }

  lemma EnablesFrames(cfg: Config, on: Motor, msg: CanMsg, q: Float, asked: seq<Event>, tail: seq<Event>)
    requires on.enabled && on.hold == q && Reported(cfg, msg) == Some((on.id, q)) && InMitRange(q)
    requires asked == [Tx(on.ch, on.id, ReadMechPos, true), Rx(on.ch, msg)]
    requires tail == [Tx(on.ch, on.id, Stop, true), Tx(on.ch, on.id, SetRunMode(MODE_MIT), true),
                      Tx(on.ch, on.id, HoldCommand(cfg, q), true), Tx(on.ch, on.id, Enable, true)]
    ensures EnableFrames(cfg, on, asked, tail)
  {
    assert asked[1..1] == [];
    assert Refresh(cfg, on.ch, on.id, asked, true);
    assert tail[2..] == [Tx(on.ch, on.id, HoldCommand(cfg, q), true), Tx(on.ch, on.id, Enable, true)];
    assert PrimeFrames(cfg, on.ch, on.id, q, tail[2..], true);
    assert SwitchOnFrames(cfg, on.ch, on.id, q, tail, true);
  }

  /** Only frames to the motor that are no ENABLE and no accepted STOP follow: it is still armed. */
  lemma ArmedByEnabling(cfg: Config, m: Motor, msg: CanMsg, q: Float, rest: seq<Event>)
    requires forall j | 0 <= j < |rest| ::
               !Attempts(rest[j], m.ch, m.id, Enable) && rest[j] != Tx(m.ch, m.id, Stop, true)
    ensures Armed(EnablingFrames(cfg, m, msg, q) + rest, m.ch, m.id)
  {
    var frames := EnablingFrames(cfg, m, msg, q);
    assert frames[|frames| - 1] == Tx(m.ch, m.id, Enable, true);
    ArmedUntilStopped(frames, rest, m.ch, m.id);
  }

  /** The four channels' polls when only channel ch asks something. */
  function OnePoll(ch: nat, frames: seq<Event>): (parts: seq<seq<Event>>)
    requires ch < 4
    ensures |parts| == 4 && Flatten(parts) == frames
  {
    var parts := seq(4, c requires 0 <= c < 4 => if c == ch then frames else []);
    assert Flatten(parts) == frames by {
      assert parts[..4] == parts && parts[..3][..2] == parts[..2] && parts[..2][..1] == parts[..1];
      assert Flatten(parts[..1]) == parts[0];
      assert Flatten(parts[..2]) == parts[0] + parts[1];
      assert Flatten(parts[..3]) == parts[0] + parts[1] + parts[2];
      assert Flatten(parts) == parts[0] + parts[1] + parts[2] + parts[3];
    }
    parts
  }

  const NO_CURSORS: seq<nat> := [0, 0, 0, 0]

  lemma PollOfOne(m: Motor, open: seq<bool>, frames: seq<Event>)
    requires m.ch < 4 && |open| == 4 && open[m.ch]
    requires frames == if m.enabled then [] else [Tx(m.ch, m.id, ReadMechPos, true)]
    ensures PollAsked([m], open, NO_CURSORS, OnePoll(m.ch, frames))
  {
  }

  /** One read that delivered nothing, on every open channel. */
  function OneIdle(open: seq<bool>): seq<nat>
    requires |open| == 4
  {
    seq(4, c requires 0 <= c < 4 => if open[c] then 1 else 0)
  }

  lemma NothingHeard(cfg: Config, motors: seq<Motor>, open: seq<bool>)
    requires |open| == 4
    ensures Emptied(open, [[], [], [], []], [0, 0, 0, 0], OneIdle(open), 4)
    ensures Flatten([[], [], [], []]) == [] && Replay(cfg, motors, []) == motors
  {
    var none: seq<seq<Event>> := [[], [], [], []];
    assert Emptied(open, none, [0, 0, 0, 0], OneIdle(open), 4);
    DrainedFrames(open, none, [0, 0, 0, 0], OneIdle(open));
  }

  /** The motor once the frame that reports it was processed, switched on at the position reported. */
  function OnAt(cfg: Config, m: Motor, msg: CanMsg, q: Float): Motor {
    Apply(cfg, [m], m.ch, msg)[0].(enabled := true, hold := q)
  }

  lemma OnAtKeys(cfg: Config, m: Motor, msg: CanMsg, q: Float)
    ensures OnAt(cfg, m, msg, q).ch == m.ch && OnAt(cfg, m, msg, q).id == m.id
  {
    ApplyIsolated(cfg, [m], m.ch, msg, 0);
  }

  /** A first tick in which the motor is switched on and held, as it stands afterwards, with these frames. */
  function FirstTick(cfg: Config, open: seq<bool>, m: Motor, msg: CanMsg, q: Float, after: Motor, held: seq<Event>): Tick
    requires after.ch < 4 && |open| == 4
  {
    var polled := if after.enabled then [] else [Tx(after.ch, after.id, ReadMechPos, true)];
    Tick(Toggle, 0, [m], EnablingFrames(cfg, m, msg, q), [OnAt(cfg, m, msg, q)],
         Service(held, [after], NO_CURSORS, OnePoll(after.ch, polled), [[], [], [], []], [0, 0, 0, 0], OneIdle(open)))
  }

  lemma FirstTickRuns(cfg: Config, open: seq<bool>, m: Motor, msg: CanMsg, q: Float, after: Motor, held: seq<Event>)
    requires m.ch < 4 && |open| == 4 && open[m.ch] && !m.enabled && Reported(cfg, msg) == Some((m.id, q)) && InMitRange(q)
    requires after.ch == m.ch && after.id == m.id && HoldStep(cfg, OnAt(cfg, m, msg, q), after, held)
    ensures Trace(cfg, open, [m], [FirstTick(cfg, open, m, msg, q, after, held)], [after], 0)
    ensures History([FirstTick(cfg, open, m, msg, q, after, held)])
            == EnablingFrames(cfg, m, msg, q)
               + (held + if after.enabled then [] else [Tx(after.ch, after.id, ReadMechPos, true)])
  {
    hide EnablingFrames, HoldStep, FirstTick, TickStep, Trace, History, ServiceFrames;
    var t := FirstTick(cfg, open, m, msg, q, after, held);
    FirstTickStep(cfg, open, m, msg, q, after, held);
    TraceStart(cfg, open, [m]);
    TraceSnoc(cfg, open, [m], [], t, [after], 0);
    assert [] + [t] == [t];
  }

  lemma FirstTickStep(cfg: Config, open: seq<bool>, m: Motor, msg: CanMsg, q: Float, after: Motor, held: seq<Event>)
    requires m.ch < 4 && |open| == 4 && open[m.ch] && !m.enabled && Reported(cfg, msg) == Some((m.id, q)) && InMitRange(q)
    requires after.ch == m.ch && after.id == m.id && HoldStep(cfg, OnAt(cfg, m, msg, q), after, held)
    ensures var t := FirstTick(cfg, open, m, msg, q, after, held);
            && TickStep(cfg, open, 0, t, [after], 0) && t.before == [m] && t.selected == 0
            && t.typed == EnablingFrames(cfg, m, msg, q)
            && ServiceFrames(t.service) == held + if after.enabled then [] else [Tx(after.ch, after.id, ReadMechPos, true)]
  {
    hide EnablingFrames, HoldStep, HoldRound, PollAsked, OnePoll, Replay, Emptied, OneIdle, KeyStep, Flatten, Reported, InMitRange, OnAt;
    EnablesOne(cfg, m, msg, q);
    RoundOfOne(cfg, OnAt(cfg, m, msg, q), after, held);
    PollOfOne(after, open, if after.enabled then [] else [Tx(after.ch, after.id, ReadMechPos, true)]);
    NothingHeard(cfg, [after], open);
  }

  lemma RoundOfOne(cfg: Config, on: Motor, after: Motor, held: seq<Event>)
    requires HoldStep(cfg, on, after, held)
    ensures HoldRound(cfg, [on], [after], held)
  {
    assert [on][..0] == [] && [after][..0] == [] && [] + held == held;
    HoldRoundStart(cfg, [on]);
    HoldRoundSnoc(cfg, [on], [after], [], held);
  }

  /**
   The documentation promises that quitting stops every motor the program enabled. First failure: the
   motor is on, the exit's STOP is refused and its result ignored.
   */
  lemma ExitCanLeaveArmed(cfg: Config, open: seq<bool>, m: Motor, msg: CanMsg, q: Float)
    returns (tick: Tick, end: Motor, stops: seq<Event>)
    requires m.ch < 4 && |open| == 4 && open[m.ch] && !m.enabled && Reported(cfg, msg) == Some((m.id, q)) && InMitRange(q)
    ensures Trace(cfg, open, [m], [tick], [end], 0) && end.enabled && StopRound([end], stops) && |stops| == 1
    ensures Armed(History([tick]) + stops, m.ch, m.id)
  {
    OnAtKeys(cfg, m, msg, q);
    end, stops := OnAt(cfg, m, msg, q), [Tx(m.ch, m.id, Stop, false)];
    var held := [Tx(m.ch, m.id, HoldCommand(cfg, q), true)];
    tick := FirstTick(cfg, open, m, msg, q, end, held);
    FirstTickRuns(cfg, open, m, msg, q, end, held);
    ArmedByEnabling(cfg, m, msg, q, held + stops);
    assert History([tick]) + stops == EnablingFrames(cfg, m, msg, q) + (held + stops);
    assert [end][..0] == [] && stops[..0] == [];
  }

  /**
   Second failure: a hold frame and the STOP after it are refused. The program counts the motor as off,
   so the exit sends it nothing, and it stays armed.
   */
  lemma RefusedHoldCanLeaveArmed(cfg: Config, open: seq<bool>, m: Motor, msg: CanMsg, q: Float)
    returns (tick: Tick, end: Motor)
    requires m.ch < 4 && |open| == 4 && open[m.ch] && !m.enabled && Reported(cfg, msg) == Some((m.id, q)) && InMitRange(q)
    ensures Trace(cfg, open, [m], [tick], [end], 0) && !end.enabled && StopRound([end], [])
    ensures Armed(History([tick]) + [], m.ch, m.id)
  {
    OnAtKeys(cfg, m, msg, q);
    end := OnAt(cfg, m, msg, q).(enabled := false);
    var held := [Tx(m.ch, m.id, HoldCommand(cfg, q), false), Tx(m.ch, m.id, Stop, false)];
    tick := FirstTick(cfg, open, m, msg, q, end, held);
    FirstTickRuns(cfg, open, m, msg, q, end, held);
    ArmedByEnabling(cfg, m, msg, q, held + [Tx(m.ch, m.id, ReadMechPos, true)]);
    assert History([tick]) + [] == History([tick]);
    assert [end][..0] == [];
  }
}
