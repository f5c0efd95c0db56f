/**
 The control loop of apps/position_read.cpp as a program over an unreliable bus: every write may be
 refused, every read may deliver any frame, nothing or an error, and any assignment of the status
 text or any rendering may throw.
 */
module HoldController {
  import opened Util
  import opened Codec
  import opened Wire
  import opened HoldTrace
  import opened Hold
  import opened HoldFrames
  import opened Polling

  datatype Outcome = Done(ok: bool) | Threw

  const OFF_POLL_DIVIDER := 5
  const UI_REFRESH_DIVIDER := 5

  /**
   A whole run: the initial refresh (`first`, motor by motor, unless a signal cut it) and the motors after it; the ticks completed, the motors
   and the selection they led to, and what each poll asked; the motors and the log when the exit began;
   and what the exit sent.
   */
  datatype RunRecord = RunRecord(asks: seq<seq<seq<Event>>>, first: seq<seq<Event>>, cut: bool, initial: seq<Motor>, ticks: seq<Tick>,
                                 upTo: seq<Motor>, selected: nat, on: seq<Motor>, seen: seq<Event>, stops: seq<Event>)

  class Controller {
    const cfg: Config
    const open: seq<bool>             // which channels initialised
    var motors: seq<Motor>
    var cursors: seq<nat>
    var log: seq<Event>
    ghost var polls: seq<seq<Motor>>  // the motors as each poll saw them
    ghost var refusals: seq<nat>      // per channel, reads that delivered no frame
    ghost var leaving: bool           // stop_all has begun

    ghost predicate Shape()
      reads `motors, `cursors, `refusals
    {
      && 0.0 <= cfg.kp <= 500.0 && 0.0 <= cfg.kd <= 5.0
      && |open| == |cursors| == |refusals| == 4 && Sorted(motors)
      && (forall i | 0 <= i < |motors| :: motors[i].ch < 4 && open[motors[i].ch])
    }

    ghost predicate Valid()
      reads `motors, `cursors, `refusals, `log, `leaving
    {
      Shape() && Safe(cfg, motors, log, !leaving)
    }

    /** main() after the scan: nothing is enabled and nothing was sent that could enable. */
    constructor (cfg: Config, open: seq<bool>, motors: seq<Motor>)
      requires 0.0 <= cfg.kp <= 500.0 && 0.0 <= cfg.kd <= 5.0 && |open| == 4 && Sorted(motors)
      requires forall i | 0 <= i < |motors| ::
                 motors[i].ch < 4 && open[motors[i].ch] && !motors[i].enabled && motors[i].position.Fin?
      ensures Valid() && !leaving && log == [] && polls == [] && cursors == [0, 0, 0, 0] && this.motors == motors && this.cfg == cfg && this.open == open
    {
      this.cfg, this.open, this.motors := cfg, open, motors;
      cursors, log, polls, refusals, leaving := [0, 0, 0, 0], [], [], [0, 0, 0, 0], false;
    }

    // ----- the bus and the screen -----

    method Transmit(ch: nat, id: Byte, cmd: Command) returns (ok: bool)
      modifies this`log
      ensures log == old(log) + [Tx(ch, id, cmd, ok)]
    {
      ok := *;
      log := log + [Tx(ch, id, cmd, ok)];
    }

    method Read(ch: nat) returns (r: ReadResult)
      requires ch < |refusals|
      modifies this`log, this`refusals
      ensures r.Got? ==> log == old(log) + [Rx(ch, r.msg)] && refusals == old(refusals)
      ensures !r.Got? ==> log == old(log) && refusals == old(refusals)[ch := old(refusals)[ch] + 1]
    {
      var got, broken: bool := *, *;
      if got {
        var m: CanMsg := *;
        log := log + [Rx(ch, m)];
        return Got(m);
      }
      refusals := refusals[ch := refusals[ch] + 1];
      return if broken then Broken else Nothing;
    }

    /** Assigning the status text allocates, so it may throw. */
    method SetStatus() returns (threw: bool) {
      threw := *;
    }

    // ----- receiving -----

    /** process_message: the loops find the one motor that Apply updates. */
    method ProcessMessage(ch: nat, msg: CanMsg)
      modifies this`motors
      ensures motors == Apply(cfg, old(motors), ch, msg)
    {
      if !msg.extended { return; }
      if CommType(msg.id) == COMM_FEEDBACK {
        var i := 0;
        while i < |motors|
          invariant 0 <= i <= |motors| && motors == old(motors)
          invariant forall k | 0 <= k < i :: motors[k].ch != ch || motors[k].id != SourceId(msg.id)
        {
          if motors[i].ch == ch {
            var feedback := ParseFeedback(cfg.rnd, motors[i].id, msg);
            if feedback.Some? {
              motors := motors[i := WithReading(motors[i], feedback.value)];
              return;
            }
          }
          i := i + 1;
        }
      }
      var parsed := ParseMechPos(cfg.host, msg);
      if parsed.None? { return; }
      var i := 0;
      while i < |motors|
        invariant 0 <= i <= |motors| && motors == old(motors)
        invariant forall k | 0 <= k < i :: motors[k].ch != ch || motors[k].id != parsed.value.0
      {
        if motors[i].ch == ch && motors[i].id == parsed.value.0 {
          motors := motors[i := WithPosition(motors[i], parsed.value.1)];
          return;
        }
        i := i + 1;
      }
    }

    lemma ReplaySnoc(start: seq<Motor>, events: seq<Event>, ch: nat, m: CanMsg)
      ensures Replay(cfg, start, events + [Rx(ch, m)]) == Apply(cfg, Replay(cfg, start, events), ch, m)
    {
      assert (events + [Rx(ch, m)])[..|events|] == events;
    }

    /** One read, and process_message on what it delivered. */
    method ReadAndProcess(ch: nat) returns (r: ReadResult)
      requires Valid() && ch < 4
      modifies this`log, this`motors, this`refusals
      ensures Valid() && AllSameControl(old(motors), motors)
      ensures r.Got? ==> log == old(log) + [Rx(ch, r.msg)] && motors == Apply(cfg, old(motors), ch, r.msg)
      ensures r.Got? ==> refusals == old(refusals)
      ensures !r.Got? ==> log == old(log) && motors == old(motors)
      ensures !r.Got? ==> refusals == old(refusals)[ch := old(refusals)[ch] + 1]
    {
      r := Read(ch);
      if r.Got? {
        ApplyKeepsSafe(cfg, old(motors), old(log), ch, r.msg, !leaving);
        ApplyKeepsControl(old(motors), ch, r.msg);
        ProcessMessage(ch, r.msg);
      }
    }

    lemma ApplyKeepsControl(before: seq<Motor>, ch: nat, m: CanMsg)
      requires Sorted(before)
      ensures AllSameControl(before, Apply(cfg, before, ch, m))
    {
      forall i | 0 <= i < |before|
        ensures var a := Apply(cfg, before, ch, m)[i];
                a.ch == before[i].ch && a.id == before[i].id && a.enabled == before[i].enabled && a.hold == before[i].hold
      {
        ApplyIsolated(cfg, before, ch, m, i);
      }
    }

    lemma {:induction false} ReplayAppend(start: seq<Motor>, a: seq<Event>, b: seq<Event>)
      ensures Replay(cfg, start, a + b) == Replay(cfg, Replay(cfg, start, a), b)
      decreases |b|
    {
      if b == [] {
        assert a + b == a;
      } else {
        assert (a + b)[..|a + b| - 1] == a + b[..|b| - 1];
        ReplayAppend(start, a, b[..|b| - 1]);
      }
    }

    lemma {:induction false} ReplayKeepsControl(start: seq<Motor>, events: seq<Event>)
      requires Sorted(start)
      ensures Sorted(Replay(cfg, start, events)) && AllSameControl(start, Replay(cfg, start, events))
    {
      if events != [] {
        var n := |events| - 1;
        ReplayKeepsControl(start, events[..n]);
        if events[n].Rx? { ApplyKeepsControl(Replay(cfg, start, events[..n]), events[n].ch, events[n].msg); }
        StillSorted(start, Replay(cfg, start, events));
      }
    }

    /** The inner loop of drain_and_process: it ends at the first refused read, or after 256 frames. */
    method DrainChannel(ch: nat) returns (ghost events: seq<Event>)
      requires Valid() && ch < 4
      modifies this`log, this`motors, this`refusals
      ensures Valid() && log == old(log) + events && motors == Replay(cfg, old(motors), events)
      ensures FramesFrom(events, ch) && |events| <= 256
      ensures refusals == if |events| == 256 then old(refusals) else old(refusals)[ch := old(refusals)[ch] + 1]
    {
      events := [];
      var count := 0;
      while count < 256
        invariant Valid() && count == |events| <= 256
        invariant log == old(log) + events && motors == Replay(cfg, old(motors), events)
        invariant FramesFrom(events, ch) && refusals == old(refusals)
      {
        var r := ReadAndProcess(ch);
        if !r.Got? { break; }
        ReplaySnoc(old(motors), events, ch, r.msg);
        events := events + [Rx(ch, r.msg)];
        count := count + 1;
      }
    }

    /** drain_and_process: every open channel is drained, and every frame read is processed. */
    method DrainAndProcess() returns (ghost drained: seq<seq<Event>>)
      requires Valid()
      modifies this`log, this`motors, this`refusals
      ensures Valid() && AllSameControl(old(motors), motors) && |drained| == 4
      ensures log == old(log) + Join4(drained) && motors == Replay(cfg, old(motors), Join4(drained))
      ensures Emptied(open, drained, old(refusals), refusals, 4)
    {
      hide Safe, Replay, Emptied, Join4, FramesFrom;
      drained := [[], [], [], []];
      NothingDrained(cfg, motors, open, refusals);
      for ch := 0 to 4
        invariant Valid() && |drained| == 4
        invariant log == old(log) + Join4(drained) && motors == Replay(cfg, old(motors), Join4(drained))
        invariant Emptied(open, drained, old(refusals), refusals, ch)
      {
        if open[ch] {
          ghost var was, mid := drained, refusals;
          ghost var events := DrainChannel(ch);
          drained := was[ch := events];
          EmptiedStep(open, was, old(refusals), mid, refusals, ch, events);
          ReplayAppend(old(motors), Join4(was), events);
        } else {
          EmptiedSkip(open, drained, old(refusals), refusals, ch);
        }
      }
      ReplayKeepsControl(old(motors), Join4(drained));
    }

    // ----- reading one motor's position -----

    /** A frame that is not ENABLE; STOP and MIT frames only to a motor that is off. */
    method Send(t: nat, cmd: Command) returns (ok: bool)
      requires Valid() && t < |motors| && cmd != Enable && (cmd == Stop || cmd.Mit? ==> !motors[t].enabled)
      requires Permitted(cfg, log, Tx(motors[t].ch, motors[t].id, cmd, true))
      requires Permitted(cfg, log, Tx(motors[t].ch, motors[t].id, cmd, false))
      modifies this`log
      ensures Valid() && log == old(log) + [Tx(motors[t].ch, motors[t].id, cmd, ok)]
    {
      OffMeansNotRunning(t);
      HarmlessKeepsSafe(cfg, motors, log, Tx(motors[t].ch, motors[t].id, cmd, true), !leaving);
      HarmlessKeepsSafe(cfg, motors, log, Tx(motors[t].ch, motors[t].id, cmd, false), !leaving);
      ok := Transmit(motors[t].ch, motors[t].id, cmd);
    }

    lemma OffMeansNotRunning(t: nat)
      requires Sorted(motors) && t < |motors|
      ensures !motors[t].enabled ==> !Running(motors, motors[t].ch, motors[t].id)
    {
      if !motors[t].enabled && Running(motors, motors[t].ch, motors[t].id) {
        var i :| 0 <= i < |motors| && motors[i].enabled && motors[i].ch == motors[t].ch && motors[i].id == motors[t].id;
        DistinctKeys(motors, i, t);
      }
    }

    /** One read: the generation of motor t moves exactly when the frame reports its position. */
    method ReadFor(t: nat) returns (r: ReadResult)
      requires Valid() && t < |motors|
      modifies this`log, this`motors, this`refusals
      ensures Valid() && AllSameControl(old(motors), motors)
      ensures log == old(log) + if r.Got? then [Rx(motors[t].ch, r.msg)] else []
      ensures motors == if r.Got? then Apply(cfg, old(motors), motors[t].ch, r.msg) else old(motors)
      ensures motors[t].generation != old(motors)[t].generation
              <==> r.Got? && Names(cfg, Rx(motors[t].ch, r.msg), motors[t].id)
      ensures motors[t].generation != old(motors)[t].generation ==>
                Reports(cfg, Rx(motors[t].ch, r.msg), motors[t].ch, motors[t].id, motors[t].position)
    {
      hide Safe, Reported;
      r := ReadAndProcess(motors[t].ch);
      if r.Got? { ApplyIsolated(cfg, old(motors), motors[t].ch, r.msg, t); }
    }

    /** The loop of refresh_position_sync: it ends with the first frame that reports motor t (true), or
        at a failed read or the deadline (false); `rounds` is how often it runs before the deadline. */
    method WaitForReport(t: nat) returns (ok: bool, ghost quiet: seq<Event>, ghost last: seq<Event>)
      requires Valid() && t < |motors|
      modifies this`log, this`motors, this`refusals
      ensures Valid() && AllSameControl(old(motors), motors) && log == old(log) + quiet + last
      ensures motors == Replay(cfg, old(motors), quiet + last)
      ensures FramesFrom(quiet, motors[t].ch) && Silent(cfg, quiet, motors[t].id)
      ensures !ok ==> last == []
      ensures ok ==> |last| == 1 && Reports(cfg, last[0], motors[t].ch, motors[t].id, motors[t].position)
    {
      hide Safe, Silent, FramesFrom, Names, Apply, Reported, Replay;
      quiet, last := [], [];
      NothingQuiet(t);
      var previous := motors[t].generation;
      var rounds: nat :| rounds >= 0;
      while rounds > 0
        invariant Valid() && AllSameControl(old(motors), motors) && log == old(log) + quiet
        invariant motors == Replay(cfg, old(motors), quiet)
        invariant FramesFrom(quiet, motors[t].ch) && Silent(cfg, quiet, motors[t].id)
        invariant motors[t].generation == previous
      {
        rounds := rounds - 1;
        var r := ReadFor(t);
        if r.Got? {
          ReplaySnoc(old(motors), quiet, motors[t].ch, r.msg);
          if motors[t].generation != previous {
            return true, quiet, [Rx(motors[t].ch, r.msg)];
          }
          QuietSnoc(quiet, Rx(motors[t].ch, r.msg), motors[t].ch, motors[t].id);
          quiet := quiet + [Rx(motors[t].ch, r.msg)];
        } else if r.Broken? {
          assert quiet + [] == quiet;
          return false, quiet, [];
        }
      }
      assert quiet + [] == quiet;
      return false, quiet, [];
    }

    lemma NothingQuiet(t: nat)
      requires t < |motors|
      ensures FramesFrom([], motors[t].ch) && Silent(cfg, [], motors[t].id) && Replay(cfg, motors, []) == motors
      ensures AllSameControl(motors, motors)
    {
    }

    lemma QuietSnoc(quiet: seq<Event>, e: Event, ch: nat, id: Byte)
      requires FramesFrom(quiet, ch) && Silent(cfg, quiet, id) && e.Rx? && e.ch == ch && !Names(cfg, e, id)
      ensures FramesFrom(quiet + [e], ch) && Silent(cfg, quiet + [e], id)
    {
      hide Names;
    }

    lemma SentOnly(start: seq<Motor>, events: seq<Event>)
      requires |events| == 1 && events[0].Tx?
      ensures Replay(cfg, start, events) == start
    {
      assert events[..0] == [];
    }

    /** refresh_position_sync: one request, then reads until a frame reports this very motor. */
    method RefreshPosition(t: nat) returns (ok: bool, ghost events: seq<Event>)
      requires Valid() && t < |motors|
      modifies this`log, this`motors, this`refusals
      ensures Valid() && AllSameControl(old(motors), motors) && log == old(log) + events
      ensures events != [] && Refresh(cfg, motors[t].ch, motors[t].id, events, ok)
      ensures motors == Replay(cfg, old(motors), events)
      ensures ok ==> Reports(cfg, events[|events| - 1], motors[t].ch, motors[t].id, motors[t].position)
    {
      hide Safe, Replay;
      var sent := Send(t, ReadMechPos);
      events := [Tx(motors[t].ch, motors[t].id, ReadMechPos, sent)];
      SentOnly(motors, events);
      if !sent { return false, events; }
      ghost var quiet, last;
      ok, quiet, last := WaitForReport(t);
      ReplayAppend(old(motors), events, quiet + last);
      assert events + quiet + last == events + (quiet + last);
      events := events + quiet + last;
      assert events[1..|events| - if ok then 1 else 0] == quiet;
    }

    // ----- switching -----

    /** The exit's stop(false): the result is ignored and the motor counts as off. */
    method StopIgnoringResult(t: nat) returns (ghost sent: bool)
      requires Valid() && leaving && t < |motors|
      modifies this`log, this`motors
      ensures Valid() && motors == SwitchedOff(old(motors), t)
      ensures log == old(log) + [Tx(motors[t].ch, motors[t].id, Stop, sent)]
    {
      StopAndForget(cfg, motors, log, t, true, false);
      StopAndForget(cfg, motors, log, t, false, false);
      sent := Transmit(motors[t].ch, motors[t].id, Stop);
      motors := SwitchedOff(motors, t);
    }

    /** disable_selected_motor: a refused STOP leaves the motor on, so the hold loop keeps commanding it. */
    method DisableSelected(t: nat) returns (outcome: Outcome, ghost sent: bool)
      requires Valid() && t < |motors| && motors[t].enabled
      modifies this`log, this`motors
      ensures Valid() && motors == if sent then SwitchedOff(old(motors), t) else old(motors)
      ensures log == old(log) + [Tx(motors[t].ch, motors[t].id, Stop, sent)]
      ensures outcome.Done? ==> outcome.ok == sent
    {
      StopAndForget(cfg, motors, log, t, true, !leaving);
      HarmlessKeepsSafe(cfg, motors, log, Tx(motors[t].ch, motors[t].id, Stop, false), !leaving);
      var ok := Transmit(motors[t].ch, motors[t].id, Stop);
      if ok { motors := SwitchedOff(motors, t); }
      var threw := SetStatus();
      return if threw then Threw else Done(ok), ok;
    }

    /** Remembering a hold target for a motor that is off. */
    method SetHold(t: nat)
      requires Valid() && t < |motors| && !motors[t].enabled
      modifies this`motors
      ensures Valid() && motors == old(motors)[t := old(motors)[t].(hold := old(motors)[t].position)]
    {
      ghost var before := motors;
      motors := motors[t := motors[t].(hold := motors[t].position)];
      forall i | 0 <= i < |motors| ensures SameControl(before[i], motors[i]) && motors[i].position.Fin? {
        assert MotorSafe(cfg, before[i], log, !leaving);
      }
      MeasuringKeepsSafe(cfg, before, motors, log, !leaving);
    }

    /** ENABLE, and the STOP attempt that follows a refusal. */
    method TryEnable(t: nat) returns (ok: bool, ghost rest: seq<Event>)
      requires Valid() && t < |motors| && !motors[t].enabled
      requires HoldTarget(cfg, log, motors[t].ch, motors[t].id, motors[t].hold)
      requires forall b :: Permitted(cfg, log, Tx(motors[t].ch, motors[t].id, Enable, b))
      modifies this`log, this`motors
      ensures Valid() && log == old(log) + rest && motors == old(motors)[t := old(motors)[t].(enabled := ok)]
      ensures ok ==> rest == [Tx(motors[t].ch, motors[t].id, Enable, true)]
      ensures !ok ==> |rest| == 2 && rest[0] == Tx(motors[t].ch, motors[t].id, Enable, false)
      ensures !ok ==> Attempts(rest[1], motors[t].ch, motors[t].id, Stop)
    {
      hide Safe, Permitted;
      var ch, id := motors[t].ch, motors[t].id;
      EnableAndRemember(cfg, motors, log, t, !leaving);
      EnableRefused(cfg, motors, log, t, true, !leaving);
      EnableRefused(cfg, motors, log, t, false, !leaving);
      ok := Transmit(ch, id, Enable);
      rest := [Tx(ch, id, Enable, ok)];
      if ok {
        motors := motors[t := motors[t].(enabled := true)];
      } else {
        var sent := Transmit(ch, id, Stop);
        rest := rest + [Tx(ch, id, Stop, sent)];
        assert log == old(log) + [Tx(ch, id, Enable, false)] + [Tx(ch, id, Stop, sent)];
      }
    }

    /** The priming frame, ENABLE, and the STOP attempt when either is refused. */
    method PrimeAndEnable(t: nat) returns (ok: bool, ghost tail: seq<Event>)
      requires Valid() && t < |motors| && !motors[t].enabled
      requires Primable(cfg, log, motors[t].ch, motors[t].id, motors[t].hold)
      modifies this`log, this`motors
      ensures Valid() && log == old(log) + tail && motors == old(motors)[t := old(motors)[t].(enabled := ok)]
      ensures PrimeFrames(cfg, motors[t].ch, motors[t].id, motors[t].hold, tail, ok)
    {
      hide Safe, Apply, Reported, POSITION;
      var ch, id := motors[t].ch, motors[t].id;
      Primed(cfg, log, ch, id, motors[t].hold);
      ok := Send(t, HoldCommand(cfg, motors[t].hold));
      tail := [Tx(ch, id, HoldCommand(cfg, motors[t].hold), ok)];
      if !ok {
        var sent := Send(t, Stop);
        return false, tail + [Tx(ch, id, Stop, sent)];
      }
      ghost var rest;
      ok, rest := TryEnable(t);
      tail := tail + rest;
    }

    /** The frames after the target is known: STOP, MIT mode, the priming frame, ENABLE. */
    method SwitchOn(t: nat) returns (ok: bool, ghost tail: seq<Event>)
      requires Valid() && t < |motors| && !motors[t].enabled && InMitRange(motors[t].hold)
      requires log != [] && Reports(cfg, log[|log| - 1], motors[t].ch, motors[t].id, motors[t].hold)
      modifies this`log, this`motors
      ensures Valid() && log == old(log) + tail && motors == old(motors)[t := old(motors)[t].(enabled := ok)]
      ensures SwitchOnFrames(cfg, motors[t].ch, motors[t].id, motors[t].hold, tail, ok)
    {
      hide Safe, Reported;
      var ch, id := motors[t].ch, motors[t].id;
      ok := Send(t, Stop);
      tail := [Tx(ch, id, Stop, ok)];
      if !ok { return; }
      ok := Send(t, SetRunMode(MODE_MIT));
      tail := tail + [Tx(ch, id, SetRunMode(MODE_MIT), ok)];
      if !ok { return; }
      ghost var rest;
      ok, rest := PrimeAndEnable(t);
      assert (tail + rest)[2..] == rest;
      tail := tail + rest;
    }

    /** enable_selected_motor: nothing is sent to switch the motor on unless its own position was just
        read and lies in the MIT range; the comparisons are the C ones, blind to NaN. */
    method EnableSelected(t: nat) returns (outcome: Outcome, ghost asked: seq<Event>, ghost tail: seq<Event>)
      requires Valid() && t < |motors| && !motors[t].enabled
      modifies this`log, this`motors, this`refusals
      ensures Valid() && SameKeys(old(motors), motors) && log == old(log) + asked + tail
      ensures forall i | 0 <= i < |motors| && i != t :: motors[i].enabled == old(motors)[i].enabled && motors[i].hold == old(motors)[i].hold
      ensures Toggled(cfg, t, old(motors), asked, tail, motors)
      ensures outcome.Done? ==> outcome.ok == motors[t].enabled
    {
      hide Safe, EnableFrames, Refresh, SwitchOnFrames, Reports, InMitRange, Replay;
      tail := [];
      var ok;
      ok, asked := RefreshPosition(t);
      InRange(t);
      if ok && !motors[t].position.Below(POSITION.lo) && !motors[t].position.Above(POSITION.hi) {
        SetHold(t);
        ok, tail := SwitchOn(t);
        SwitchedOn(cfg, motors[t], asked, tail);
      } else {
        NotSwitchedOn(cfg, motors[t], asked, ok, motors[t].position);
        ok := false;
      }
      var threw := SetStatus();
      return if threw then Threw else Done(ok), asked, tail;
    }

    /** The comparisons let NaN through, but no motor ever has a position that is not finite. */
    lemma InRange(t: nat)
      requires Valid() && t < |motors|
      ensures var p := motors[t].position; InMitRange(p) <==> !p.Below(POSITION.lo) && !p.Above(POSITION.hi)
    {
      assert MotorSafe(cfg, motors[t], log, !leaving);
    }

    // ----- holding and stopping -----

    /** One enabled motor's turn in send_hold_commands. */
    method HoldOne(t: nat) returns (ok: bool, ghost frames: seq<Event>)
      requires Valid() && t < |motors| && motors[t].enabled
      modifies this`log, this`motors
      ensures Valid() && log == old(log) + frames
      ensures |motors| == |old(motors)| && motors == old(motors)[t := motors[t]]
      ensures ok <==> motors[t] == old(motors)[t]
      ensures HoldStep(cfg, old(motors)[t], motors[t], frames)
    {
      hide Safe, Sorted, HoldCommand;
      var cmd := HoldCommand(cfg, motors[t].hold);
      HoldFrameKeepsSafe(t, cmd);
      ok := Transmit(motors[t].ch, motors[t].id, cmd);
      frames := [Tx(motors[t].ch, motors[t].id, cmd, ok)];
      if !ok {
        ghost var sent := StopDropped(t);
        frames := frames + [Tx(motors[t].ch, motors[t].id, Stop, sent)];
      }
    }

    /** The STOP after a refused hold frame; its result is ignored. */
    method StopDropped(t: nat) returns (ghost sent: bool)
      requires Shape() && t < |motors|
      requires forall b :: Safe(cfg, SwitchedOff(motors, t), log + [Tx(motors[t].ch, motors[t].id, Stop, b)], !leaving)
      modifies this`log, this`motors
      ensures Valid() && motors == SwitchedOff(old(motors), t)
      ensures log == old(log) + [Tx(motors[t].ch, motors[t].id, Stop, sent)]
    {
      assert Sorted(SwitchedOff(motors, t)) by {
        assert Safe(cfg, SwitchedOff(motors, t), log + [Tx(motors[t].ch, motors[t].id, Stop, true)], !leaving);
      }
      hide Safe, Sorted;
      sent := Transmit(motors[t].ch, motors[t].id, Stop);
      motors := SwitchedOff(motors, t);
    }

    /** Whatever becomes of a hold frame and, if it is refused, of the STOP after it. */
    lemma HoldFrameKeepsSafe(t: nat, cmd: Command)
      requires Valid() && t < |motors| && motors[t].enabled && cmd == HoldCommand(cfg, motors[t].hold)
      ensures var ch, id := motors[t].ch, motors[t].id;
              && Safe(cfg, motors, log + [Tx(ch, id, cmd, true)], !leaving)
              && forall sent :: Safe(cfg, SwitchedOff(motors, t), log + [Tx(ch, id, cmd, false)] + [Tx(ch, id, Stop, sent)], !leaving)
    {
      assert MotorSafe(cfg, motors[t], log, !leaving);
      hide Safe, Sorted;
      HarmlessKeepsSafe(cfg, motors, log, Tx(motors[t].ch, motors[t].id, cmd, true), !leaving);
      DropKeepsSafe(cfg, motors, log, t, cmd, true, !leaving);
      DropKeepsSafe(cfg, motors, log, t, cmd, false, !leaving);
    }

    /** send_hold_commands. When assigning the status text throws, motors from `done` on got nothing. */
    method SendHold() returns (outcome: Outcome, ghost events: seq<Event>, ghost done: nat)
      requires Valid()
      modifies this`log, this`motors
      ensures Valid() && log == old(log) + events && |motors| == |old(motors)| && done <= |motors|
      ensures HoldRound(cfg, old(motors)[..done], motors[..done], events) && motors[done..] == old(motors)[done..]
      ensures outcome.Done? ==> done == |motors|
    {
      hide Safe, HoldStep, HoldRound, Permitted;
      ghost var was := motors;
      events := [];
      HoldRoundStart(cfg, was);
      var i := 0;
      while i < |motors|
        invariant Valid() && log == old(log) + events && 0 <= i <= |motors| == |was|
        invariant HoldRound(cfg, was[..i], motors[..i], events) && motors[i..] == was[i..]
      {
        ghost var mid := motors;
        ghost var frames := [];
        var ok := true;
        if motors[i].enabled {
          ok, frames := HoldOne(i);
        } else {
          StaysOff(cfg, mid[i]);
        }
        HoldRoundExtend(cfg, was, mid, motors, events, frames, i);
        events := events + frames;
        i := i + 1;
        if !ok {
          var threw := SetStatus();
          if threw { return Threw, events, i; }
        }
      }
      return Done(true), events, i;
    }

    ghost method BeginExit()
      requires Valid()
      modifies this`leaving
      ensures leaving && Valid()
    {
      Relax(cfg, motors, log, !leaving);
      leaving := true;
    }

    /** stop_all: transmit results are ignored. */
    method StopAll() returns (ghost events: seq<Event>)
      requires Valid()
      modifies this`log, this`motors, this`leaving
      ensures leaving && Valid() && log == old(log) + events && motors == AllOff(old(motors)) && StopRound(old(motors), events)
    {
      hide Valid, StopRound, AllOff;
      BeginExit();
      ghost var was := motors;
      events := [];
      StopRoundStart(was);
      var i := 0;
      while i < |motors|
        invariant leaving && Valid() && log == old(log) + events && 0 <= i <= |motors| == |was|
        invariant StopRound(was[..i], events) && motors == AllOff(was[..i]) + was[i..]
      {
        ghost var mid := motors;
        ghost var frames := [];
        if motors[i].enabled {
          ghost var sent := StopIgnoringResult(i);
          frames := [Tx(motors[i].ch, motors[i].id, Stop, sent)];
        }
        StopRoundExtend(was, mid, motors, events, frames, i);
        events := events + frames;
        i := i + 1;
      }
      assert was[..i] == was && was[i..] == [];
    }

    // ----- polling -----

    /** One channel's turn in poll_disabled_positions. */
    method PollChannel(ch: nat) returns (ghost asked: seq<Event>)
      requires Valid() && ch < 4 && open[ch] && cursors[ch] < |motors|
      modifies this`log, this`cursors
      ensures Valid() && log == old(log) + asked && ChannelAsked(motors, true, ch, old(cursors)[ch], asked)
      ensures cursors == old(cursors)[ch := AfterPoll(motors, ch, old(cursors)[ch])]
    {
      hide Safe, Slot, Next;
      var cursor, n := cursors[ch], |motors|;
      FirstSlot(cursor, n);
      var checked := 0;
      while checked < n
        invariant 0 <= checked <= n && Valid() && log == old(log) && cursors == old(cursors)
        invariant Pick(motors, ch, cursor, n) == Pick(motors, ch, Slot(cursor, checked, n), n - checked)
      {
        NextSlot(cursor, checked, n);
        var index := Slot(cursor, checked, n);
        if Eligible(motors[index], ch) {
          var ok := Send(index, ReadMechPos);
          cursors := cursors[ch := Slot(index, 1, n)];
          return [Tx(ch, motors[index].id, ReadMechPos, ok)];
        }
        checked := checked + 1;
      }
      return [];
    }

    /** poll_disabled_positions: each open channel asks one disabled motor, if it has one. */
    method PollDisabled() returns (ghost parts: seq<seq<Event>>)
      requires Valid() && cursors == CursorsAt(polls, open, |polls|) && SameMotors(polls, Chs(motors))
      modifies this`log, this`cursors, this`polls
      ensures Valid() && log == old(log) + Flatten(parts) && polls == old(polls) + [motors]
      ensures PollAsked(motors, open, old(cursors), parts) && cursors == CursorsAt(polls, open, |polls|)
    {
      hide Safe, Sorted, PolledUpTo, PollAsked, CursorsAt, Pick, AfterPoll, ChannelAsked, Flatten, SameMotors;
      ghost var before := cursors;
      if motors != [] { CursorsStayInRange(polls, open, Chs(motors), |polls|); }
      parts := [];
      PolledNone(motors, open, before);
      for ch := 0 to 4
        invariant Valid() && log == old(log) + Flatten(parts) && polls == old(polls)
        invariant PolledUpTo(motors, open, before, cursors, parts, ch)
      {
        ghost var asked := [];
        CursorUntouched(motors, open, before, cursors, parts, ch);
        ghost var mid := cursors;
        if open[ch] && motors != [] { asked := PollChannel(ch); }
        PolledStep(motors, open, before, mid, cursors, parts, ch, asked);
        parts := parts + [asked];
      }
      PolledAll(motors, open, before, cursors, parts);
      CursorsAdvance(polls, open, motors, cursors);
      polls := polls + [motors];
    }

    // ----- the control loop -----

    /** What every tick starts from; asks is what each poll so far put on the bus. */
    ghost predicate Ready(asks: seq<seq<seq<Event>>>)
      reads this
    {
      && Valid() && cursors == CursorsAt(polls, open, |polls|)
      && SameMotors(polls, Chs(motors)) && PollsLogged(log, asks, polls, open)
    }

    method ToggleSelected(selected: nat) returns (threw: bool, ghost typed: seq<Event>)
      requires Valid() && selected < |motors|
      modifies this`log, this`motors, this`refusals
      ensures Valid() && SameKeys(old(motors), motors) && log == old(log) + typed
      ensures KeyStep(cfg, Toggle, selected, old(motors), typed, motors)
    {
      hide Safe, Toggled, Sorted;
      var outcome;
      if motors[selected].enabled {
        ghost var sent;
        outcome, sent := DisableSelected(selected);
        typed := [Tx(motors[selected].ch, motors[selected].id, Stop, sent)];
      } else {
        ghost var asked, tail;
        outcome, asked, tail := EnableSelected(selected);
        typed := asked + tail;
      }
      threw := outcome.Threw?;
    }

    /** The key's turn: move the selection, or toggle the selected motor. */
    method HandleKey(key: Key, selected: nat) returns (next: nat, threw: bool, ghost typed: seq<Event>)
      requires Valid() && (motors == [] || selected < |motors|)
      modifies this`log, this`motors, this`refusals
      ensures Valid() && SameKeys(old(motors), motors) && log == old(log) + typed
      ensures KeyStep(cfg, key, selected, old(motors), typed, motors)
      ensures next == Select(key, selected, |motors|) && (motors == [] || next < |motors|)
    {
      hide Safe, EnableFrames, Sorted;
      next, threw, typed := selected, false, [];
      if motors == [] { return; }
      match key
      case Up => next := Slot(selected, |motors| - 1, |motors|);
      case Down => next := Slot(selected, 1, |motors|);
      case Toggle => threw, typed := ToggleSelected(selected);
      case NoKey =>
      case Quit =>
    }

    /** refresh_initial_positions, cut short by a signal: every motor refreshed in turn, and every frame
        received processed. */
    method RefreshInitial() returns (cut: bool, ghost asked: seq<seq<Event>>)
      requires Valid()
      modifies this`log, this`motors, this`refusals
      ensures Valid() && AllSameControl(old(motors), motors) && log == old(log) + Flatten(asked)
      ensures InTurn(cfg, old(motors), asked) && (!cut ==> |asked| == |motors|)
      ensures motors == Replay(cfg, old(motors), Flatten(asked))
    {
      hide Safe, Refresh, Refreshed, Reports, Replay, Flatten, InTurn;
      asked := [];
      NoneRefreshed(motors);
      var index := 0;
      var running: bool := *;
      while index < |motors| && running
        invariant Valid() && AllSameControl(old(motors), motors) && log == old(log) + Flatten(asked)
        invariant index == |asked| <= |motors| && InTurn(cfg, old(motors), asked)
        invariant motors == Replay(cfg, old(motors), Flatten(asked))
      {
        ghost var events;
        var ok;
        ok, events := RefreshPosition(index);
        RefreshDecided(cfg, motors[index], events, ok);
        OneMoreRefreshed(old(motors), asked, events, motors[index]);
        asked := asked + [events];
        index := index + 1;
        running := *;
      }
      cut := index < |motors|;
    }

    lemma NoneRefreshed(start: seq<Motor>)
      ensures Flatten([]) == [] && InTurn(cfg, start, []) && Replay(cfg, start, []) == start && AllSameControl(start, start)
    {
    }

    lemma OneMoreRefreshed(start: seq<Motor>, asked: seq<seq<Event>>, events: seq<Event>, m: Motor)
      requires InTurn(cfg, start, asked) && |asked| < |start| && Refreshed(cfg, m, events)
      requires m.ch == start[|asked|].ch && m.id == start[|asked|].id
      ensures InTurn(cfg, start, asked + [events]) && Flatten(asked + [events]) == Flatten(asked) + events
      ensures Replay(cfg, start, Flatten(asked + [events])) == Replay(cfg, Replay(cfg, start, Flatten(asked)), events)
    {
      hide Refresh, Names;
      assert (asked + [events])[..|asked|] == asked;
      ReplayAppend(start, Flatten(asked), events);
    }

    /** The hold round of a tick. */
    method HoldTick(ghost asks: seq<seq<seq<Event>>>) returns (threw: bool, ghost held: seq<Event>)
      requires Ready(asks)
      modifies this`log, this`motors
      ensures Ready(asks) && SameKeys(old(motors), motors) && log == old(log) + held
      ensures !threw ==> HoldRound(cfg, old(motors), motors, held)
    {
      hide Safe, CursorsAt, PollsLogged, HoldRound;
      var outcome;
      ghost var done;
      outcome, held, done := SendHold();
      HoldRoundKeys(cfg, old(motors), motors, held, done);
      ChsSame(old(motors), motors);
      PollsLoggedGrow(old(log), log, asks, polls, open);
      threw := outcome.Threw?;
      if !threw { WholeRound(cfg, old(motors), motors, held); }
    }

    /** The drain of a tick. */
    method DrainTick(ghost asks: seq<seq<seq<Event>>>) returns (ghost drained: seq<seq<Event>>)
      requires Ready(asks)
      modifies this`log, this`motors, this`refusals
      ensures Ready(asks) && SameKeys(old(motors), motors) && log == old(log) + Flatten(drained)
      ensures Emptied(open, drained, old(refusals), refusals, 4) && motors == Replay(cfg, old(motors), Flatten(drained))
    {
      hide Safe, CursorsAt, PollsLogged, Emptied, Join4;
      drained := DrainAndProcess();
      DrainedFrames(open, drained, old(refusals), refusals);
      SameControlKeys(old(motors), motors);
      ChsSame(old(motors), motors);
      PollsLoggedGrow(old(log), log, asks, polls, open);
    }

    /** One tick after the key: the hold round, every fifth tick a poll, then the drain and the screen. */
    method Serve(tick: nat, key: Key, ghost asks: seq<seq<seq<Event>>>)
      returns (threw: bool, ghost now: seq<seq<seq<Event>>>, ghost s: Service)
      requires Ready(asks)
      modifies this
      ensures Ready(now) && SameKeys(old(motors), motors) && old(log) <= log && leaving == old(leaving)
      ensures !threw ==> log == old(log) + ServiceFrames(s) && ServeStep(cfg, open, tick, old(motors), s, motors)
      ensures !threw ==> s.cursors == old(cursors) && PollAdds(tick, s, asks, now, old(polls), polls)
      ensures !threw ==> s.idle == old(refusals) && s.idleAfter == refusals
      ensures asks <= now && old(polls) <= polls
    {
      hide Ready, PollAsked, HoldRound, Replay, Emptied;
      now := asks;
      ghost var start, held, parts := motors, [], [];
      threw, held := HoldTick(asks);
      s := Service(held, motors, cursors, parts, [], [], []);
      if threw { return; }
      if tick % OFF_POLL_DIVIDER == 0 { now, parts := Poll(asks); }
      ghost var mid := motors;
      ghost var drained := DrainTick(now);
      s := Service(held, mid, old(cursors), parts, drained, old(refusals), refusals);
      SameKeysTrans(start, mid, motors);
      if tick % UI_REFRESH_DIVIDER == 0 || key != NoKey { threw := SetStatus(); }
    }

    method Poll(ghost asks: seq<seq<seq<Event>>>)
      returns (ghost now: seq<seq<seq<Event>>>, ghost parts: seq<seq<Event>>)
      requires Ready(asks)
      modifies this`log, this`cursors, this`polls
      ensures Ready(now) && log == old(log) + Flatten(parts) && polls == old(polls) + [motors]
      ensures PollAsked(motors, open, old(cursors), parts) && now == asks + [parts]
    {
      hide Safe, CursorsAt, PollsLogged, PollAsked;
      parts := PollDisabled();
      PollsLoggedSnoc(old(log), asks, old(polls), open, parts, motors);
      now := asks + [parts];
    }

    /** The key's turn and the rest of the tick. */
    method OneTick(tick: nat, key: Key, selected: nat, ghost asks: seq<seq<seq<Event>>>)
      returns (next: nat, threw: bool, ghost now: seq<seq<seq<Event>>>, ghost t: Tick)
      requires Ready(asks) && (motors == [] || selected < |motors|)
      modifies this
      ensures Ready(now) && SameKeys(old(motors), motors) && old(log) <= log && leaving == old(leaving)
      ensures motors == [] || next < |motors|
      ensures !threw ==> log == old(log) + t.typed + ServiceFrames(t.service)
      ensures !threw ==> TickStep(cfg, open, tick, t, motors, next)
      ensures !threw ==> t.before == old(motors) && t.selected == selected && t.key == key && t.service.cursors == old(cursors)
      ensures !threw ==> PollAdds(tick, t.service, asks, now, old(polls), polls) && t.service.idleAfter == refusals
      ensures asks <= now && old(polls) <= polls
    {
      hide Safe, CursorsAt, PollsLogged, KeyStep, ServeStep, Select;
      now := asks;
      ghost var typed;
      next, threw, typed := HandleKey(key, selected);
      ghost var mid := motors;
      t := Tick(key, selected, old(motors), typed, mid, Service([], mid, [], [], [], [], []));
      ChsSame(old(motors), mid);
      PollsLoggedGrow(old(log), log, asks, polls, open);
      if threw { return; }
      ghost var service;
      threw, now, service := Serve(tick, key, asks);
      t := t.(service := service);
      SameKeysTrans(old(motors), mid, motors);
    }

    lemma CursorsFollow(asks: seq<seq<seq<Event>>>)
      requires Ready(asks)
      ensures |open| == 4 && cursors == CursorsAt(polls, open, |polls|) && |asks| == |polls|
    {
    }

    /** The loop of main, for any keys, any signals and any exception: `ticks` are the ticks it
        completed, from the motors it started with to `upTo`. */
    method Loop() returns (threw: bool, ghost asks: seq<seq<seq<Event>>>, ghost ticks: seq<Tick>,
                           ghost upTo: seq<Motor>, ghost sel: nat)
      requires Ready([]) && polls == []
      modifies this
      ensures Ready(asks) && SameKeys(old(motors), motors) && leaving == old(leaving)
      ensures Trace(cfg, open, old(motors), ticks, upTo, sel) && old(log) + History(ticks) <= log
      ensures !threw ==> upTo == motors && log == old(log) + History(ticks)
      ensures PollsOfTicks(ticks, asks, polls, open)
      ensures !threw ==> |polls| == (|ticks| + 4) / 5
    {
      hide PollsOfTicks, PollAdds, CursorsAt, Ready, Trace, TickStep, SameKeys, History, ServiceFrames;
      asks, ticks, upTo, sel := [], [], motors, 0;
      TraceStart(cfg, open, motors);
      CursorsFollow(asks);
      NoTicksNoPolls(asks, polls, open);
      threw := SetStatus(); // the terminal and the first screen
      var tick: nat, selected: nat := 0, 0;
      var running: bool := *;
      var budget: nat :| budget >= 0;
      while running && !threw && budget > 0
        invariant Ready(asks) && SameKeys(old(motors), motors) && (motors == [] || selected < |motors|)
        invariant leaving == old(leaving)
        invariant Trace(cfg, open, old(motors), ticks, upTo, sel) && old(log) + History(ticks) <= log
        invariant !threw ==> upTo == motors && sel == selected && log == old(log) + History(ticks)
        invariant PollsOfTicks(ticks, asks, polls, open)
        invariant !threw ==> |ticks| == tick && |asks| == |polls| == (tick + 4) / 5
        decreases budget
      {
        budget := budget - 1;
        running := *;
        var key: Key := *;
        if key == Quit { running := false; }
        ghost var start, was, asked := motors, polls, asks;
        ghost var t;
        CursorsFollow(asks);
        selected, threw, asks, t := OneTick(tick, key, selected, asks);
        SameKeysTrans(old(motors), start, motors);
        if threw {
          PollsOfTicksMore(ticks, asked, asks, was, polls, open);
        } else {
          TickDone(cfg, open, old(motors), ticks, t, motors, selected, asked, asks, was, polls);
          ticks, upTo, sel := ticks + [t], motors, selected;
        }
        tick := tick + 1;
      }
    }

    /**
     main after the scan: the initial refresh, the ticks, and stop_all however the loop ends. Nothing
     stays enabled, no ENABLE attempt lacks a later STOP attempt, and exactly the motors that LeftArmed
     names are still armed.
     */
    method Run() returns (threw: bool, ghost run: RunRecord)
      requires Valid() && !leaving && polls == [] && cursors == [0, 0, 0, 0]
      modifies this
      ensures Valid() && SameKeys(old(motors), motors)
      ensures AllSameControl(old(motors), run.initial) && run.initial == Replay(cfg, old(motors), Flatten(run.first))
      ensures InTurn(cfg, old(motors), run.first) && (!run.cut ==> |run.first| == |run.initial|)
      ensures Trace(cfg, open, run.initial, run.ticks, run.upTo, run.selected)
      ensures old(log) + Flatten(run.first) + History(run.ticks) <= run.seen
      ensures !threw ==> run.on == run.upTo && run.seen == old(log) + Flatten(run.first) + History(run.ticks)
      ensures PollsOfTicks(run.ticks, run.asks, polls, open)
      ensures !threw ==> |polls| == (|run.ticks| + 4) / 5
      ensures Safe(cfg, run.on, run.seen, true) && StopRound(run.on, run.stops)
      ensures log == run.seen + run.stops && motors == AllOff(run.on)
      ensures forall t | 0 <= t < |run.on| ::
                Armed(log, run.on[t].ch, run.on[t].id) <==> LeftArmed(run.on, run.seen, run.stops, t)
      ensures NoStranger(run.on, log)
      ensures forall ch: nat, id: Byte :: !Pending(log, ch, id)
      ensures PollsLogged(log, run.asks, polls, open) && SameMotors(polls, Chs(motors))
    {
      hide Safe, CursorsAt, PollsLogged, PollsOfTicks, StopRound, AllOff, Trace, LeftArmed, Armed, NoStranger;
      ghost var start := motors;
      var cut;
      ghost var first;
      cut, first := RefreshInitial();
      ghost var initial := motors;
      SameControlKeys(start, initial);
      NothingPolled(log, polls, open);
      ghost var asks, ticks, upTo, sel;
      threw, asks, ticks, upTo, sel := Loop();
      SameKeysTrans(start, initial, motors);
      ghost var on, seen := motors, log;
      ghost var stops := StopAll();
      run := RunRecord(asks, first, cut, initial, ticks, upTo, sel, on, seen, stops);
      AllOffKeys(on);
      SameKeysTrans(start, on, motors);
      ChsSame(on, motors);
      PollsLoggedGrow(seen, log, asks, polls, open);
      NonePending(cfg, motors, log);
      ExitExactly(cfg, on, seen, stops);
    }
  }
}
