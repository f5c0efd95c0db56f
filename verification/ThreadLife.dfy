/**
 The life cycle of a MotorThread (src/motor_thread.cpp): start, stop, the destructor, and the
 thread's own steps between them, one frame at a time, in any order the callers and the scheduler
 choose. Joining is "the thread finishes the cycle it is in and sees the flag".

 Step says what one call or thread step does; a run is a fold over any list of them. The class Life is
 the program, proved to take exactly those steps.
 */
module ThreadLife {
  import opened Util
  import opened Wire
  import opened RobotConfig
  import opened SharedState
  import opened MotorThreads

  /** A transmission attempt, whether or not the driver accepted the frame. */
  datatype Sent = Sent(motor: nat, cmd: Command)

  datatype Call = Start(err: int) | Stop | Destroy | RaiseShutdown | ThreadStep(a: ActionState)

  /** shutdown is SharedState::shutdown, set by anyone and cleared by nobody; cycle is the snapshot and
      the next motor while the thread is inside send_commands. */
  datatype State = State(started: bool, shutdown: bool, cycle: Option<(ActionState, nat)>, log: seq<Sent>)

  const FRESH := State(false, false, None, [])

  predicate WellFormed(bindings: seq<Binding>, s: State) {
    && JointsInRange(bindings)
    && (s.cycle.Some? ==> s.started && s.cycle.value.0.Sized() && s.cycle.value.1 <= |bindings|)
  }

  predicate CallOk(c: Call) { c.ThreadStep? ==> c.a.Sized() }

  function Enables(n: nat): (e: seq<Sent>)
    ensures |e| == n && forall i | 0 <= i < n :: e[i] == Sent(i, Enable)
  {
    seq(n, i requires 0 <= i < n => Sent(i, Enable))
  }

  /** Two STOPs per motor, motor by motor. */
  function Stops(n: nat): seq<Sent> {
    if n == 0 then [] else Stops(n - 1) + [Sent(n - 1, Command.Stop), Sent(n - 1, Command.Stop)]
  }

  /** What is left of a cycle: one MIT frame per motor from i on. */
  function Rest(bindings: seq<Binding>, a: ActionState, i: nat): seq<Sent>
    requires JointsInRange(bindings) && a.Sized() && i <= |bindings|
    decreases |bindings| - i
  {
    if i == |bindings| then []
    else [Sent(i, CommandFor(a, bindings[i].joint))] + Rest(bindings, a, i + 1)
  }

  /** What the thread still sends before it looks at the flag again. */
  function Remaining(bindings: seq<Binding>, cycle: Option<(ActionState, nat)>): seq<Sent>
    requires JointsInRange(bindings)
    requires cycle.Some? ==> cycle.value.0.Sized() && cycle.value.1 <= |bindings|
  {
    if cycle.None? then [] else Rest(bindings, cycle.value.0, cycle.value.1)
  }

  function Stopped(bindings: seq<Binding>, s: State): State
    requires WellFormed(bindings, s)
  {
    if !s.started then s
    else State(false, true, None, s.log + Remaining(bindings, s.cycle) + Stops(|bindings|))
  }

  function Step(bindings: seq<Binding>, s: State, c: Call): (t: State)
    requires WellFormed(bindings, s) && CallOk(c)
    ensures WellFormed(bindings, t)
  {
    match c
    case Start(err) =>
      if s.started then s else s.(started := err == 0, log := s.log + Enables(|bindings|))
    case Stop() => Stopped(bindings, s)
    case Destroy => Stopped(bindings, s)
    case RaiseShutdown => s.(shutdown := true)
    case ThreadStep(a) =>
      match s.cycle
      case None => if s.started && !s.shutdown then s.(cycle := Some((a, 0))) else s
      case Some((b, i)) =>
        if i == |bindings| then s.(cycle := None)
        else s.(cycle := Some((b, i + 1)), log := s.log + [Sent(i, CommandFor(b, bindings[i].joint))])
  }

  /** A step inside a cycle sends the first of what remains. */
  lemma {:induction false} CycleStep(bindings: seq<Binding>, s: State)
    requires WellFormed(bindings, s) && s.cycle.Some? && s.shutdown
    ensures var t := Step(bindings, s, ThreadStep(s.cycle.value.0));
            && t.started == s.started && t.shutdown
            && t.log + Remaining(bindings, t.cycle) == s.log + Remaining(bindings, s.cycle)
            && (t.cycle.Some? ==> t.cycle.value.1 == s.cycle.value.1 + 1)
  {
    hide CommandFor;
  }

  function RunLife(bindings: seq<Binding>, s: State, calls: seq<Call>): (t: State)
    requires WellFormed(bindings, s) && forall k | 0 <= k < |calls| :: CallOk(calls[k])
    ensures WellFormed(bindings, t)
    decreases |calls|
  {
    if calls == [] then s
    else Step(bindings, RunLife(bindings, s, calls[..|calls| - 1]), calls[|calls| - 1])
  }

  // ----- what every run keeps -----

  predicate NoMit(log: seq<Sent>) {
    forall k | 0 <= k < |log| :: !log[k].cmd.Mit?
  }

  /** The commands attempted to motor i, in order. */
  function ToMotor(log: seq<Sent>, i: nat): seq<Command> {
    if log == [] then [] else
      ToMotor(log[..|log| - 1], i) + if log[|log| - 1].motor == i then [log[|log| - 1].cmd] else []
  }

  /** The last two attempts to motor i are STOPs. */
  predicate EndsStoppedTwice(log: seq<Sent>, i: nat) {
    var c := ToMotor(log, i);
    |c| >= 2 && c[|c| - 1] == Command.Stop && c[|c| - 2] == Command.Stop
  }

  lemma ToMotorSnoc(log: seq<Sent>, x: Sent, i: nat)
    ensures ToMotor(log + [x], i) == ToMotor(log, i) + if x.motor == i then [x.cmd] else []
  {
    assert (log + [x])[..|log|] == log;
  }

  lemma {:induction false} StopsEndTwice(log: seq<Sent>, n: nat, i: nat)
    requires i < n
    ensures EndsStoppedTwice(log + Stops(n), i)
  {
    var stop := Sent(n - 1, Command.Stop);
    var before := log + Stops(n - 1);
    assert log + Stops(n) == before + [stop] + [stop];
    ToMotorSnoc(before, stop, i);
    ToMotorSnoc(before + [stop], stop, i);
    if i < n - 1 { StopsEndTwice(log, n - 1, i); }
  }

  /** With the flag up and no cycle begun, no call or step sends a MIT frame or begins a cycle. */
  lemma {:induction false} QuietStep(bindings: seq<Binding>, s: State, c: Call)
    requires WellFormed(bindings, s) && CallOk(c) && s.shutdown && s.cycle.None?
    ensures var t := Step(bindings, s, c);
            t.shutdown && t.cycle.None? && s.log <= t.log && NoMit(t.log[|s.log|..])
  {
    StopsNoMit(|bindings|);
    assert forall e: seq<Sent> :: (s.log + e)[|s.log|..] == e;
  }

  lemma {:induction false} StopsNoMit(n: nat)
    ensures NoMit(Stops(n))
  {
    if n > 0 { StopsNoMit(n - 1); }
  }

  lemma {:induction false} QuietRun(bindings: seq<Binding>, s: State, calls: seq<Call>)
    requires WellFormed(bindings, s) && (forall k | 0 <= k < |calls| :: CallOk(calls[k]))
    requires s.shutdown && s.cycle.None?
    ensures var t := RunLife(bindings, s, calls);
            t.shutdown && t.cycle.None? && s.log <= t.log && NoMit(t.log[|s.log|..])
    decreases |calls|
  {
    if calls != [] {
      hide Step, NoMit;
      var n := |calls| - 1;
      QuietRun(bindings, s, calls[..n]);
      var m := RunLife(bindings, s, calls[..n]);
      QuietStep(bindings, m, calls[n]);
      NoMitJoined(s.log, m.log, Step(bindings, m, calls[n]).log);
    }
  }

  lemma NoMitJoined(a: seq<Sent>, b: seq<Sent>, c: seq<Sent>)
    requires a <= b <= c && NoMit(b[|a|..]) && NoMit(c[|b|..])
    ensures NoMit(c[|a|..])
  {
    assert c[|a|..] == b[|a|..] + c[|b|..];
  }

  lemma {:induction false} RunLifeAppend(bindings: seq<Binding>, s: State, a: seq<Call>, b: seq<Call>)
    requires WellFormed(bindings, s)
    requires (forall k | 0 <= k < |a| :: CallOk(a[k])) && (forall k | 0 <= k < |b| :: CallOk(b[k]))
    ensures RunLife(bindings, s, a + b) == RunLife(bindings, RunLife(bindings, s, a), b)
    decreases |b|
  {
    if b == [] {
      assert a + b == a;
    } else {
      var n := |b| - 1;
      assert (a + b)[..|a + b| - 1] == a + b[..n] && (a + b)[|a + b| - 1] == b[n];
      RunLifeAppend(bindings, s, a, b[..n]);
    }
  }

  /**
   In every run: if call p is stop() (or the destructor) on a started thread, then when it returns every
   motor's last two attempts are STOPs, and no MIT frame is attempted in the rest of the run.
   */
  lemma {:induction false} StopHolds(bindings: seq<Binding>, calls: seq<Call>, p: nat)
    requires JointsInRange(bindings) && (forall k | 0 <= k < |calls| :: CallOk(calls[k]))
    requires p < |calls| && (calls[p].Stop? || calls[p].Destroy?) && RunLife(bindings, FRESH, calls[..p]).started
    ensures var mid, end := RunLife(bindings, FRESH, calls[..p + 1]), RunLife(bindings, FRESH, calls);
            && !mid.started && mid.shutdown && mid.cycle.None?
            && (forall i | 0 <= i < |bindings| :: EndsStoppedTwice(mid.log, i))
            && mid.log <= end.log && NoMit(end.log[|mid.log|..])
  {
    var s := RunLife(bindings, FRESH, calls[..p]);
    assert calls[..p + 1][..p] == calls[..p];
    var mid := RunLife(bindings, FRESH, calls[..p + 1]);
    assert mid == Stopped(bindings, s);
    var sent := s.log + Remaining(bindings, s.cycle);
    forall i | 0 <= i < |bindings| ensures EndsStoppedTwice(mid.log, i) {
      StopsEndTwice(sent, |bindings|, i);
    }
    assert calls == calls[..p + 1] + calls[p + 1..];
    RunLifeAppend(bindings, FRESH, calls[..p + 1], calls[p + 1..]);
    QuietRun(bindings, mid, calls[p + 1..]);
  }

  lemma {:induction false} AfterStart(bindings: seq<Binding>, calls: seq<Call>, p: nat)
    requires JointsInRange(bindings) && (forall k | 0 <= k < |calls| :: CallOk(calls[k]))
    requires p < |calls| && calls[p].Start?
    ensures var s := RunLife(bindings, FRESH, calls[..p]);
            RunLife(bindings, FRESH, calls[..p + 1])
            == if s.started then s else s.(started := calls[p].err == 0, log := s.log + Enables(|bindings|))
  {
    assert calls[..p + 1][..p] == calls[..p];
  }

  /** A thread started after any stop, or after the flag was raised, never sends a MIT frame. */
  lemma {:induction false} RestartStaysQuiet(bindings: seq<Binding>, calls: seq<Call>, p: nat)
    requires JointsInRange(bindings) && (forall k | 0 <= k < |calls| :: CallOk(calls[k]))
    requires p < |calls| && calls[p].Start? && calls[p].err == 0
    requires var s := RunLife(bindings, FRESH, calls[..p]); s.shutdown && !s.started
    ensures var s, end := RunLife(bindings, FRESH, calls[..p]), RunLife(bindings, FRESH, calls);
            && RunLife(bindings, FRESH, calls[..p + 1]).started
            && s.log + Enables(|bindings|) <= end.log && NoMit(end.log[|s.log|..])
  {
    hide RunLife, Step, Enables;
    var s := RunLife(bindings, FRESH, calls[..p]);
    var mid := RunLife(bindings, FRESH, calls[..p + 1]);
    AfterStart(bindings, calls, p);
    assert calls == calls[..p + 1] + calls[p + 1..];
    RunLifeAppend(bindings, FRESH, calls[..p + 1], calls[p + 1..]);
    QuietRun(bindings, mid, calls[p + 1..]);
    NoMitBetween(s.log, Enables(|bindings|), RunLife(bindings, FRESH, calls).log);
  }

  lemma {:induction false} EnabledOnce(log: seq<Sent>, n: nat, i: nat)
    ensures ToMotor(log + Enables(n), i) == ToMotor(log, i) + if i < n then [Enable] else []
  {
    if n == 0 {
      assert log + Enables(0) == log;
    } else {
      assert log + Enables(n) == log + Enables(n - 1) + [Sent(n - 1, Enable)];
      EnabledOnce(log, n - 1, i);
      ToMotorSnoc(log + Enables(n - 1), Sent(n - 1, Enable), i);
    }
  }

  /**
   In every run, whatever the flag says and whether or not pthread_create succeeds: a start of a thread
   that is not started attempts exactly one ENABLE to every motor, and it is started exactly when err is 0.
   A start of a started thread changes nothing.
   */
  lemma {:induction false} StartHolds(bindings: seq<Binding>, calls: seq<Call>, p: nat)
    requires JointsInRange(bindings) && (forall k | 0 <= k < |calls| :: CallOk(calls[k]))
    requires p < |calls| && calls[p].Start?
    ensures var before, after := RunLife(bindings, FRESH, calls[..p]), RunLife(bindings, FRESH, calls[..p + 1]);
            if before.started then after == before
            else
              && after.started == (calls[p].err == 0) && after.shutdown == before.shutdown && after.cycle == before.cycle
              && before.log <= after.log && |after.log| == |before.log| + |bindings|
              && forall i: nat | i < |bindings| :: ToMotor(after.log, i) == ToMotor(before.log, i) + [Enable]
  {
    hide RunLife, Step;
    AfterStart(bindings, calls, p);
    var before := RunLife(bindings, FRESH, calls[..p]);
    forall i: nat | i < |bindings| && !before.started
      ensures ToMotor(before.log + Enables(|bindings|), i) == ToMotor(before.log, i) + [Enable]
    {
      EnabledOnce(before.log, |bindings|, i);
    }
  }

  // ----- whole cycles -----

  /** The MIT frames of a log, in order. */
  function MitsOf(log: seq<Sent>): seq<Sent> {
    if log == [] then []
    else MitsOf(log[..|log| - 1]) + if log[|log| - 1].cmd.Mit? then [log[|log| - 1]] else []
  }

  /** One frame per motor, each once and in order, with this action's commands. */
  predicate IsCycle(bindings: seq<Binding>, a: ActionState, frames: seq<Sent>)
    requires JointsInRange(bindings) && a.Sized()
  {
    && |frames| == |bindings|
    && forall i | 0 <= i < |frames| :: frames[i] == Sent(i, CommandFor(a, bindings[i].joint))
  }

  /** The frames are a cycle of each of these actions in turn. */
  predicate AreCycles(bindings: seq<Binding>, acts: seq<ActionState>, frames: seq<Sent>)
    requires JointsInRange(bindings) && forall k | 0 <= k < |acts| :: acts[k].Sized()
    decreases |acts|
  {
    if acts == [] then frames == []
    else
      var last, n := |acts| - 1, |frames| - |bindings|;
      n >= 0 && AreCycles(bindings, acts[..last], frames[..n]) && IsCycle(bindings, acts[last], frames[n..])
  }

  /** The snapshots a run takes: a thread step while the thread is started, the flag is down and no cycle
      is under way. */
  function Snapshots(bindings: seq<Binding>, calls: seq<Call>): (acts: seq<ActionState>)
    requires JointsInRange(bindings) && forall k | 0 <= k < |calls| :: CallOk(calls[k])
    ensures forall k | 0 <= k < |acts| :: acts[k].Sized()
    decreases |calls|
  {
    if calls == [] then []
    else
      var n := |calls| - 1;
      var s := RunLife(bindings, FRESH, calls[..n]);
      assert CallOk(calls[n]);
      Snapshots(bindings, calls[..n])
      + if calls[n].ThreadStep? && s.started && !s.shutdown && s.cycle.None? then [calls[n].a] else []
  }

  lemma {:induction false} MitsAppend(a: seq<Sent>, b: seq<Sent>)
    ensures MitsOf(a + b) == MitsOf(a) + MitsOf(b)
    decreases |b|
  {
    if b == [] {
      assert a + b == a;
    } else {
      assert (a + b)[..|a + b| - 1] == a + b[..|b| - 1];
      MitsAppend(a, b[..|b| - 1]);
    }
  }

  lemma {:induction false} NoMits(log: seq<Sent>)
    requires NoMit(log)
    ensures MitsOf(log) == []
  {
    if log != [] { NoMits(log[..|log| - 1]); }
  }

  lemma {:induction false} OnlyMits(log: seq<Sent>)
    requires forall k | 0 <= k < |log| :: log[k].cmd.Mit?
    ensures MitsOf(log) == log
  {
    if log != [] {
      OnlyMits(log[..|log| - 1]);
      assert log == log[..|log| - 1] + [log[|log| - 1]];
    }
  }

  lemma {:induction false} RestAt(bindings: seq<Binding>, a: ActionState, i: nat)
    requires JointsInRange(bindings) && a.Sized() && i <= |bindings|
    ensures |Rest(bindings, a, i)| == |bindings| - i
    ensures forall k | 0 <= k < |bindings| - i ::
              Rest(bindings, a, i)[k] == Sent(i + k, CommandFor(a, bindings[i + k].joint))
    decreases |bindings| - i
  {
    if i < |bindings| { RestAt(bindings, a, i + 1); }
  }

  /** The MIT frames sent and those still to come of the cycle under way. */
  function MitsDue(bindings: seq<Binding>, s: State): seq<Sent>
    requires WellFormed(bindings, s)
  {
    MitsOf(s.log) + Remaining(bindings, s.cycle)
  }

  lemma {:induction false} RemainingMits(bindings: seq<Binding>, s: State)
    requires WellFormed(bindings, s)
    ensures MitsOf(Remaining(bindings, s.cycle)) == Remaining(bindings, s.cycle)
  {
    if s.cycle.Some? { RestAt(bindings, s.cycle.value.0, s.cycle.value.1); }
    OnlyMits(Remaining(bindings, s.cycle));
  }

  /** Only a step that begins a cycle adds to them, and it adds exactly that cycle. */
  lemma {:induction false} MitsStep(bindings: seq<Binding>, s: State, c: Call)
    requires WellFormed(bindings, s) && CallOk(c)
    ensures var t := Step(bindings, s, c);
            MitsDue(bindings, t) == MitsDue(bindings, s)
              + if c.ThreadStep? && s.started && !s.shutdown && s.cycle.None? then Rest(bindings, c.a, 0) else []
  {
    hide CommandFor;
    match c {
      case Start(_) =>
        MitsAppend(s.log, Enables(|bindings|));
        NoMits(Enables(|bindings|));
      case RaiseShutdown =>
      case ThreadStep(a) => if s.cycle.Some? && s.cycle.value.1 < |bindings| { MitSent(bindings, s, a); }
      case _ => MitsStopped(bindings, s);
    }
  }

  lemma MitSnoc(log: seq<Sent>, x: Sent)
    requires x.cmd.Mit?
    ensures MitsOf(log + [x]) == MitsOf(log) + [x]
  {
    assert (log + [x])[..|log|] == log;
  }

  /** The step inside a cycle, and what remains after it. */
  lemma {:induction false} OneSent(bindings: seq<Binding>, s: State, a: ActionState, x: Sent)
    requires WellFormed(bindings, s) && a.Sized() && s.cycle.Some? && s.cycle.value.1 < |bindings|
    requires x == Sent(s.cycle.value.1, CommandFor(s.cycle.value.0, bindings[s.cycle.value.1].joint))
    ensures x.cmd.Mit?
    ensures var t := Step(bindings, s, ThreadStep(a));
            t.log == s.log + [x] && Remaining(bindings, s.cycle) == [x] + Remaining(bindings, t.cycle)
  {
    hide ActionState.Sized, Stopped, Enables;
  }

  lemma {:induction false} MitSent(bindings: seq<Binding>, s: State, a: ActionState)
    requires WellFormed(bindings, s) && a.Sized() && s.cycle.Some? && s.cycle.value.1 < |bindings|
    ensures MitsDue(bindings, Step(bindings, s, ThreadStep(a))) == MitsDue(bindings, s)
  {
    var x := Sent(s.cycle.value.1, CommandFor(s.cycle.value.0, bindings[s.cycle.value.1].joint));
    hide CommandFor, MitsOf, ActionState.Sized, Step, Remaining;
    OneSent(bindings, s, a, x);
    MitSnoc(s.log, x);
  }

  lemma {:induction false} MitsStopped(bindings: seq<Binding>, s: State)
    requires WellFormed(bindings, s)
    ensures MitsDue(bindings, Stopped(bindings, s)) == MitsDue(bindings, s)
  {
    if s.started {
      MitsAppend(s.log + Remaining(bindings, s.cycle), Stops(|bindings|));
      MitsAppend(s.log, Remaining(bindings, s.cycle));
      RemainingMits(bindings, s);
      StopsNoMit(|bindings|);
      NoMits(Stops(|bindings|));
    }
  }

  lemma {:induction false} CyclesSnoc(bindings: seq<Binding>, acts: seq<ActionState>, frames: seq<Sent>, a: ActionState)
    requires JointsInRange(bindings) && (forall k | 0 <= k < |acts| :: acts[k].Sized()) && a.Sized()
    requires AreCycles(bindings, acts, frames)
    ensures AreCycles(bindings, acts + [a], frames + Rest(bindings, a, 0))
  {
    RestAt(bindings, a, 0);
    assert (acts + [a])[..|acts|] == acts;
    var all := frames + Rest(bindings, a, 0);
    assert all[..|frames|] == frames && all[|frames|..] == Rest(bindings, a, 0);
  }

  /**
   In every run the MIT frames are whole cycles, one for each snapshot taken, the last still under way if
   the thread is inside it: each motor once, in order, with the commands of that snapshot.
   */
  lemma {:induction false} OnlyWholeCycles(bindings: seq<Binding>, calls: seq<Call>)
    requires JointsInRange(bindings) && forall k | 0 <= k < |calls| :: CallOk(calls[k])
    ensures var s := RunLife(bindings, FRESH, calls);
            AreCycles(bindings, Snapshots(bindings, calls), MitsOf(s.log) + Remaining(bindings, s.cycle))
    decreases |calls|
  {
    if calls != [] {
      hide AreCycles, WellFormed, RunLife, Step, MitsOf, Remaining, Rest, Snapshots;
      var n := |calls| - 1;
      OnlyWholeCycles(bindings, calls[..n]);
      var s := RunLife(bindings, FRESH, calls[..n]);
      LastCall(bindings, calls);
      MitsStep(bindings, s, calls[n]);
      if calls[n].ThreadStep? && s.started && !s.shutdown && s.cycle.None? {
        CyclesSnoc(bindings, Snapshots(bindings, calls[..n]), MitsDue(bindings, s), calls[n].a);
      } else {
        assert Snapshots(bindings, calls) == Snapshots(bindings, calls[..n]);
        assert MitsDue(bindings, Step(bindings, s, calls[n])) == MitsDue(bindings, s);
      }
    }
  }

  lemma {:induction false} LastCall(bindings: seq<Binding>, calls: seq<Call>)
    requires JointsInRange(bindings) && (forall k | 0 <= k < |calls| :: CallOk(calls[k])) && calls != []
    ensures var n := |calls| - 1;
            var s := RunLife(bindings, FRESH, calls[..n]);
            && RunLife(bindings, FRESH, calls) == Step(bindings, s, calls[n])
            && Snapshots(bindings, calls) == Snapshots(bindings, calls[..n])
                 + if calls[n].ThreadStep? && s.started && !s.shutdown && s.cycle.None? then [calls[n].a] else []
  {
  }

  lemma {:induction false} FlagStays(bindings: seq<Binding>, s: State, c: Call)
    requires WellFormed(bindings, s) && CallOk(c)
    ensures Step(bindings, s, c).shutdown == (s.shutdown || c.RaiseShutdown? || (s.started && (c.Stop? || c.Destroy?)))
  {
    hide CommandFor, Rest;
  }

  /** Once the flag is raised no further snapshot is taken: the thread ends the cycle it is in, and that is all. */
  lemma {:induction false} FlagEndsCycles(bindings: seq<Binding>, calls: seq<Call>, p: nat)
    requires JointsInRange(bindings) && (forall k | 0 <= k < |calls| :: CallOk(calls[k]))
    requires p < |calls| && calls[p].RaiseShutdown?
    ensures RunLife(bindings, FRESH, calls).shutdown && Snapshots(bindings, calls) == Snapshots(bindings, calls[..p])
    decreases |calls|
  {
    hide RunLife, Step, Snapshots;
    var n := |calls| - 1;
    LastCall(bindings, calls);
    FlagStays(bindings, RunLife(bindings, FRESH, calls[..n]), calls[n]);
    if p < n {
      FlagEndsCycles(bindings, calls[..n], p);
      assert calls[..n][..p] == calls[..p];
    }
  }

  /**
   And while the flag is down cycles happen: |bindings| + 2 steps of a started thread between cycles send
   one whole cycle of the first step's snapshot, and leave it between cycles.
   */
  lemma {:induction false} FlagDownSendsCycle(bindings: seq<Binding>, s: State, steps: seq<Call>)
    requires WellFormed(bindings, s) && s.started && !s.shutdown && s.cycle.None?
    requires |steps| == |bindings| + 2 && forall k | 0 <= k < |steps| :: steps[k].ThreadStep? && steps[k].a.Sized()
    ensures var t := RunLife(bindings, s, steps);
            && t == s.(log := t.log) && s.log <= t.log && IsCycle(bindings, steps[0].a, t.log[|s.log|..])
  {
    var n := |bindings| + 1;
    RestAt(bindings, steps[0].a, 0);
    CycleSteps(bindings, s, steps, n);
    var t := RunLife(bindings, s, steps);
    assert steps[..n + 1] == steps && steps[..n + 1][..n] == steps[..n];
    assert t.log[|s.log|..] == Rest(bindings, steps[0].a, 0);
  }

  /** After k of those steps, the first k - 1 frames of the cycle are out. */
  lemma {:induction false} CycleSteps(bindings: seq<Binding>, s: State, steps: seq<Call>, k: nat)
    requires WellFormed(bindings, s) && s.started && !s.shutdown && s.cycle.None?
    requires 1 <= k <= |bindings| + 1 <= |steps|
    requires forall j | 0 <= j < |steps| :: steps[j].ThreadStep? && steps[j].a.Sized()
    ensures |Rest(bindings, steps[0].a, 0)| == |bindings|
    ensures RunLife(bindings, s, steps[..k])
            == s.(cycle := Some((steps[0].a, k - 1)), log := s.log + Rest(bindings, steps[0].a, 0)[..k - 1])
  {
    var a := steps[0].a;
    RestAt(bindings, a, 0);
    assert steps[..k][..k - 1] == steps[..k - 1];
    if k == 1 {
      assert RunLife(bindings, s, steps[..0]) == s && s.log + Rest(bindings, a, 0)[..0] == s.log;
    } else {
      CycleSteps(bindings, s, steps, k - 1);
      assert Rest(bindings, a, 0)[..k - 1] == Rest(bindings, a, 0)[..k - 2] + [Rest(bindings, a, 0)[k - 2]];
    }
  }

  lemma NoMitBetween(before: seq<Sent>, between: seq<Sent>, end: seq<Sent>)
    requires before + between <= end && NoMit(between) && NoMit(end[|before + between|..])
    ensures NoMit(end[|before|..])
  {
    assert end[|before|..] == between + end[|before + between|..];
  }

  // ----- the program -----

  function Sents(log: seq<Attempt>): (s: seq<Sent>)
    ensures |s| == |log| && forall k | 0 <= k < |log| :: s[k] == Sent(log[k].motor, log[k].cmd)
  {
    seq(|log|, k requires 0 <= k < |log| => Sent(log[k].motor, log[k].cmd))
  }

  class Life {
    const bindings: seq<Binding>
    var started: bool
    var alive: bool                        // a thread exists and has not been joined
    var shutdown: bool
    var cycle: Option<(ActionState, nat)>
    var log: seq<Attempt>

    ghost function View(): State reads this {
      State(started, shutdown, cycle, Sents(log))
    }

    ghost predicate Valid() reads this {
      WellFormed(bindings, View()) && (alive <==> started)
    }

    constructor (bindings: seq<Binding>)
      requires JointsInRange(bindings)
      ensures Valid() && View() == FRESH && this.bindings == bindings
    {
      this.bindings := bindings;
      started, alive, shutdown, cycle, log := false, false, false, None, [];
      new;
      assert Sents(log) == [];
    }

    /** write_extended: any transmission may be refused. */
    method Transmit(i: nat, cmd: Command)
      modifies this`log
      ensures Sents(log) == Sents(old(log)) + [Sent(i, cmd)]
    {
      var ok: bool := *;
      log := log + [Attempt(i, cmd, ok)];
    }

    /** start(): a refused ENABLE is only reported; a failed pthread_create leaves `started` false
        but the motors enabled. */
    method DoStart(err: int) returns (result: int)
      requires Valid()
      modifies this
      ensures Valid() && View() == Step(bindings, old(View()), Start(err))
      ensures result == if old(started) then 0 else err
      ensures !old(started) ==> started == (err == 0) && |log| == |old(log)| + |bindings|
      ensures !old(started) ==> forall i: nat | i < |bindings| ::
                ToMotor(Sents(log), i) == ToMotor(old(Sents(log)), i) + [Enable]
    {
      if started { return 0; }
      forall i: nat | i < |bindings|
        ensures ToMotor(Sents(log) + Enables(|bindings|), i) == ToMotor(Sents(log), i) + [Enable]
      {
        EnabledOnce(Sents(log), |bindings|, i);
      }
      var i := 0;
      while i < |bindings|
        invariant 0 <= i <= |bindings| && Valid() && started == old(started) && shutdown == old(shutdown)
        invariant cycle == old(cycle) && Sents(log) == old(Sents(log)) + Enables(i)
      {
        assert Enables(i + 1) == Enables(i) + [Sent(i, Enable)];
        Transmit(i, Enable);
        i := i + 1;
      }
      if err != 0 { return err; }
      started, alive := true, true;
      return 0;
    }

    /** One step of the thread: look at the flag and take a snapshot, or send one frame of it. */
    method DoThreadStep(a: ActionState)
      requires Valid() && a.Sized()
      modifies this`cycle, this`log
      ensures Valid() && View() == Step(bindings, old(View()), ThreadStep(a))
    {
      match cycle {
        case None =>
          if alive && !shutdown { cycle := Some((a, 0)); }
        case Some(c) =>
          if c.1 == |bindings| {
            cycle := None;
          } else {
            Transmit(c.1, CommandFor(c.0, bindings[c.1].joint));
            cycle := Some((c.0, c.1 + 1));
          }
      }
    }

    /** pthread_join: the thread ends the cycle it is in, then sees the flag. */
    method Join()
      requires Valid() && shutdown
      modifies this`cycle, this`log
      ensures Valid() && cycle == None
      ensures Sents(log) == old(Sents(log)) + Remaining(bindings, old(cycle))
    {
      hide CommandFor, Rest, Sents, Step;
      ghost var all := Sents(log) + Remaining(bindings, cycle);
      while cycle.Some?
        invariant Valid() && shutdown && Sents(log) + Remaining(bindings, cycle) == all
        decreases if cycle.Some? then |bindings| + 1 - cycle.value.1 else 0
      {
        CycleStep(bindings, View());
        DoThreadStep(cycle.value.0);
      }
    }

    /** stop(): raise the flag, join, then two STOPs per motor. On a stopped thread it does nothing. */
    method DoStop()
      requires Valid()
      modifies this
      ensures Valid() && View() == Stopped(bindings, old(View()))
    {
      if !started { return; }
      shutdown := true;
      Join();
      ghost var joined := Sents(log);
      var i := 0;
      while i < |bindings|
        invariant 0 <= i <= |bindings| && Valid() && cycle == None && shutdown
        invariant Sents(log) == joined + Stops(i)
      {
        Transmit(i, Command.Stop);
        Transmit(i, Command.Stop);
        i := i + 1;
      }
      started, alive := false, false;
    }

    /** Any interleaving of calls and thread steps takes exactly the steps of RunLife. */
    method Drive(calls: seq<Call>)
      requires Valid() && forall k | 0 <= k < |calls| :: CallOk(calls[k])
      modifies this
      ensures Valid() && View() == RunLife(bindings, old(View()), calls)
    {
      for k := 0 to |calls|
        invariant Valid() && View() == RunLife(bindings, old(View()), calls[..k])
      {
        assert calls[..k + 1][..k] == calls[..k];
        match calls[k] {
          case Start(err) => var result := DoStart(err);
          case Stop() => DoStop();
          case Destroy => if started { DoStop(); }
          case RaiseShutdown => shutdown := true;
          case ThreadStep(a) => DoThreadStep(a);
        }
      }
      assert calls[..|calls|] == calls;
    }
  }
}
