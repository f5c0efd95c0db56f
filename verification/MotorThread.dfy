/**
 MotorThread::run (src/motor_thread.cpp): the commands of a cycle taken from one seqlock snapshot, the
 drain, the publication of the channel state, and whole runs of them.
 */
module MotorThreads {
  import opened Codec
  import opened Wire
  import opened RobotConfig
  import opened SharedState
  import opened Seqlock
  import opened SeqlockProgress
  import opened SeqLockedCell
  import opened Timing
  import opened MotorFeedback

  /** One write_extended: binding index, command, and whether the driver accepted the frame. */
  datatype Attempt = Attempt(motor: nat, cmd: Command, ok: bool)

  /** What one joint is told in a cycle: zero everything until the policy's action is valid. */
  function CommandFor(a: ActionState, joint: int): Command
    requires a.Sized() && 0 <= joint < 13
  {
    if !a.valid then Mit(Fin(0.0), Fin(0.0), Fin(0.0), Fin(0.0), Fin(0.0))
    else Mit(Fin(a.q[joint]), Fin(a.dq[joint]), Fin(a.kp[joint]), Fin(a.kd[joint]), Fin(a.tau[joint]))
  }

  predicate JointsInRange(bindings: seq<Binding>) {
    forall i | 0 <= i < |bindings| :: 0 <= bindings[i].joint < 13
  }

  /** The frames of one cycle: one per bound motor, in order, all from the same action. */
  predicate IsBatch(frames: seq<Attempt>, bindings: seq<Binding>, a: ActionState)
    requires a.Sized() && JointsInRange(bindings)
  {
    && |frames| == |bindings|
    && forall i | 0 <= i < |frames| ::
         frames[i].motor == i && frames[i].cmd == CommandFor(a, bindings[i].joint)
  }

  /**
   One cycle in the history of a run: the load it acted on and the frames it sent; the receive queue
   when its drain began, the time, how many frames it took and whether a read failed; the parses they
   gave; all parses so far; the state it published; and the time it measured at its end.
   */
  datatype Batch = Batch(load: Return<Word>, frames: seq<Attempt>, queue: seq<CanMsg>, since: nat, taken: nat,
                         failed: bool, news: seq<Parse>, parsed: seq<Parse>, state: ChannelState, ended: int)

  function Flatten(batches: seq<Batch>): seq<Attempt> {
    if batches == [] then [] else Flatten(batches[..|batches| - 1]) + batches[|batches| - 1].frames
  }

  /** The cycle acted on one linearizable load and all its frames encode that one action. */
  ghost predicate Coherent(b: Batch, action: SeqLocked<Word>, bindings: seq<Binding>)
    requires JointsInRange(bindings)
    reads action
  {
    && Linearized(action.initial, action.readers, action.run, b.load)
    && |b.load.value| == 67 && IsBatch(b.frames, bindings, ActionOf(b.load.value))
  }

  ghost predicate AllCoherent(batches: seq<Batch>, action: SeqLocked<Word>, bindings: seq<Binding>)
    requires JointsInRange(bindings)
    reads action
  {
    forall k | 0 <= k < |batches| :: Coherent(batches[k], action, bindings)
  }

  /** Later cycles act on loads called after the earlier ones returned. */
  ghost predicate InOrder(batches: seq<Batch>) {
    forall k, l | 0 <= k < l < |batches| :: batches[k].load.done < batches[l].load.call
  }

  /** The channel-local record: binding i's joint and its motor's last feedback. */
  predicate Published(s: ChannelState, bindings: seq<Binding>, feedback: seq<Feedback>)
    requires s.Sized()
  {
    && s.numMotors == |bindings| == |feedback| && |bindings| <= 4
    && forall i | 0 <= i < |bindings| ::
         && s.joint[i] == bindings[i].joint
         && s.q[i] == feedback[i].reading.position && s.dq[i] == feedback[i].reading.velocity
         && s.tau[i] == feedback[i].reading.torque
  }

  /** last_feedback of n motors after these parses. */
  function FeedbackOf(parsed: seq<Parse>, n: nat): (f: seq<Feedback>)
    ensures |f| == n && forall i | 0 <= i < n :: f[i] == LastParse(parsed, i)
  {
    seq(n, i requires 0 <= i < n => LastParse(parsed, i))
  }

  /** `online` says exactly which motors were heard within the last ten periods. */
  ghost predicate OnlineExact(s: ChannelState, bindings: seq<Binding>, parsed: seq<Parse>)
    requires s.Sized()
  {
    0 <= s.timestamp < 0x1_0000_0000_0000_0000 ==>
      forall i | 0 <= i < |bindings| && i < 4 :: s.online[i] <==> HeardRecently(parsed, i, s.timestamp)
  }

  /** s is what publish_state makes of these parses. */
  ghost predicate PublishedFrom(s: ChannelState, bindings: seq<Binding>, parsed: seq<Parse>) {
    && s.Sized() && Published(s, bindings, FeedbackOf(parsed, |bindings|))
    && s.timestamp >= 0 && Ordered(parsed, s.timestamp) && OnlineExact(s, bindings, parsed)
  }

  /** The receiving half of a cycle, from the parses before it. */
  ghost predicate Received(b: Batch, rnd: Rounding, bindings: seq<Binding>, before: seq<Parse>) {
    && b.taken <= |b.queue| && b.taken <= 33 && (b.failed ==> b.taken < 33)
    && (!b.failed ==> b.taken == if |b.queue| > 33 then 33 else |b.queue|)
    && 0 < b.since <= b.state.timestamp
    && ParsedFrom(rnd, bindings, b.queue[..Capped(b.taken)], b.news) && StampedFrom(b.news, b.since)
    && b.parsed == before + b.news && PublishedFrom(b.state, bindings, b.parsed)
  }

  /** The parses, and the frames left in the queue, before cycle k. */
  function ParsedBefore(batches: seq<Batch>, start: seq<Parse>, k: nat): seq<Parse>
    requires k <= |batches|
  {
    if k == 0 then start else batches[k - 1].parsed
  }

  function LeftBefore(batches: seq<Batch>, start: seq<CanMsg>, k: nat): seq<CanMsg>
    requires k <= |batches|
  {
    if k == 0 then start
    else if batches[k - 1].taken <= |batches[k - 1].queue| then batches[k - 1].queue[batches[k - 1].taken..] else []
  }

  /** Every cycle received from where the one before left off; no frame got lost between them. */
  ghost predicate AllReceived(batches: seq<Batch>, rnd: Rounding, bindings: seq<Binding>, parsed: seq<Parse>,
                              rx: seq<CanMsg>)
  {
    forall k | 0 <= k < |batches| :: ReceivedAt(batches, rnd, bindings, parsed, rx, k)
  }

  ghost predicate ReceivedAt(batches: seq<Batch>, rnd: Rounding, bindings: seq<Binding>, parsed: seq<Parse>,
                             rx: seq<CanMsg>, k: nat)
    requires k < |batches|
  {
    && Received(batches[k], rnd, bindings, ParsedBefore(batches, parsed, k))
    && LeftBefore(batches, rx, k) <= batches[k].queue
  }

  /** The cell holds what it held, then the states of the cycles, in order. */
  ghost predicate Stored(stores: seq<seq<Word>>, base: seq<seq<Word>>, batches: seq<Batch>) {
    && |stores| == |base| + |batches| && base <= stores
    && forall k | 0 <= k < |batches| ::
         batches[k].state.Sized() && stores[|base| + k] == ChannelWords(batches[k].state)
  }

  /** The clock when cycle k began, or later: the end of the one before. */
  function EndedBefore(batches: seq<Batch>, start: int, k: nat): int
    requires k <= |batches|
  {
    if k == 0 then start else batches[k - 1].ended
  }

  /** Cycle k drained and published between the measurements that end the cycle before it and itself. */
  ghost predicate TimedAt(batches: seq<Batch>, start: int, k: nat)
    requires k < |batches|
  {
    EndedBefore(batches, start, k) <= batches[k].since && batches[k].state.timestamp <= batches[k].ended
  }

  /** The periods that these cycles measure. */
  function PeriodsOf(batches: seq<Batch>, start: int): seq<int> {
    if batches == [] then []
    else
      var n := |batches| - 1;
      PeriodsOf(batches[..n], start) + [batches[n].ended - EndedBefore(batches, start, n)]
  }

  ghost predicate Timed(batches: seq<Batch>, start: int) {
    forall k | 0 <= k < |batches| :: TimedAt(batches, start, k)
  }

  lemma TimedSnoc(was: seq<Batch>, b: Batch, start: int)
    requires Timed(was, start) && EndedBefore(was, start, |was|) <= b.since && b.state.timestamp <= b.ended
    ensures Timed(was + [b], start)
    ensures PeriodsOf(was + [b], start) == PeriodsOf(was, start) + [b.ended - EndedBefore(was, start, |was|)]
  {
    forall k: nat | k < |was| + 1 ensures TimedAt(was + [b], start, k) {
      if k < |was| { assert TimedAt(was, start, k); }
    }
    assert (was + [b])[..|was|] == was;
  }

  function TakenSum(batches: seq<Batch>): nat {
    if batches == [] then 0 else TakenSum(batches[..|batches| - 1]) + batches[|batches| - 1].taken
  }

  /** Cycles that found at least 33 frames, and cycles in which a read failed. */
  function FullCount(batches: seq<Batch>): nat {
    if batches == [] then 0
    else FullCount(batches[..|batches| - 1]) + if batches[|batches| - 1].taken == 33 then 1 else 0
  }

  function FailedCount(batches: seq<Batch>): nat {
    if batches == [] then 0
    else FailedCount(batches[..|batches| - 1]) + if batches[|batches| - 1].failed then 1 else 0
  }

  /** What a thread had read, parsed, published and measured at some point. */
  datatype Mark = Mark(parsed: seq<Parse>, rx: seq<CanMsg>, stores: seq<seq<Word>>, wake: int, periods: seq<int>,
                       read: nat, full: nat, refused: nat, failures: nat)

  /** The mark a thread reaches from another by these cycles. */
  ghost predicate Reaches(o: Mark, batches: seq<Batch>, rnd: Rounding, bindings: seq<Binding>, m: Mark) {
    && AllReceived(batches, rnd, bindings, o.parsed, o.rx) && Stored(m.stores, o.stores, batches)
    && Timed(batches, o.wake) && m.periods == o.periods + PeriodsOf(batches, o.wake)
    && m.wake == EndedBefore(batches, o.wake, |batches|)
    && m.parsed == ParsedBefore(batches, o.parsed, |batches|) && m.rx == LeftBefore(batches, o.rx, |batches|)
    && m.read == o.read + TakenSum(batches) && m.full == o.full + FullCount(batches)
    && m.refused + FullCount(batches) == o.refused + |batches| && m.failures == o.failures + FailedCount(batches)
  }

  /** What the receiving half of a cycle adds to a mark. */
  ghost predicate Advances(m: Mark, b: Batch, rnd: Rounding, bindings: seq<Binding>, n: Mark) {
    && Received(b, rnd, bindings, m.parsed) && m.rx <= b.queue && n.rx == b.queue[b.taken..] && n.parsed == b.parsed
    && n.stores == m.stores + [ChannelWords(b.state)]
    && m.wake <= b.since && n.wake == m.wake && n.periods == m.periods
    && n.read == m.read + b.taken && n.full == m.full + (if b.taken == 33 then 1 else 0)
    && n.refused == m.refused + (if b.taken == 33 then 0 else 1) && n.failures == m.failures + if b.failed then 1 else 0
  }

  /** What one cycle adds to a mark: that, and the measurement at its end. */
  ghost predicate OneCycle(m: Mark, b: Batch, rnd: Rounding, bindings: seq<Binding>, n: Mark) {
    && Advances(m, b, rnd, bindings, n.(wake := m.wake, periods := m.periods))
    && b.state.timestamp <= b.ended && n.wake == b.ended && n.periods == m.periods + [b.ended - m.wake]
  }

  lemma CycleEnds(m: Mark, b: Batch, rnd: Rounding, bindings: seq<Binding>, mid: Mark, ended: int)
    requires Advances(m, b, rnd, bindings, mid) && b.state.timestamp <= ended
    ensures OneCycle(m, b.(ended := ended), rnd, bindings,
                     mid.(wake := ended, periods := mid.periods + [ended - mid.wake]))
  {
    hide PublishedFrom, ParsedFrom, StampedFrom, ChannelWords;
  }

  lemma ReceivedSized(b: Batch, rnd: Rounding, bindings: seq<Binding>, before: seq<Parse>)
    requires Received(b, rnd, bindings, before)
    ensures b.state.Sized() && b.taken <= |b.queue|
  {
    hide Published, OnlineExact;
  }

  lemma ReachesSnoc(o: Mark, was: seq<Batch>, m: Mark, b: Batch, rnd: Rounding, bindings: seq<Binding>, n: Mark)
    requires Reaches(o, was, rnd, bindings, m) && OneCycle(m, b, rnd, bindings, n)
    ensures Reaches(o, was + [b], rnd, bindings, n)
  {
    hide AllReceived, Stored, Timed, Received, ChannelWords;
    AllReceivedSnoc(was, b, rnd, bindings, o.parsed, o.rx);
    ReceivedSized(b, rnd, bindings, m.parsed);
    StoredSnoc(m.stores, o.stores, was, b);
    TimedSnoc(was, b, o.wake);
    assert (was + [b])[..|was|] == was;
  }

  lemma ReachesNone(o: Mark, rnd: Rounding, bindings: seq<Binding>)
    ensures Reaches(o, [], rnd, bindings, o)
  {
  }

  lemma Grown(start: seq<Attempt>, was: seq<Batch>, b: Batch)
    ensures start + Flatten(was) + b.frames == start + Flatten(was + [b])
  {
    assert (was + [b])[..|was|] == was;
  }

  lemma InOrderSnoc(was: seq<Batch>, b: Batch, now: nat)
    requires InOrder(was) && (forall k | 0 <= k < |was| :: was[k].load.done < now) && now <= b.load.call
    ensures InOrder(was + [b])
  {
  }

  lemma AllReceivedSnoc(was: seq<Batch>, b: Batch, rnd: Rounding, bindings: seq<Binding>, parsed: seq<Parse>, rx: seq<CanMsg>)
    requires AllReceived(was, rnd, bindings, parsed, rx)
    requires Received(b, rnd, bindings, ParsedBefore(was, parsed, |was|)) && LeftBefore(was, rx, |was|) <= b.queue
    ensures AllReceived(was + [b], rnd, bindings, parsed, rx)
  {
    hide ReceivedAt;
    forall k: nat | k < |was| + 1 ensures ReceivedAt(was + [b], rnd, bindings, parsed, rx, k) {
      if k < |was| { assert ReceivedAt(was, rnd, bindings, parsed, rx, k); }
      ReceivedAtSnoc(was, b, rnd, bindings, parsed, rx, k);
    }
  }

  lemma ReceivedAtSnoc(was: seq<Batch>, b: Batch, rnd: Rounding, bindings: seq<Binding>, parsed: seq<Parse>,
                       rx: seq<CanMsg>, k: nat)
    requires k <= |was|
    requires if k < |was| then ReceivedAt(was, rnd, bindings, parsed, rx, k)
             else Received(b, rnd, bindings, ParsedBefore(was, parsed, k)) && LeftBefore(was, rx, k) <= b.queue
    ensures ReceivedAt(was + [b], rnd, bindings, parsed, rx, k)
  {
    hide Received;
  }

  lemma StoredSnoc(stores: seq<seq<Word>>, base: seq<seq<Word>>, was: seq<Batch>, b: Batch)
    requires Stored(stores, base, was) && b.state.Sized()
    ensures Stored(stores + [ChannelWords(b.state)], base, was + [b])
  {
    hide ChannelWords;
  }

  class MotorThread {
    const receiver: Receiver
    var log: seq<Attempt>         // every transmission attempt, oldest first

    /** The thread's motors and its two cells, between cycles. */
    ghost predicate Ready(action: SeqLocked<Word>, r: nat, slot: SeqLocked<Word>)
      reads receiver, receiver.pacer, action, slot
    {
      && JointsInRange(receiver.bindings) && |receiver.bindings| <= MAX_MOTORS_PER_CHANNEL
      && receiver.Valid() && action != slot
      && action.Valid() && |action.initial| == 67
      && r < action.readers && r < |action.st.readers| && action.st.readers[r].Away?
      && slot.Valid() && slot.st.writer.Idle? && |slot.initial| == 22
    }

    constructor (receiver: Receiver)
      ensures this.receiver == receiver && log == []
    {
      this.receiver := receiver;
      log := [];
    }

    /** write_extended: any transmission may be refused. */
    method Transmit(i: nat, cmd: Command) returns (ok: bool)
      modifies this`log
      ensures log == old(log) + [Attempt(i, cmd, ok)]
    {
      ok := *;
      log := log + [Attempt(i, cmd, ok)];
    }

    /** send_commands on a snapshot: every frame encodes the same action. */
    method SendSnapshot(a: ActionState) returns (ghost frames: seq<Attempt>)
      requires a.Sized() && JointsInRange(receiver.bindings)
      modifies this`log
      ensures log == old(log) + frames && IsBatch(frames, receiver.bindings, a)
    {
      frames := [];
      var i := 0;
      while i < |receiver.bindings|
        invariant 0 <= i <= |receiver.bindings| && |frames| == i
        invariant log == old(log) + frames
        invariant forall k | 0 <= k < i ::
                    frames[k].motor == k && frames[k].cmd == CommandFor(a, receiver.bindings[k].joint)
      {
        var j := receiver.bindings[i].joint;
        var ok;
        if !a.valid {
          ok := Transmit(i, Mit(Fin(0.0), Fin(0.0), Fin(0.0), Fin(0.0), Fin(0.0)));
        } else {
          ok := Transmit(i, Mit(Fin(a.q[j]), Fin(a.dq[j]), Fin(a.kp[j]), Fin(a.kd[j]), Fin(a.tau[j])));
        }
        frames := frames + [log[|log| - 1]];
        i := i + 1;
      }
    }

    /**
     send_commands against the live action cell: one load, then one frame per motor. The load is
     linearizable, so all frames of the cycle come from one action that was really stored.
     Without a snapshot (the load is still retrying) nothing is sent; while the writer is quiet there is
     one, of the current register.
     */
    method SendCommands(action: SeqLocked<Word>, r: nat, budget: nat)
      returns (sent: bool, ghost frames: seq<Attempt>, ghost x: Return<Word>)
      requires JointsInRange(receiver.bindings)
      requires action.Valid() && |action.initial| == 67
      requires r < action.readers && r < |action.st.readers| && action.st.readers[r].Away?
      modifies this`log, action
      ensures action.Valid() && old(action.run) <= action.run
      ensures log == old(log) + frames
      ensures !sent ==> frames == []
      ensures sent ==> r < |action.st.readers| && action.st.readers[r].Away?
      ensures sent ==> Linearized(action.initial, action.readers, action.run, x) && |old(action.run)| <= x.call
      ensures sent ==> |x.value| == 67 && IsBatch(frames, receiver.bindings, ActionOf(x.value))
      ensures old(action.st.writer.Idle?) && NoWriterStep(action.run, |old(action.run)|) && budget > 0 ==>
                && sent && StoresCompleted(old(action.st)) < |old(action.st).stores| && x.value == Register(old(action.st))
    {
      frames := [];
      var snapshot;
      ghost var blocked;
      snapshot, x, blocked := action.Load(r, budget);
      sent := snapshot.Some?;
      if sent {
        frames := SendSnapshot(ActionOf(snapshot.value));
      }
    }

    /** publish_state: the slot's register becomes the words of this channel's state, and `online`
        says exactly which motors were heard within the last ten periods. */
    method PublishState(slot: SeqLocked<Word>) returns (ghost s: ChannelState)
      requires receiver.Valid() && |receiver.bindings| <= MAX_MOTORS_PER_CHANNEL
      requires slot.Valid() && slot.st.writer.Idle? && |slot.initial| == 22
      modifies receiver.pacer`now, slot
      ensures receiver.Valid() && slot.Valid() && slot.st.writer.Idle? && old(slot.run) <= slot.run
      ensures s.Sized() && Published(s, receiver.bindings, receiver.feedback)
      ensures PublishedFrom(s, receiver.bindings, receiver.parsed)
      ensures s.timestamp == receiver.pacer.now >= old(receiver.pacer.now)
      ensures StoresCompleted(slot.st) < |slot.st.stores| && Register(slot.st) == ChannelWords(s)
      ensures slot.st.stores == old(slot.st.stores) + [ChannelWords(s)]
    {
      var state := receiver.BuildState();
      s := state;
      FeedbackKnown();
      if receiver.pacer.now < 0x1_0000_0000_0000_0000 {
        forall i | 0 <= i < |receiver.bindings|
          ensures s.online[i] <==> HeardRecently(receiver.parsed, i, s.timestamp)
        {
          OnlineMeansHeard(receiver.parsed, i, receiver.pacer.now);
        }
      }
      hide PublishedFrom, Published;
      slot.Store(ChannelWords(state));
    }

    lemma FeedbackKnown()
      requires receiver.Valid()
      ensures receiver.feedback == FeedbackOf(receiver.parsed, |receiver.bindings|)
    {
    }

    ghost function Here(slot: SeqLocked<Word>): Mark
      reads receiver, receiver.pacer, slot
    {
      Mark(receiver.parsed, receiver.rx, slot.st.stores, receiver.pacer.prevWake.Total(), receiver.pacer.periods,
           receiver.framesRead, receiver.fullCycles, receiver.refusals, receiver.failures)
    }

    /** The receiving half of a cycle: drain and publish. */
    method Receive(slot: SeqLocked<Word>, ghost x: Return<Word>, ghost frames: seq<Attempt>) returns (ghost b: Batch)
      requires receiver.Valid() && |receiver.bindings| <= MAX_MOTORS_PER_CHANNEL
      requires slot.Valid() && slot.st.writer.Idle? && |slot.initial| == 22
      modifies slot, receiver, receiver.pacer`now
      ensures receiver.Valid() && slot.Valid() && slot.st.writer.Idle?
      ensures b.load == x && b.frames == frames
      ensures Received(b, receiver.rnd, receiver.bindings, old(receiver.parsed)) && receiver.parsed == b.parsed
      ensures old(receiver.rx) <= b.queue && b.taken <= |b.queue| && receiver.rx == b.queue[b.taken..]
      ensures receiver.framesRead == old(receiver.framesRead) + b.taken
      ensures receiver.fullCycles == old(receiver.fullCycles) + if b.taken == 33 then 1 else 0
      ensures receiver.refusals == old(receiver.refusals) + if b.taken == 33 then 0 else 1
      ensures receiver.failures == old(receiver.failures) + if b.failed then 1 else 0
      ensures receiver.pacer.prevWake.Total() <= b.since && b.state.timestamp == receiver.pacer.now && b.state.Sized()
      ensures slot.st.stores == old(slot.st.stores) + [ChannelWords(b.state)]
    {
      assert 0 < receiver.pacer.now && receiver.pacer.prevWake.Total() <= receiver.pacer.now;
      hide Receiver.Valid, Timespec.Total, PublishedFrom, Published, LastFor, Drained, ParsedFrom, StampedFrom;
      receiver.FramesArrive();
      ghost var queue, since := receiver.rx, receiver.pacer.now;
      ghost var n, news, failed;
      n, news, failed := receiver.DrainFeedback();
      ghost var s := PublishState(slot);
      b := Batch(x, frames, queue, since, n, failed, news, receiver.parsed, s, 0);
    }

    /** A cycle once its frames are sent: drain, publish, measure and sleep. */
    method FinishCycle(slot: SeqLocked<Word>, ghost x: Return<Word>, ghost frames: seq<Attempt>) returns (ghost b: Batch)
      requires receiver.Valid() && |receiver.bindings| <= MAX_MOTORS_PER_CHANNEL
      requires slot.Valid() && slot.st.writer.Idle? && |slot.initial| == 22
      modifies slot, receiver, receiver.pacer
      ensures receiver.Valid() && slot.Valid() && slot.st.writer.Idle?
      ensures b.load == x && b.frames == frames
      ensures OneCycle(old(Here(slot)), b, receiver.rnd, receiver.bindings, Here(slot))
      ensures receiver.pacer.loopCount == old(receiver.pacer.loopCount) + 1
    {
      hide Received, OneCycle, Timespec.Total, SeqLocked.Valid, LastParse, Sum, LateCount;
      b := Receive(slot, x, frames);
      ghost var mid, got := Here(slot), b;
      assert Advances(old(Here(slot)), got, receiver.rnd, receiver.bindings, mid);
      hide Advances;
      receiver.pacer.EndCycle();
      b := b.(ended := receiver.pacer.prevWake.Total());
      CycleEnds(old(Here(slot)), got, receiver.rnd, receiver.bindings, mid, b.ended);
    }

    /** One iteration of run(): send, drain, publish, then measure and sleep. */
    method Cycle(action: SeqLocked<Word>, r: nat, budget: nat, slot: SeqLocked<Word>) returns (done: bool, ghost b: Batch)
      requires Ready(action, r, slot)
      modifies this`log, action, slot, receiver, receiver.pacer
      ensures action.Valid() && slot.Valid() && slot.st.writer.Idle? && receiver.Valid()
      ensures old(action.run) <= action.run
      ensures !done ==> log == old(log) && Here(slot) == old(Here(slot))
      ensures done ==> Ready(action, r, slot) && log == old(log) + b.frames
      ensures done ==> Coherent(b, action, receiver.bindings) && |old(action.run)| <= b.load.call
      ensures done ==> OneCycle(old(Here(slot)), b, receiver.rnd, receiver.bindings, Here(slot))
      ensures old(action.st.writer.Idle?) && NoWriterStep(action.run, |old(action.run)|) && budget > 0 ==> done
      ensures receiver.pacer.loopCount == old(receiver.pacer.loopCount) + if done then 1 else 0
    {
      hide OneCycle, IsBatch, Linearized, NoWriterStep, ChannelWords, Timespec.Total, Pacer.Valid;
      ghost var frames, x;
      done, frames, x := SendCommands(action, r, budget);
      b := Batch(x, frames, [], 0, 0, false, [], [], EMPTY_CHANNEL, 0);
      if done {
        b := FinishCycle(slot, x, frames);
      }
    }

    /** What a run has done so far, from the mark it began at. */
    ghost predicate Explained(batches: seq<Batch>, action: SeqLocked<Word>, slot: SeqLocked<Word>, o: Mark)
      requires JointsInRange(receiver.bindings)
      reads receiver, receiver.pacer, action, slot
    {
      && AllCoherent(batches, action, receiver.bindings) && InOrder(batches)
      && Reaches(o, batches, receiver.rnd, receiver.bindings, Here(slot))
    }

    /** One round of run(), added to the history. */
    method Round(action: SeqLocked<Word>, r: nat, slot: SeqLocked<Word>, ghost was: seq<Batch>, ghost o: Mark)
      returns (done: bool, ghost batches: seq<Batch>)
      requires Ready(action, r, slot) && Explained(was, action, slot, o)
      modifies this`log, action, slot, receiver, receiver.pacer
      ensures action.Valid() && slot.Valid() && receiver.Valid() && Explained(batches, action, slot, o)
      ensures done ==> Ready(action, r, slot)
      ensures !done ==> batches == was && log == old(log)
      ensures done ==> |batches| == |was| + 1 && batches[..|was|] == was && log == old(log) + batches[|was|].frames
      ensures receiver.pacer.loopCount == old(receiver.pacer.loopCount) + if done then 1 else 0
    {
      hide OneCycle, Reaches, Linearized, InOrder, IsBatch, Here;
      ghost var before, m := action.run, Here(slot);
      LoadsDone(was, action);
      var budget: nat :| budget >= 0;
      ghost var b;
      done, b := Cycle(action, r, budget, slot);
      StillCoherent(was, before, action);
      batches := was;
      if done {
        InOrderSnoc(was, b, |before|);
        ReachesSnoc(o, was, m, b, receiver.rnd, receiver.bindings, Here(slot));
        batches := was + [b];
      }
    }

    lemma LoadsDone(batches: seq<Batch>, action: SeqLocked<Word>)
      requires JointsInRange(receiver.bindings) && AllCoherent(batches, action, receiver.bindings)
      ensures forall k | 0 <= k < |batches| :: batches[k].load.done < |action.run|
    {
      forall k | 0 <= k < |batches| ensures batches[k].load.done < |action.run| {
        assert Coherent(batches[k], action, receiver.bindings);
      }
    }

    /**
     run(): cycles until the shutdown flag is seen (or, for a run observed midway, until the last
     load still retries). Everything it ever sent is the concatenation of coherent batches, acting on
     loads in order. Everything it read, parsed, published and measured is Reached by those batches: the
     queue is taken whole, or 33 frames of it, unless a read failed; frames read, full cycles, refused
     and failed reads are the batches'; each state is published, from all parses so far, between the measurements
     of the clock that bound its cycle.
     */
    method Run(action: SeqLocked<Word>, r: nat, slot: SeqLocked<Word>) returns (ghost batches: seq<Batch>)
      requires Ready(action, r, slot)
      modifies this`log, action, slot, receiver, receiver.pacer
      ensures receiver.Valid() && action.Valid() && slot.Valid()
      ensures AllCoherent(batches, action, receiver.bindings) && InOrder(batches)
      ensures log == old(log) + Flatten(batches)
      ensures Reaches(old(Here(slot)), batches, receiver.rnd, receiver.bindings, Here(slot))
      ensures receiver.pacer.loopCount == old(receiver.pacer.loopCount) + |batches|
    {
      hide Coherent, Reaches;
      batches := [];
      ghost var o := Here(slot);
      ReachesNone(o, receiver.rnd, receiver.bindings);
      var horizon: nat :| horizon >= 0;
      var shutdown: bool := *;
      while !shutdown && horizon > 0
        invariant Ready(action, r, slot) && Explained(batches, action, slot, o)
        invariant log == old(log) + Flatten(batches)
        invariant receiver.pacer.loopCount == old(receiver.pacer.loopCount) + |batches|
      {
        ghost var was := batches;
        var done;
        done, batches := Round(action, r, slot, was, o);
        if !done { break; }
        assert batches == was + [batches[|was|]];
        Grown(old(log), was, batches[|was|]);
        horizon := horizon - 1;
        shutdown := *;
      }
    }

    lemma StillCoherent(batches: seq<Batch>, before: seq<Event<Word>>, action: SeqLocked<Word>)
      requires JointsInRange(receiver.bindings) && before <= action.run
      requires forall k | 0 <= k < |batches| ::
                 && Linearized(action.initial, action.readers, before, batches[k].load)
                 && |batches[k].load.value| == 67
                 && IsBatch(batches[k].frames, receiver.bindings, ActionOf(batches[k].load.value))
      ensures AllCoherent(batches, action, receiver.bindings)
    {
      forall k | 0 <= k < |batches| ensures Coherent(batches[k], action, receiver.bindings) {
        LinearizedExtends(action.initial, action.readers, before, action.run, batches[k].load);
      }
    }
  }
}
