/**
 The cores composed: a stored action to what every motor decodes, and a motor's feedback frame to
 its slot in the merged 13-joint state.
 */
module EndToEnd {
  import opened Util
  import opened Codec
  import opened Wire
  import opened RobotConfig
  import opened SharedState
  import opened Seqlock
  import opened SeqlockProgress
  import opened SeqLockedCell
  import opened Timing
  import opened MotorFeedback
  import opened MotorThreads
  import opened Routing

  // ----- commands: policy -> seqlock -> frames -> motors -----

  /** Everything ever stored in the action cell, the constructor's default first. */
  ghost predicate StoresActions(v: seq<Word>, readers: nat, es: seq<Event<Word>>, acts: seq<ActionState>) {
    var z := Exec(Init(v, readers), es);
    && |z.stores| == |acts|
    && forall k | 0 <= k < |acts| :: acts[k].Sized() && z.stores[k] == ActionWords(acts[k])
  }

  /** A linearizable snapshot is one stored action, whole: the one current at the first read. */
  lemma SnapshotIsStoredAction(v: seq<Word>, readers: nat, es: seq<Event<Word>>, acts: seq<ActionState>,
                               x: Return<Word>) returns (k: nat)
    requires StoresActions(v, readers, es, acts) && |v| == 67
    requires Linearized(v, readers, es, x) && StoresBetween(v, readers, es, x.at, x.done) < 0x8000_0000
    ensures k < |acts| && k == StoresCompleted(At(v, readers, es, x.at)) && ActionOf(x.value) == acts[k]
  {
    k := StoresCompleted(At(v, readers, es, x.at));
    RegisterThen(v, readers, es, x.at);
    ActionRoundTrip(acts[k]);
  }

  /** What the motor of joint j should see of action a: its setpoints, or a free motor. */
  predicate Obeys(s: Setpoint, motor: Byte, a: ActionState, j: int)
    requires a.Sized() && 0 <= j < 13
  {
    if a.valid then WithinQuantum(s, motor, a.q[j], a.dq[j], a.kp[j], a.kd[j], a.tau[j])
    else s.motor == motor && s.kp == 0.0 && s.kd == 0.0 && s.tau == -(TORQUE.Quantum() / 2.0)
  }

  /** The same with the quantum of slack that rounded arithmetic needs. */
  predicate NearlyObeys(s: Setpoint, motor: Byte, a: ActionState, j: int)
    requires a.Sized() && 0 <= j < 13
  {
    if a.valid then WithinTwoQuanta(s, motor, a.q[j], a.dq[j], a.kp[j], a.kd[j], a.tau[j])
    else s.motor == motor && s.kp == 0.0 && s.kd == 0.0 && Loosely(s.tau, 0.0, TORQUE)
  }

  lemma CommandObeyed(host: Byte, motor: Byte, a: ActionState, j: int)
    requires a.Sized() && 0 <= j < 13
    ensures Faithful(Exact) && CommandFor(a, j).Encodable()
    ensures Obeys(MotorDecode(Encode(Exact, host, motor, CommandFor(a, j))), motor, a, j)
  {
    hide WithinQuantum, MotorDecode, Encode;
    if a.valid {
      MitFidelity(host, motor, a.q[j], a.dq[j], a.kp[j], a.kd[j], a.tau[j]);
    } else {
      FreeCommandDecodes(host, motor);
    }
  }

  lemma CommandNearlyObeyed(rnd: Rounding, host: Byte, motor: Byte, a: ActionState, j: int)
    requires a.Sized() && 0 <= j < 13 && Faithful(rnd)
    ensures CommandFor(a, j).Encodable()
    ensures NearlyObeys(MotorDecode(Encode(rnd, host, motor, CommandFor(a, j))), motor, a, j)
  {
    hide WithinTwoQuanta, Loosely, MotorDecode, Encode, Faithful;
    if a.valid {
      MitFidelityRounded(rnd, host, motor, a.q[j], a.dq[j], a.kp[j], a.kd[j], a.tau[j]);
    } else {
      FreeGainsAreZero(rnd, host, motor);
    }
  }

  /** The frames of a cycle, decoded by their motors, follow action a, each motor its own joint: to
      within one quantum in exact arithmetic, two under the rounding. */
  ghost predicate FramesObey(rnd: Rounding, frames: seq<Attempt>, bindings: seq<Binding>, host: Byte, a: ActionState)
    requires a.Sized() && JointsInRange(bindings) && Faithful(rnd) && Faithful(Exact)
  {
    && |frames| == |bindings|
    && forall i | 0 <= i < |frames| ::
         && frames[i].cmd.Encodable()
         && Obeys(MotorDecode(Encode(Exact, host, bindings[i].motor, frames[i].cmd)), bindings[i].motor, a, bindings[i].joint)
         && NearlyObeys(MotorDecode(Encode(rnd, host, bindings[i].motor, frames[i].cmd)), bindings[i].motor, a, bindings[i].joint)
  }

  /**
   Command coherence, end to end: all frames of one cycle, decoded by their motors, follow one and
   the same stored action; or, while that action is not valid, every motor gets exactly zero gains.
   */
  lemma CycleObeysOneAction(v: seq<Word>, readers: nat, es: seq<Event<Word>>, acts: seq<ActionState>, rnd: Rounding,
                            x: Return<Word>, frames: seq<Attempt>, bindings: seq<Binding>, host: Byte)
    returns (k: nat)
    requires StoresActions(v, readers, es, acts) && |v| == 67 && JointsInRange(bindings) && Faithful(rnd)
    requires Linearized(v, readers, es, x) && StoresBetween(v, readers, es, x.at, x.done) < 0x8000_0000
    requires |x.value| == 67 && IsBatch(frames, bindings, ActionOf(x.value))
    ensures k < |acts| && k == StoresCompleted(At(v, readers, es, x.at)) && Faithful(Exact) && acts[k].Sized()
    ensures FramesObey(rnd, frames, bindings, host, acts[k])
  {
    k := SnapshotIsStoredAction(v, readers, es, acts, x);
    ExactIsFaithful();
    BatchObeys(rnd, frames, bindings, host, acts[k]);
  }

  lemma BatchObeys(rnd: Rounding, frames: seq<Attempt>, bindings: seq<Binding>, host: Byte, a: ActionState)
    requires a.Sized() && JointsInRange(bindings) && Faithful(rnd) && Faithful(Exact) && IsBatch(frames, bindings, a)
    ensures FramesObey(rnd, frames, bindings, host, a)
  {
    hide Obeys, NearlyObeys, MotorDecode, Encode, Faithful, Command.Encodable, CommandFor;
    forall i | 0 <= i < |frames|
      ensures frames[i].cmd.Encodable()
      ensures Obeys(MotorDecode(Encode(Exact, host, bindings[i].motor, frames[i].cmd)), bindings[i].motor, a, bindings[i].joint)
      ensures NearlyObeys(MotorDecode(Encode(rnd, host, bindings[i].motor, frames[i].cmd)), bindings[i].motor, a, bindings[i].joint)
    {
      CommandObeyed(host, bindings[i].motor, a, bindings[i].joint);
      CommandNearlyObeyed(rnd, host, bindings[i].motor, a, bindings[i].joint);
    }
  }

  /** The frames obey stored action number k. */
  ghost predicate ObeysStore(rnd: Rounding, frames: seq<Attempt>, bindings: seq<Binding>, host: Byte,
                             acts: seq<ActionState>, k: nat)
    requires JointsInRange(bindings) && Faithful(rnd) && Faithful(Exact)
  {
    k < |acts| && acts[k].Sized() && FramesObey(rnd, frames, bindings, host, acts[k])
  }

  /** The store that was current when the load first read the sequence. */
  function ActionIndex(v: seq<Word>, readers: nat, es: seq<Event<Word>>, x: Return<Word>): nat {
    if x.at <= |es| then StoresCompleted(At(v, readers, es, x.at)) else 0
  }

  lemma BatchObeysStore(v: seq<Word>, readers: nat, es: seq<Event<Word>>, acts: seq<ActionState>, rnd: Rounding,
                        b: Batch, bindings: seq<Binding>, host: Byte)
    requires StoresActions(v, readers, es, acts) && |v| == 67 && JointsInRange(bindings) && Faithful(rnd) && Faithful(Exact)
    requires Linearized(v, readers, es, b.load) && StoresBetween(v, readers, es, b.load.at, b.load.done) < 0x8000_0000
    requires |b.load.value| == 67 && IsBatch(b.frames, bindings, ActionOf(b.load.value))
    ensures ObeysStore(rnd, b.frames, bindings, host, acts, ActionIndex(v, readers, es, b.load))
  {
    hide FramesObey, IsBatch, StoresActions, Faithful, ActionOf;
    var n := CycleObeysOneAction(v, readers, es, acts, rnd, b.load, b.frames, bindings, host);
  }

  /** A load that was called after another returned is of the same store or a later one. */
  lemma LaterLoadLaterStore(v: seq<Word>, readers: nat, es: seq<Event<Word>>, x: Return<Word>, y: Return<Word>)
    requires Linearized(v, readers, es, x) && Linearized(v, readers, es, y) && x.done < y.call
    ensures ActionIndex(v, readers, es, x) <= ActionIndex(v, readers, es, y)
  {
    StoresOnlyGrow(v, readers, es[..y.at], x.at);
    assert es[..y.at][..x.at] == es[..x.at];
  }

  /**
   A whole run of a motor thread: cycle k obeys stored action number idx[k], and the actions obeyed
   never go back.
   */
  lemma RunObeysInOrder(v: seq<Word>, readers: nat, es: seq<Event<Word>>, acts: seq<ActionState>, rnd: Rounding,
                        batches: seq<Batch>, bindings: seq<Binding>, host: Byte)
    returns (idx: seq<nat>)
    requires StoresActions(v, readers, es, acts) && |v| == 67 && JointsInRange(bindings) && Faithful(rnd)
    requires InOrder(batches)
    requires forall k | 0 <= k < |batches| ::
               && Linearized(v, readers, es, batches[k].load) && |batches[k].load.value| == 67
               && StoresBetween(v, readers, es, batches[k].load.at, batches[k].load.done) < 0x8000_0000
               && IsBatch(batches[k].frames, bindings, ActionOf(batches[k].load.value))
    ensures |idx| == |batches| && Faithful(Exact) && forall k, l | 0 <= k < l < |idx| :: idx[k] <= idx[l]
    ensures forall k | 0 <= k < |idx| :: ObeysStore(rnd, batches[k].frames, bindings, host, acts, idx[k])
  {
    hide ObeysStore, IsBatch, StoresActions, Faithful, ActionOf, Linearized;
    ExactIsFaithful();
    idx := seq(|batches|, k requires 0 <= k < |batches| => ActionIndex(v, readers, es, batches[k].load));
    forall k | 0 <= k < |idx| ensures ObeysStore(rnd, batches[k].frames, bindings, host, acts, idx[k]) {
      BatchObeysStore(v, readers, es, acts, rnd, batches[k], bindings, host);
    }
    forall k, l | 0 <= k < l < |idx| ensures idx[k] <= idx[l] {
      LaterLoadLaterStore(v, readers, es, batches[k].load, batches[l].load);
    }
  }

  // ----- feedback: motor -> frame -> thread -> seqlock -> merge -> joint -----

  function Channel(ch: nat): seq<Binding> { BindingsOn(MOTOR_MAP, ch, 13) }

  /** The record of a channel: published from this feedback, or what it was before there was any. */
  predicate RecordOf(s: ChannelState, bindings: seq<Binding>, feedback: seq<Feedback>) {
    && s.Sized()
    && (Published(s, bindings, feedback)
        || (s == EMPTY_CHANNEL && |feedback| == |bindings| && forall i | 0 <= i < |feedback| :: feedback[i] == NO_FEEDBACK))
  }

  /** The merge input comes from the four threads of MOTOR_MAP. */
  predicate AllRecords(cs: seq<ChannelState>, fbs: seq<seq<Feedback>>) {
    && |cs| == |fbs| == 4
    && forall ch | 0 <= ch < 4 :: RecordOf(cs[ch], Channel(ch), fbs[ch])
  }

  /** Only the motor that the map binds to a joint can have a record that claims it. */
  lemma ClaimedByOwn(cs: seq<ChannelState>, fbs: seq<seq<Feedback>>, k: nat, c: nat, l: nat)
    requires AllRecords(cs, fbs) && k < 13 && c < 4 && l < cs[c].numMotors
    ensures |Channel(c)| <= 4 && l < |Channel(c)|
    ensures cs[c].joint[l] == MOTOR_MAP[k].joint ==>
              Published(cs[c], Channel(c), fbs[c]) && c == MOTOR_MAP[k].channel && l == SlotOf(MOTOR_MAP, k)
  {
    MapSizes();
    assert RecordOf(cs[c], Channel(c), fbs[c]);
    var m := SlotHasEntry(MOTOR_MAP, c, 13, l);
  }

  lemma RecordsMergeable(cs: seq<ChannelState>, fbs: seq<seq<Feedback>>)
    requires AllRecords(cs, fbs)
    ensures Mergeable(cs)
  {
    forall ch | 0 <= ch < 4 ensures cs[ch].Sized() && cs[ch].numMotors <= 4 {
      assert RecordOf(cs[ch], Channel(ch), fbs[ch]);
    }
  }

  /** Every joint of the map whose channel has published has exactly one writer: its own motor. */
  lemma OwnMotorIsSoleWriter(cs: seq<ChannelState>, fbs: seq<seq<Feedback>>, k: nat)
    requires AllRecords(cs, fbs) && k < 13 && cs[MOTOR_MAP[k].channel] != EMPTY_CHANNEL
    ensures Mergeable(cs) && SoleWriter(cs, MOTOR_MAP[k].channel, SlotOf(MOTOR_MAP, k), MOTOR_MAP[k].joint)
  {
    hide RecordOf;
    RecordsMergeable(cs, fbs);
    EntryHasSlot(MOTOR_MAP, k);
    EntryInRange(k);
    var ch := MOTOR_MAP[k].channel;
    ChannelShape(ch);
    assert Published(cs[ch], Channel(ch), fbs[ch]) by { RecordPublished(cs[ch], Channel(ch), fbs[ch]); }
    forall c, l | 0 <= c < 4 && 0 <= l < cs[c].numMotors && cs[c].joint[l] == MOTOR_MAP[k].joint
      ensures c == ch && l == SlotOf(MOTOR_MAP, k)
    {
      ClaimedByOwn(cs, fbs, k, c, l);
    }
  }

  lemma RecordPublished(s: ChannelState, bindings: seq<Binding>, feedback: seq<Feedback>)
    requires RecordOf(s, bindings, feedback) && s != EMPTY_CHANNEL
    ensures s.Sized() && Published(s, bindings, feedback)
  {
  }

  /** Before a channel's first publication nobody writes its joints. */
  lemma UnpublishedHasNoWriter(cs: seq<ChannelState>, fbs: seq<seq<Feedback>>, k: nat)
    requires AllRecords(cs, fbs) && k < 13 && cs[MOTOR_MAP[k].channel] == EMPTY_CHANNEL
    ensures Mergeable(cs) && LastWriter(cs, IN_ORDER, MOTOR_MAP[k].joint) == None
  {
    RecordsMergeable(cs, fbs);
    forall c, l | 0 <= c < 4 && 0 <= l < cs[c].numMotors ensures cs[c].joint[l] != MOTOR_MAP[k].joint {
      ClaimedByOwn(cs, fbs, k, c, l);
    }
    NoClaimNoWriter(cs, IN_ORDER, MOTOR_MAP[k].joint);
  }

  /** All thirteen joints are covered by the map. */
  lemma EveryJointMapped(j: nat) returns (k: nat)
    requires j < 13
    ensures k < 13 && MOTOR_MAP[k].joint == j
  {
    k := [0, 7, 8, 9, 10, 11, 12, 1, 2, 3, 4, 5, 6][j];
  }

  /** Joint j of the merge holds reading r. */
  predicate JointHolds(out: Combined, j: nat, r: Reading)
    requires out.Sized()
  {
    j < 13 && out.q[j] == r.position && out.dq[j] == r.velocity && out.tau[j] == r.torque
  }

  /** Motor record i of channel ch. */
  function ReadingOf(fbs: seq<seq<Feedback>>, ch: nat, i: nat): Reading {
    if ch < |fbs| && i < |fbs[ch]| then fbs[ch][i].reading else NO_FEEDBACK.reading
  }

  /** Visiting the channels in any order, the joint of entry k is written last by entry k's motor. */
  lemma OrderIrrelevant(cs: seq<ChannelState>, fbs: seq<seq<Feedback>>, k: nat, order: seq<nat>)
    requires AllRecords(cs, fbs) && k < 13 && Mergeable(cs) && cs[MOTOR_MAP[k].channel] != EMPTY_CHANNEL
    requires (forall n | 0 <= n < |order| :: order[n] < 4) && MOTOR_MAP[k].channel in order
    ensures LastWriter(cs, order, MOTOR_MAP[k].joint) == Some((MOTOR_MAP[k].channel, SlotOf(MOTOR_MAP, k)))
  {
    OwnMotorIsSoleWriter(cs, fbs, k);
    SoleWriterWins(cs, order, MOTOR_MAP[k].channel, SlotOf(MOTOR_MAP, k), MOTOR_MAP[k].joint);
  }

  lemma EntryInRange(k: nat)
    requires k < 13
    ensures MOTOR_MAP[k].channel < 4 && MOTOR_MAP[k].joint < 13 && MOTOR_MAP[k].channel in IN_ORDER
  {
  }

  lemma WriterShown(cs: seq<ChannelState>, out: Combined, ch: nat, i: nat, j: nat)
    requires Mergeable(cs) && out.Sized() && AllShow(out, cs, 4, 0) && ch < 4 && i < 4 && j < 13
    requires LastWriter(cs, IN_ORDER, j) == Some((ch, i))
    ensures out.q[j] == cs[ch].q[i] && out.dq[j] == cs[ch].dq[i]
    ensures out.tau[j] == cs[ch].tau[i] && out.online[j] == cs[ch].online[i]
  {
    WriterIsLastInOrder(cs, 4, j);
    assert IN_ORDER[..4] == IN_ORDER;
    assert Shows(out, j, cs, WriterAfter(cs, 4, 0, j));
  }

  lemma NobodyShown(cs: seq<ChannelState>, out: Combined, j: nat)
    requires Mergeable(cs) && out.Sized() && AllShow(out, cs, 4, 0) && j < 13 && LastWriter(cs, IN_ORDER, j) == None
    ensures out.q[j] == 0.0 && out.dq[j] == 0.0 && out.tau[j] == 0.0 && !out.online[j]
  {
    WriterIsLastInOrder(cs, 4, j);
    assert IN_ORDER[..4] == IN_ORDER;
    assert Shows(out, j, cs, WriterAfter(cs, 4, 0, j));
  }

  lemma EntryFacts(k: nat)
    requires k < 13
    ensures var ch, i := MOTOR_MAP[k].channel, SlotOf(MOTOR_MAP, k);
            && ch < 4 && MOTOR_MAP[k].joint < 13 && i < |Channel(ch)| <= 4
            && Channel(ch)[i] == Binding(MOTOR_MAP[k].motor, MOTOR_MAP[k].joint)
  {
    EntryInRange(k);
    EntryHasSlot(MOTOR_MAP, k);
    ChannelShape(MOTOR_MAP[k].channel);
  }

  /** Who writes the joint of entry k: its own motor, once its channel has published. */
  lemma WriterOf(cs: seq<ChannelState>, fbs: seq<seq<Feedback>>, k: nat)
    requires AllRecords(cs, fbs) && k < 13 && Mergeable(cs)
    ensures LastWriter(cs, IN_ORDER, MOTOR_MAP[k].joint)
            == if cs[MOTOR_MAP[k].channel] == EMPTY_CHANNEL then None
               else Some((MOTOR_MAP[k].channel, SlotOf(MOTOR_MAP, k)))
  {
    EntryInRange(k);
    hide AllRecords, LastWriter, Mergeable, SlotOf;
    if cs[MOTOR_MAP[k].channel] == EMPTY_CHANNEL {
      UnpublishedHasNoWriter(cs, fbs, k);
    } else {
      OrderIrrelevant(cs, fbs, k, IN_ORDER);
    }
  }

  lemma RecordShown(cs: seq<ChannelState>, out: Combined, ch: nat, i: nat, j: nat, bindings: seq<Binding>, feedback: seq<Feedback>)
    requires Mergeable(cs) && out.Sized() && AllShow(out, cs, 4, 0) && ch < 4 && j < 13
    requires RecordOf(cs[ch], bindings, feedback) && i < |bindings| <= 4
    requires LastWriter(cs, IN_ORDER, j) == if cs[ch] == EMPTY_CHANNEL then None else Some((ch, i))
    ensures i < |feedback| && JointHolds(out, j, feedback[i].reading) && out.online[j] == cs[ch].online[i]
  {
    hide AllShow, LastWriter;
    if cs[ch] == EMPTY_CHANNEL { NobodyShown(cs, out, j); } else { WriterShown(cs, out, ch, i, j); }
  }

  /** The joint of entry k shows the last feedback, and the online flag, of entry k's motor. */
  lemma JointShowsItsMotor(cs: seq<ChannelState>, fbs: seq<seq<Feedback>>, out: Combined, k: nat)
    requires AllRecords(cs, fbs) && k < 13 && out.Sized() && Mergeable(cs) && AllShow(out, cs, 4, 0)
    ensures var ch, i := MOTOR_MAP[k].channel, SlotOf(MOTOR_MAP, k);
            && ch < 4 && i < |Channel(ch)| && i < |fbs[ch]| && i < 4
            && Channel(ch)[i] == Binding(MOTOR_MAP[k].motor, MOTOR_MAP[k].joint)
            && JointHolds(out, MOTOR_MAP[k].joint, ReadingOf(fbs, ch, i))
            && out.online[MOTOR_MAP[k].joint] == cs[ch].online[i]
  {
    EntryFacts(k);
    var ch, i, j := MOTOR_MAP[k].channel, SlotOf(MOTOR_MAP, k), MOTOR_MAP[k].joint;
    hide RecordOf, AllShow, LastWriter, SlotOf, Channel, JointHolds;
    WriterOf(cs, fbs, k);
    RecordShown(cs, out, ch, i, j, Channel(ch), fbs[ch]);
  }

  /**
   One channel's history: its seqlock's run and the load the merge made of it; its thread's clock and
   queue at the start, its cycles, and the mark they reached.
   */
  datatype ChannelRun = ChannelRun(readers: nat, es: seq<Event<Word>>, load: Return<Word>, start: nat,
                                   rx: seq<CanMsg>, batches: seq<Batch>, end: Mark)

  const NO_STATE := ChannelWords(EMPTY_CHANNEL)

  /** The load is usable: its window saw fewer than 2^31 stores. */
  ghost predicate Usable(readers: nat, es: seq<Event<Word>>, x: Return<Word>) {
    Linearized(NO_STATE, readers, es, x) && StoresBetween(NO_STATE, readers, es, x.at, x.done) < 0x8000_0000
  }

  /** A thread that has done nothing yet. */
  function Fresh(start: nat, rx: seq<CanMsg>): Mark { Mark([], rx, [NO_STATE], start, [], 0, 0, 0, 0) }

  /** The seqlock's stores, and the rest of the thread's mark, are what its cycles reach from the start. */
  ghost predicate ChannelRunOk(c: ChannelRun, rnd: Rounding, ch: nat) {
    && Usable(c.readers, c.es, c.load)
    && Exec(Init(NO_STATE, c.readers), c.es).stores == c.end.stores
    && Reaches(Fresh(c.start, c.rx), c.batches, rnd, Channel(ch), c.end)
  }

  lemma ChannelShape(ch: nat)
    ensures JointsInRange(Channel(ch)) && |Channel(ch)| <= 4
  {
    MapSizes();
    FourEntries(ch);
    forall i | 0 <= i < |Channel(ch)| ensures 0 <= Channel(ch)[i].joint < 13 {
      var k := SlotHasEntry(MOTOR_MAP, ch, 13, i);
    }
    if ch >= NUM_CHANNELS && |Channel(ch)| > 0 {
      var k := SlotHasEntry(MOTOR_MAP, ch, 13, 0);
    }
  }

  /**
   A channel's thread from start to shutdown, with any frames on the bus and any readers of its slot:
   every usable load anybody finished, during the run, is a ChannelRun.
   */
  method OneChannel(rnd: Rounding, ch: nat, clock: nat, action: SeqLocked<Word>, r: nat, readers: nat)
    returns (slot: SeqLocked<Word>, thread: MotorThread, ghost rx: seq<CanMsg>, ghost batches: seq<Batch>)
    requires clock > 0 && action.Valid() && |action.initial| == 67
    requires r < action.readers && r < |action.st.readers| && action.st.readers[r].Away?
    modifies action
    ensures slot.Valid() && slot.initial == NO_STATE && slot.readers == readers
    ensures JointsInRange(Channel(ch)) && thread.receiver.bindings == Channel(ch) && thread.log == Flatten(batches)
    ensures AllCoherent(batches, action, Channel(ch)) && InOrder(batches)
    ensures forall i | 0 <= i < |slot.st.loads| && Usable(readers, slot.run, slot.st.loads[i]) ::
              ChannelRunOk(ChannelRun(readers, slot.run, slot.st.loads[i], clock, rx, batches, thread.Here(slot)), rnd, ch)
  {
    ChannelShape(ch);
    hide Usable, Reaches, AllCoherent, InOrder, ChannelWords;
    var pacer := new Pacer(clock);
    var receiver := new Receiver(rnd, Channel(ch), pacer);
    receiver.FramesArrive();
    rx := receiver.rx;
    slot := new SeqLocked(NO_STATE, readers);
    thread := new MotorThread(receiver);
    assert thread.Here(slot) == Fresh(clock, rx);
    batches := thread.Run(action, r, slot);
    assert thread.log == Flatten(batches);
  }

  /** The publication a load returned: the last one completed when it first read the sequence, or -1. */
  function Seen(c: ChannelRun): int {
    if c.load.at <= |c.es| then StoresCompleted(At(NO_STATE, c.readers, c.es, c.load.at)) - 1 else -1
  }

  /** A usable load is one whole publication of the channel, or the record before the first. */
  lemma LoadIsOnePublication(c: ChannelRun, rnd: Rounding, ch: nat)
    requires ChannelRunOk(c, rnd, ch)
    ensures -1 <= Seen(c) < |c.batches| && |c.load.value| == 22
    ensures ChannelOf(c.load.value) == if Seen(c) < 0 then EMPTY_CHANNEL else c.batches[Seen(c)].state
    ensures Seen(c) >= 0 ==> PublishedFrom(c.batches[Seen(c)].state, Channel(ch), c.batches[Seen(c)].parsed)
    ensures Seen(c) >= 0 ==> TimedAt(c.batches, c.start, Seen(c))
  {
    hide PublishedFrom, AllReceived, TimedAt, ChannelWords, ChannelOf, Exec;
    RegisterThen(NO_STATE, c.readers, c.es, c.load.at);
    var p := Seen(c);
    if p < 0 {
      assert Exec(Init(NO_STATE, c.readers), c.es).stores[0] == [NO_STATE][0];
      ChannelRoundTrip(EMPTY_CHANNEL);
    } else {
      assert Exec(Init(NO_STATE, c.readers), c.es).stores[1 + p] == ChannelWords(c.batches[p].state);
      ChannelRoundTrip(c.batches[p].state);
      StatePublished(c.batches, rnd, Channel(ch), c.rx, p);
    }
  }

  lemma LoadIsRecord(c: ChannelRun, rnd: Rounding, ch: nat)
    requires ChannelRunOk(c, rnd, ch) && |c.load.value| == 22
    ensures RecordOf(ChannelOf(c.load.value), Channel(ch), FeedbackOf(ParsedOf(c), |Channel(ch)|))
  {
    hide ChannelOf, Seen, Published, OnlineExact, Ordered, TimedAt;
    LoadIsOnePublication(c, rnd, ch);
  }

  lemma StatePublished(batches: seq<Batch>, rnd: Rounding, bindings: seq<Binding>, rx: seq<CanMsg>, p: nat)
    requires AllReceived(batches, rnd, bindings, [], rx) && p < |batches|
    ensures PublishedFrom(batches[p].state, bindings, batches[p].parsed)
  {
    assert ReceivedAt(batches, rnd, bindings, [], rx, p);
  }

  /** The merge read these four channels. */
  ghost predicate MergeOf(runs: seq<ChannelRun>, rnd: Rounding, cs: seq<ChannelState>, out: Combined) {
    && |runs| == |cs| == 4
    && (forall ch | 0 <= ch < 4 ::
          ChannelRunOk(runs[ch], rnd, ch) && |runs[ch].load.value| == 22 && cs[ch] == ChannelOf(runs[ch].load.value))
    && out.Sized() && (Mergeable(cs) ==> AllShow(out, cs, 4, 0))
  }

  /** Four such loads can be merged: no index leaves its array. */
  lemma LoadsMergeable(runs: seq<ChannelRun>, rnd: Rounding, cs: seq<ChannelState>)
    requires |runs| == |cs| == 4
    requires forall ch | 0 <= ch < 4 ::
               ChannelRunOk(runs[ch], rnd, ch) && |runs[ch].load.value| == 22 && cs[ch] == ChannelOf(runs[ch].load.value)
    ensures Mergeable(cs)
    ensures AllRecords(cs, seq(4, ch requires 0 <= ch < 4 => FeedbackOf(ParsedOf(runs[ch]), |Channel(ch)|)))
  {
    hide ChannelRunOk, ChannelOf, RecordOf;
    var fbs := seq(4, ch requires 0 <= ch < 4 => FeedbackOf(ParsedOf(runs[ch]), |Channel(ch)|));
    forall ch | 0 <= ch < 4 ensures RecordOf(cs[ch], Channel(ch), fbs[ch]) {
      LoadIsRecord(runs[ch], rnd, ch);
    }
    RecordsMergeable(cs, fbs);
  }

  /** What a merge comes to. Undefined: a channel claims more motors than its record holds. */
  datatype MergeResult = Merged(out: Combined) | Waiting | Undefined

  /** Loads of four channels, each usable and of a thread's run: the merge they stand for. */
  ghost predicate RunsOf(runs: seq<ChannelRun>, rnd: Rounding, slots: seq<SeqLocked<Word>>, loads: seq<Return<Word>>)
    reads slots
  {
    && |runs| == |slots| == |loads| == 4
    && forall ch | 0 <= ch < 4 ::
         && runs[ch].readers == slots[ch].readers && runs[ch].es == slots[ch].run && runs[ch].load == loads[ch]
         && ChannelRunOk(runs[ch], rnd, ch)
  }

  /**
   combine_channels: four loads by reader r, each against its channel's own interference, then the merge.
   Whatever the threads' runs were, as long as the loads are usable, the merge is defined and is theirs.
   Waiting is a load that still retries, which takes a writer that was busy.
   */
  method ReadMerge(slots: seq<SeqLocked<Word>>, r: nat, budget: nat)
    returns (merge: MergeResult, ghost loads: seq<Return<Word>>, ghost cs: seq<ChannelState>)
    requires |slots| == 4 && forall c, d | 0 <= c < d < 4 :: slots[c] != slots[d]
    requires forall ch | 0 <= ch < 4 :: slots[ch].Valid() && |slots[ch].initial| == 22
    requires forall ch | 0 <= ch < 4 ::
               r < slots[ch].readers && r < |slots[ch].st.readers| && slots[ch].st.readers[r].Away?
    modifies slots
    ensures forall ch | 0 <= ch < 4 :: slots[ch].Valid() && old(slots[ch].run) <= slots[ch].run
    ensures merge.Waiting? ==> exists ch | 0 <= ch < 4 :: r < |slots[ch].st.readers| && slots[ch].st.readers[r].Spin?
    ensures merge.Waiting? && budget > 0 ==> exists ch | 0 <= ch < 4 ::
              !(old(slots[ch].st.writer.Idle?) && NoWriterStep(slots[ch].run, |old(slots[ch].run)|))
    ensures !merge.Waiting? ==> |loads| == 4 && forall ch | 0 <= ch < 4 ::
              Linearized(slots[ch].initial, slots[ch].readers, slots[ch].run, loads[ch]) && |old(slots[ch].run)| <= loads[ch].call
    ensures !merge.Waiting? ==> forall runs, rnd | RunsOf(runs, rnd, slots, loads) ::
              merge.Merged? && MergeOf(runs, rnd, cs, merge.out)
  {
    hide Linearized, RunsOf, MergeOf, ChannelOf, LoadedIn, SeqLocked.Valid;
    var records;
    loads, records := LoadAll(slots, r, budget);
    cs := records;
    if |records| < 4 { return Waiting, loads, cs; }
    merge := Undefined;
    LoadedSized(slots, loads, records);
    if records[0].numMotors <= 4 && records[1].numMotors <= 4 && records[2].numMotors <= 4 && records[3].numMotors <= 4 {
      var out := CombineChannels(records);
      merge := Merged(out);
    }
    forall runs, rnd | RunsOf(runs, rnd, slots, loads) ensures merge.Merged? && MergeOf(runs, rnd, cs, merge.out) {
      MergeOfRuns(runs, rnd, slots, loads, cs, merge);
    }
  }

  /** The loads, channel after channel, up to one that still retries. */
  method LoadAll(slots: seq<SeqLocked<Word>>, r: nat, budget: nat)
    returns (ghost loads: seq<Return<Word>>, records: seq<ChannelState>)
    requires |slots| == 4 && forall c, d | 0 <= c < d < 4 :: slots[c] != slots[d]
    requires forall ch | 0 <= ch < 4 :: slots[ch].Valid() && |slots[ch].initial| == 22
    requires forall ch | 0 <= ch < 4 ::
               r < slots[ch].readers && r < |slots[ch].st.readers| && slots[ch].st.readers[r].Away?
    modifies slots
    ensures forall ch | 0 <= ch < 4 :: slots[ch].Valid() && old(slots[ch].run) <= slots[ch].run
    ensures |loads| == |records| <= 4
    ensures forall c | 0 <= c < |loads| ::
              LoadedIn(slots[c], loads[c], records[c]) && |old(slots[c].run)| <= loads[c].call
    ensures |loads| < 4 ==> r < |slots[|loads|].st.readers| && slots[|loads|].st.readers[r].Spin?
    ensures |loads| < 4 && budget > 0 ==>
              !(old(slots[|loads|].st.writer.Idle?) && NoWriterStep(slots[|loads|].run, |old(slots[|loads|].run)|))
  {
    hide Linearized, ChannelOf, SeqLocked.Valid, Blocked, NoWriterStep, Exec;
    loads, records := [], [];
    var ch := 0;
    while ch < 4
      invariant 0 <= ch <= 4 && |loads| == |records| == ch
      invariant forall c | 0 <= c < ch :: LoadedIn(slots[c], loads[c], records[c])
      invariant forall c | 0 <= c < ch :: |old(slots[c].run)| <= loads[c].call && old(slots[c].run) <= slots[c].run
      invariant forall c | 0 <= c < 4 :: slots[c].Valid() && (c >= ch ==> unchanged(slots[c]))
    {
      var snapshot;
      ghost var x, blocked;
      snapshot, x, blocked := slots[ch].Load(r, budget);
      if snapshot.None? { return; }
      loads, records := loads + [x], records + [ChannelOf(snapshot.value)];
      ch := ch + 1;
    }
  }

  lemma LoadedSized(slots: seq<SeqLocked<Word>>, loads: seq<Return<Word>>, records: seq<ChannelState>)
    requires |slots| == |loads| == |records| && forall c | 0 <= c < |slots| :: LoadedIn(slots[c], loads[c], records[c])
    ensures forall c | 0 <= c < |slots| :: records[c].Sized() && |loads[c].value| == 22
    ensures forall c | 0 <= c < |slots| :: Linearized(slots[c].initial, slots[c].readers, slots[c].run, loads[c])
  {
    hide Linearized, ChannelOf;
  }

  /** The record is the load's value, and the load is of this slot. */
  ghost predicate LoadedIn(slot: SeqLocked<Word>, x: Return<Word>, record: ChannelState)
    reads slot
  {
    && Linearized(slot.initial, slot.readers, slot.run, x)
    && |x.value| == 22 && record == ChannelOf(x.value)
  }

  lemma MergeOfRuns(runs: seq<ChannelRun>, rnd: Rounding, slots: seq<SeqLocked<Word>>, loads: seq<Return<Word>>,
                    cs: seq<ChannelState>, merge: MergeResult)
    requires RunsOf(runs, rnd, slots, loads) && |cs| == 4
    requires forall ch | 0 <= ch < 4 :: LoadedIn(slots[ch], loads[ch], cs[ch])
    requires merge.Merged? || (merge.Undefined? && !Mergeable(cs))
    requires merge.Merged? ==> Mergeable(cs) && merge.out.Sized() && AllShow(merge.out, cs, 4, 0)
    ensures merge.Merged? && MergeOf(runs, rnd, cs, merge.out)
  {
    hide ChannelRunOk, ChannelOf, AllShow, Linearized;
    LoadsMergeable(runs, rnd, cs);
  }

  /** The parses behind what the merge shows of a channel, and when that was published. */
  function ParsedOf(c: ChannelRun): seq<Parse> {
    if 0 <= Seen(c) < |c.batches| then c.batches[Seen(c)].parsed else []
  }

  function TimeOf(c: ChannelRun): int {
    if 0 <= Seen(c) < |c.batches| then c.batches[Seen(c)].state.timestamp else 0
  }

  /**
   Feedback routing, end to end: joint MOTOR_MAP[k].joint of the merge holds the last parse of
   MOTOR_MAP[k]'s motor as of one publication of its channel (zeros before the first), made between the
   clock measurements that bound its cycle, and is online exactly when that motor was heard within ten
   periods before it.
   */
  lemma MergeRoutesFeedback(runs: seq<ChannelRun>, rnd: Rounding, cs: seq<ChannelState>, out: Combined, k: nat)
    requires MergeOf(runs, rnd, cs, out) && k < 13
    ensures var ch, i, j := MOTOR_MAP[k].channel, SlotOf(MOTOR_MAP, k), MOTOR_MAP[k].joint;
            && ch < 4 && j < 13 && -1 <= Seen(runs[ch]) < |runs[ch].batches|
            && JointHolds(out, j, LastParse(ParsedOf(runs[ch]), i).reading)
            && (Seen(runs[ch]) >= 0 ==> TimedAt(runs[ch].batches, runs[ch].start, Seen(runs[ch])))
            && TimeOf(runs[ch]) >= 0 && Ordered(ParsedOf(runs[ch]), TimeOf(runs[ch]))
            && (TimeOf(runs[ch]) < 0x1_0000_0000_0000_0000 ==>
                  (out.online[j] <==> HeardRecently(ParsedOf(runs[ch]), i, TimeOf(runs[ch]))))
  {
    EntryInRange(k);
    LoadsMergeable(runs, rnd, cs);
    var fbs := seq(4, ch requires 0 <= ch < 4 => FeedbackOf(ParsedOf(runs[ch]), |Channel(ch)|));
    var ch, i := MOTOR_MAP[k].channel, SlotOf(MOTOR_MAP, k);
    hide MergeOf, ChannelRunOk, AllShow, AllRecords, TimedAt, LastParse;
    JointShowsItsMotor(cs, fbs, out, k);
    LoadIsFresh(runs[ch], rnd, ch, i);
  }

  lemma LoadIsFresh(c: ChannelRun, rnd: Rounding, ch: nat, i: nat)
    requires ChannelRunOk(c, rnd, ch) && |c.load.value| == 22 && i < |Channel(ch)| && i < 4
    ensures -1 <= Seen(c) < |c.batches| && (Seen(c) >= 0 ==> TimedAt(c.batches, c.start, Seen(c)))
    ensures TimeOf(c) >= 0 && Ordered(ParsedOf(c), TimeOf(c))
    ensures TimeOf(c) < 0x1_0000_0000_0000_0000 ==>
              (ChannelOf(c.load.value).online[i] <==> HeardRecently(ParsedOf(c), i, TimeOf(c)))
  {
    LoadIsOnePublication(c, rnd, ch);
    hide ChannelRunOk, Published, Seen, TimedAt, ChannelOf;
    if Seen(c) >= 0 {
      assert OnlineExact(c.batches[Seen(c)].state, Channel(ch), ParsedOf(c));
    }
  }

  /**
   The first leg: if the last of the drained frames meant for the motor is the feedback frame it
   encoded from the four codes, its last feedback is those codes decoded.
   */
  lemma FrameBecomesFeedback(rnd: Rounding, k: nat, frames: seq<CanMsg>, f: nat, mode: Byte, fault: Byte,
                             host: Byte, pos: Code, vel: Code, tor: Code, temp: Code)
    requires k < 13 && f < |frames| && mode < 4 && fault < 0x40
    requires frames[f] == FeedbackFrame(mode, fault, MOTOR_MAP[k].motor, host, pos, vel, tor, temp)
    requires forall l | f < l < |frames| ::
               Target(rnd, Channel(MOTOR_MAP[k].channel), frames[l]) != SlotOf(MOTOR_MAP, k)
    ensures var b, i := Channel(MOTOR_MAP[k].channel), SlotOf(MOTOR_MAP, k);
            && i < |b|
            && LastFor(rnd, b, frames, i) ==
               Some(Reading(UintToFloat(rnd, pos, POSITION), UintToFloat(rnd, vel, VELOCITY),
                            UintToFloat(rnd, tor, TORQUE), rnd(Times(temp as real, TENTH)), mode, fault))
  {
    var b, i := Channel(MOTOR_MAP[k].channel), SlotOf(MOTOR_MAP, k);
    EntryHasSlot(MOTOR_MAP, k);
    ChannelIdsDistinct(MOTOR_MAP[k].channel);
    FeedbackRoundTrip(rnd, mode, fault, MOTOR_MAP[k].motor, host, pos, vel, tor, temp, MOTOR_MAP[k].motor);
    TargetIsSource(rnd, b, frames[f], i);
    LastForIsLast(rnd, b, frames, i, f);
  }

  /** The frames cycle b offered to the motors. */
  function Offered(b: Batch): seq<CanMsg> {
    if Capped(b.taken) <= |b.queue| then b.queue[..Capped(b.taken)] else []
  }

  /** No frame that cycle b offered is for motor i. */
  predicate SilentCycle(rnd: Rounding, bindings: seq<Binding>, b: Batch, i: nat) {
    forall l | 0 <= l < |Offered(b)| :: Target(rnd, bindings, Offered(b)[l]) != i
  }

  /** Cycles without a frame for motor i leave its last feedback alone. */
  lemma {:induction false} FeedbackKept(batches: seq<Batch>, rnd: Rounding, bindings: seq<Binding>, rx: seq<CanMsg>, i: nat, q: nat, p: nat)
    requires AllReceived(batches, rnd, bindings, [], rx) && i < |bindings| && q <= p < |batches|
    requires forall m | q < m <= p :: SilentCycle(rnd, bindings, batches[m], i)
    ensures LastParse(batches[p].parsed, i) == LastParse(batches[q].parsed, i)
  {
    if q < p {
      FeedbackKept(batches, rnd, bindings, rx, i, q, p - 1);
      assert SilentCycle(rnd, bindings, batches[p], i);
      KeptOnce(batches, rnd, bindings, rx, i, p);
    }
  }

  lemma KeptOnce(batches: seq<Batch>, rnd: Rounding, bindings: seq<Binding>, rx: seq<CanMsg>, i: nat, p: nat)
    requires AllReceived(batches, rnd, bindings, [], rx) && i < |bindings| && 0 < p < |batches|
    requires SilentCycle(rnd, bindings, batches[p], i)
    ensures LastParse(batches[p].parsed, i) == LastParse(batches[p - 1].parsed, i)
  {
    var b := batches[p];
    assert ReceivedAt(batches, rnd, bindings, [], rx, p);
    hide AllReceived, ParsedFrom, PublishedFrom, LastFor, LastParse, Target;
    LastForNone(rnd, bindings, Offered(b), i);
    ParsesDrain(rnd, bindings, Offered(b), batches[p - 1].parsed, b.news, i, b.since);
  }

  /** What cycle q made of the motor, if its last frame for it reads r: parse n of the cycle. */
  lemma FeedbackTaken(batches: seq<Batch>, rnd: Rounding, bindings: seq<Binding>, rx: seq<CanMsg>, i: nat, q: nat, r: Reading)
    returns (n: nat)
    requires AllReceived(batches, rnd, bindings, [], rx) && i < |bindings| && q < |batches|
    requires LastFor(rnd, bindings, Offered(batches[q]), i) == Some(r)
    ensures n < |batches[q].news| && batches[q].news[n] == Parse(i, r, batches[q].news[n].stamp)
    ensures LastParse(batches[q].parsed, i) == Feedback(r, batches[q].news[n].stamp)
    ensures 0 < batches[q].since <= batches[q].news[n].stamp <= batches[q].state.timestamp
  {
    var b := batches[q];
    assert ReceivedAt(batches, rnd, bindings, [], rx, q);
    hide AllReceived, ParsedFrom, LastFor, LastParse, Published, OnlineExact;
    n := LastParsed(rnd, bindings, Offered(b), ParsedBefore(batches, [], q), b.news, i, r);
    assert b.parsed[|ParsedBefore(batches, [], q)| + n] == b.news[n];
  }

  lemma HeardByLast(parsed: seq<Parse>, i: nat, now: nat)
    requires Ordered(parsed, now) && LastParse(parsed, i).timestamp > 0
    ensures HeardRecently(parsed, i, now) <==> Recent(now, LastParse(parsed, i).timestamp)
    ensures LastParse(parsed, i).timestamp <= now
  {
    LastParseIsLatest(parsed, i, now);
    var f := LastParse(parsed, i);
    var k :| 0 <= k < |parsed| && parsed[k].motor == i && parsed[k].stamp == f.timestamp;
    assert Recent(now, parsed[k].stamp) == Recent(now, f.timestamp);
  }

  /**
   From the motor to the joint. When cycle q of the channel's thread began to drain, the frame that the
   motor of map entry k encoded from the four codes was among the first 32 of its queue, and no read failed
   before it; no later frame for the motor was offered up to the publication the merge read. Then cycle q
   parsed it, at time `stamp`; the joint shows those codes decoded; and it is online exactly when, at that
   publication, less than ten periods had passed since.
   */
  lemma FrameReachesJoint(runs: seq<ChannelRun>, rnd: Rounding, cs: seq<ChannelState>, out: Combined, k: nat, q: nat, f: nat,
                          mode: Byte, fault: Byte, host: Byte, pos: Code, vel: Code, tor: Code, temp: Code)
    returns (n: nat, stamp: nat)
    requires MergeOf(runs, rnd, cs, out) && k < 13 && mode < 4 && fault < 0x40
    requires var ch, i := MOTOR_MAP[k].channel, SlotOf(MOTOR_MAP, k);
             && ch < 4 && q <= Seen(runs[ch]) < |runs[ch].batches|
             && ReadAt(runs[ch].batches[q], f)
             && runs[ch].batches[q].queue[f] == FeedbackFrame(mode, fault, MOTOR_MAP[k].motor, host, pos, vel, tor, temp)
             && (forall l | f < l < |Offered(runs[ch].batches[q])| ::
                   Target(rnd, Channel(ch), Offered(runs[ch].batches[q])[l]) != i)
             && (forall m | q < m <= Seen(runs[ch]) :: SilentCycle(rnd, Channel(ch), runs[ch].batches[m], i))
    ensures var ch, i, j := MOTOR_MAP[k].channel, SlotOf(MOTOR_MAP, k), MOTOR_MAP[k].joint;
            var r := Reading(UintToFloat(rnd, pos, POSITION), UintToFloat(rnd, vel, VELOCITY),
                             UintToFloat(rnd, tor, TORQUE), rnd(Times(temp as real, TENTH)), mode, fault);
            var b := runs[ch].batches[q];
            && n < |b.news| && b.news[n] == Parse(i, r, stamp) && b.since <= stamp <= b.state.timestamp
            && LastParse(ParsedOf(runs[ch]), i) == Feedback(r, stamp) && JointHolds(out, j, r)
            && TimedAt(runs[ch].batches, runs[ch].start, Seen(runs[ch])) && stamp <= TimeOf(runs[ch])
            && (TimeOf(runs[ch]) < 0x1_0000_0000_0000_0000 ==>
                  (out.online[j] <==> Recent(TimeOf(runs[ch]), stamp)))
  {
    var ch, i := MOTOR_MAP[k].channel, SlotOf(MOTOR_MAP, k);
    var c := runs[ch];
    ReadIsOffered(c.batches, rnd, Channel(ch), c.rx, q, f);
    FrameBecomesFeedback(rnd, k, Offered(c.batches[q]), f, mode, fault, host, pos, vel, tor, temp);
    var r := LastFor(rnd, Channel(ch), Offered(c.batches[q]), i).value;
    MergeRoutesFeedback(runs, rnd, cs, out, k);
    hide MergeOf, LastFor, AllReceived, TimedAt, UintToFloat, Target, FeedbackFrame;
    n := FeedbackTaken(c.batches, rnd, Channel(ch), c.rx, i, q, r);
    FeedbackKept(c.batches, rnd, Channel(ch), c.rx, i, q, Seen(c));
    stamp := c.batches[q].news[n].stamp;
    HeardByLast(ParsedOf(c), i, TimeOf(c));
  }

  /** Frame f of the queue is among the first 32, and every read before its own gave a frame. */
  predicate ReadAt(b: Batch, f: nat) { f < 32 && f < |b.queue| && (b.failed ==> f < b.taken) }

  lemma ReadIsOffered(batches: seq<Batch>, rnd: Rounding, bindings: seq<Binding>, rx: seq<CanMsg>, q: nat, f: nat)
    requires AllReceived(batches, rnd, bindings, [], rx) && q < |batches| && ReadAt(batches[q], f)
    ensures f < |Offered(batches[q])| && Offered(batches[q])[f] == batches[q].queue[f]
  {
    assert ReceivedAt(batches, rnd, bindings, [], rx, q);
  }

  /** Motor IDs are unique within a channel. */
  lemma ChannelIdsDistinct(ch: nat)
    ensures forall i, j | 0 <= i < j < |Channel(ch)| :: Channel(ch)[i].motor != Channel(ch)[j].motor
  {
    MapSizes();
    forall i, j | 0 <= i < j < |Channel(ch)| ensures Channel(ch)[i].motor != Channel(ch)[j].motor {
      var k := SlotHasEntry(MOTOR_MAP, ch, 13, i);
      var l := SlotHasEntry(MOTOR_MAP, ch, 13, j);
    }
  }
}
