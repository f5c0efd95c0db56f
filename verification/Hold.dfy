/**
 The hold controller of apps/position_read.cpp: message processing, enabling, disabling, holding,
 polling and stopping, with every transmission free to fail and any key at any tick.
 */
module Hold {
  import opened Util
  import opened Codec
  import opened Wire
  import opened HoldTrace

  /** MotorState without its display-only fields. */
  datatype Motor = Motor(ch: nat, id: Byte, enabled: bool, positionValid: bool, position: Float,
                         velocity: real, torque: real, temperature: real, hold: Float,
                         mode: Byte, fault: Byte, generation: nat)

  /** position_generation is a uint64_t. */
  function NextGeneration(g: nat): nat { (g + 1) % 0x1_0000_0000_0000_0000 }

  /** Strictly sorted by (channel, motor ID). */
  predicate Before(m: Motor, n: Motor) { m.ch < n.ch || (m.ch == n.ch && m.id < n.id) }

  predicate Sorted(motors: seq<Motor>) {
    forall i, j | 0 <= i < j < |motors| :: Before(motors[i], motors[j])
  }

  function IndexOf(motors: seq<Motor>, ch: nat, id: Byte): (i: nat)
    ensures i <= |motors|
    ensures i < |motors| ==> motors[i].ch == ch && motors[i].id == id
    ensures forall k | 0 <= k < i :: motors[k].ch != ch || motors[k].id != id
  {
    if motors == [] || (motors[0].ch == ch && motors[0].id == id) then 0 else 1 + IndexOf(motors[1..], ch, id)
  }

  function WithReading(m: Motor, r: Reading): Motor {
    m.(positionValid := true, position := Fin(r.position), velocity := r.velocity, torque := r.torque,
       temperature := r.temperature, mode := r.mode, fault := r.fault,
       generation := NextGeneration(m.generation))
  }

  function WithPosition(m: Motor, p: Float): Motor {
    m.(positionValid := true, position := p, generation := NextGeneration(m.generation))
  }

  /** What a received frame does to the motors: at most the one it names, on its own channel. */
  function Apply(cfg: Config, motors: seq<Motor>, ch: nat, m: CanMsg): (after: seq<Motor>)
    ensures |after| == |motors|
  {
    match Reported(cfg, m)
    case None => motors
    case Some((id, p)) =>
      var i := IndexOf(motors, ch, id);
      if i == |motors| then motors
      else if CommType(m.id) == COMM_FEEDBACK then
        motors[i := WithReading(motors[i], ParseFeedback(cfg.rnd, id, m).value)]
      else motors[i := WithPosition(motors[i], p)]
  }

  /** Isolation: a frame changes only the motor it names on the receiving channel; that motor's
      generation rises by one and its position becomes the finite one reported. */
  lemma ApplyIsolated(cfg: Config, motors: seq<Motor>, ch: nat, m: CanMsg, i: nat)
    requires i < |motors| && Sorted(motors)
    ensures var a := Apply(cfg, motors, ch, m)[i];
            if motors[i].ch == ch && Reported(cfg, m).Some? && Reported(cfg, m).value.0 == motors[i].id
            then && a.generation == NextGeneration(motors[i].generation)
                 && a.position == Reported(cfg, m).value.1 && a.position.Fin? && a.positionValid
                 && a.enabled == motors[i].enabled && a.hold == motors[i].hold
                 && a.ch == motors[i].ch && a.id == motors[i].id
            else a == motors[i]
  {
    if Reported(cfg, m).Some? {
      var id := Reported(cfg, m).value.0;
      var k := IndexOf(motors, ch, id);
      if k < |motors| && k != i {
        if k < i { assert Before(motors[k], motors[i]); } else { assert Before(motors[i], motors[k]); }
      }
    }
  }

  /** A motor's feedback frame, on its own channel, fills its record with the decoded codes and status. */
  lemma FeedbackApplied(cfg: Config, motors: seq<Motor>, i: nat, mode: Byte, fault: Byte, dest: Byte,
                        pos: Code, vel: Code, tor: Code, temp: Code)
    requires i < |motors| && Sorted(motors) && mode < 4 && fault < 0x40
    ensures var m := motors[i];
            Apply(cfg, motors, m.ch, FeedbackFrame(mode, fault, m.id, dest, pos, vel, tor, temp)) ==
            motors[i := Motor(m.ch, m.id, m.enabled, true, Fin(UintToFloat(cfg.rnd, pos, POSITION)),
                              UintToFloat(cfg.rnd, vel, VELOCITY), UintToFloat(cfg.rnd, tor, TORQUE),
                              cfg.rnd(Times(temp as real, TENTH)), m.hold, mode, fault,
                              (m.generation + 1) % 0x1_0000_0000_0000_0000)]
  {
    var m := motors[i];
    var frame := FeedbackFrame(mode, fault, m.id, dest, pos, vel, tor, temp);
    FeedbackRoundTrip(cfg.rnd, mode, fault, m.id, dest, pos, vel, tor, temp, m.id);
    ExtIdStatus(COMM_FEEDBACK, mode, fault, m.id, dest);
    hide ParseFeedback, FeedbackFrame, UintToFloat, CommType, SourceId, DestId;
    FeedbackReports(cfg, mode, fault, m.id, dest, pos, vel, tor, temp);
    OwnIndex(motors, i);
  }

  lemma FeedbackReports(cfg: Config, mode: Byte, fault: Byte, id: Byte, dest: Byte, pos: Code, vel: Code, tor: Code, temp: Code)
    requires mode < 4 && fault < 0x40
    ensures var m := FeedbackFrame(mode, fault, id, dest, pos, vel, tor, temp);
            Reported(cfg, m) == Some((id, Fin(UintToFloat(cfg.rnd, pos, POSITION)))) && CommType(m.id) == COMM_FEEDBACK
  {
    ExtIdStatus(COMM_FEEDBACK, mode, fault, id, dest);
    JoinSplit(pos);
  }

  lemma OwnIndex(motors: seq<Motor>, i: nat)
    requires i < |motors| && Sorted(motors)
    ensures IndexOf(motors, motors[i].ch, motors[i].id) == i
  {
    var k := IndexOf(motors, motors[i].ch, motors[i].id);
    assert k <= i && (k == i || Before(motors[k], motors[i]));
  }

  lemma MechPosReports(cfg: Config, m: CanMsg, id: Byte, b0: Byte, b1: Byte, b2: Byte, b3: Byte)
    requires Float32(b0, b1, b2, b3).Fin? && m.extended && m.len == 8 && m.data == [0x19, 0x70, 0, 0, b0, b1, b2, b3]
    requires CommType(m.id) == 0x11 && SourceId(m.id) == id && DestId(m.id) == cfg.host
    ensures Reported(cfg, m) == Some((id, Float32(b0, b1, b2, b3)))
  {
    hide Float32, CommType, SourceId, DestId;
  }

  lemma MechPosFrame(cfg: Config, id: Byte, b0: Byte, b1: Byte, b2: Byte, b3: Byte)
    requires Float32(b0, b1, b2, b3).Fin?
    ensures var m := CanMsg(true, BuildExtId(0x11, id, cfg.host), 8, [0x19, 0x70, 0, 0, b0, b1, b2, b3]);
            Reported(cfg, m) == Some((id, Float32(b0, b1, b2, b3))) && CommType(m.id) == 0x11
  {
    hide Reported, Float32;
    ExtIdFields(0x11, id, cfg.host);
    Divided(id);
    hide BuildExtId, CommType, SourceId, DestId;
    MechPosReports(cfg, CanMsg(true, BuildExtId(0x11, id, cfg.host), 8, [0x19, 0x70, 0, 0, b0, b1, b2, b3]), id, b0, b1, b2, b3);
  }

  /** Its reply to a position request, if finite, sets its position and nothing else. */
  lemma MechPosApplied(cfg: Config, motors: seq<Motor>, i: nat, b0: Byte, b1: Byte, b2: Byte, b3: Byte)
    requires i < |motors| && Sorted(motors) && Float32(b0, b1, b2, b3).Fin?
    ensures var m := motors[i];
            Apply(cfg, motors, m.ch, CanMsg(true, BuildExtId(0x11, m.id, cfg.host), 8, [0x19, 0x70, 0, 0, b0, b1, b2, b3])) ==
            motors[i := m.(positionValid := true, position := Float32(b0, b1, b2, b3),
                           generation := (m.generation + 1) % 0x1_0000_0000_0000_0000)]
  {
    MechPosFrame(cfg, motors[i].id, b0, b1, b2, b3);
    OwnIndex(motors, i);
    hide Reported, Float32, BuildExtId, CommType, IndexOf, Sorted;
  }

  // ----- what ties the motors to the log -----

  /**
   What the program knows of a motor. Until the exit begins (`strict`) its `enabled` flag is exact: the
   motor is armed and no hold frame since its last accepted ENABLE was refused.
   */
  ghost predicate MotorSafe(cfg: Config, m: Motor, log: seq<Event>, strict: bool) {
    && m.position.Fin?
    && (m.enabled ==> Armed(log, m.ch, m.id) && HoldTarget(cfg, log, m.ch, m.id, m.hold))
    && (strict ==> (m.enabled <==> Armed(log, m.ch, m.id) && !Dropped(log, m.ch, m.id)))
  }

  predicate Running(motors: seq<Motor>, ch: nat, id: Byte) {
    exists i | 0 <= i < |motors| :: motors[i].enabled && motors[i].ch == ch && motors[i].id == id
  }

  predicate Listed(motors: seq<Motor>, ch: nat, id: Byte) {
    exists i | 0 <= i < |motors| :: motors[i].ch == ch && motors[i].id == id
  }

  /** An ENABLE attempt with no later STOP attempt means the program still has the motor on. */
  ghost predicate NoneForgotten(motors: seq<Motor>, log: seq<Event>) {
    forall ch: nat, id: Byte :: Pending(log, ch, id) ==> Running(motors, ch, id)
  }

  /** Only motors of the list were ever enabled. */
  ghost predicate NoStranger(motors: seq<Motor>, log: seq<Event>) {
    forall ch: nat, id: Byte :: Armed(log, ch, id) ==> Listed(motors, ch, id)
  }

  ghost predicate Safe(cfg: Config, motors: seq<Motor>, log: seq<Event>, strict: bool) {
    && Sorted(motors)
    && Disciplined(cfg, log)
    && (forall i | 0 <= i < |motors| :: MotorSafe(cfg, motors[i], log, strict))
    && NoneForgotten(motors, log)
    && NoStranger(motors, log)
  }

  /** Once the exit begins, flags go down whether or not the STOP was accepted. */
  lemma Relax(cfg: Config, motors: seq<Motor>, log: seq<Event>, strict: bool)
    requires Safe(cfg, motors, log, strict)
    ensures Safe(cfg, motors, log, false)
  {
    forall i | 0 <= i < |motors| ensures MotorSafe(cfg, motors[i], log, false) {
      assert MotorSafe(cfg, motors[i], log, strict);
    }
  }

  /** An accepted STOP, or a refused hold frame. */
  predicate Ends(e: Event)
    requires e.Tx?
  {
    (e.cmd == Stop && e.ok) || (e.cmd.Mit? && !e.ok)
  }

  /** e ends nothing for a motor that the program has on. */
  predicate Harmless(motors: seq<Motor>, e: Event) {
    e.Tx? ==> (e.cmd != Enable && (Ends(e) ==> !Running(motors, e.ch, e.id)))
  }

  /** The same for one motor. */
  predicate HarmlessTo(m: Motor, e: Event) {
    e.Tx? ==> (e.cmd != Enable && (Ends(e) ==> !m.enabled || e.ch != m.ch || e.id != m.id))
  }

  lemma HarmlessKeepsMotor(cfg: Config, m: Motor, log: seq<Event>, e: Event, strict: bool)
    requires MotorSafe(cfg, m, log, strict) && HarmlessTo(m, e)
    ensures MotorSafe(cfg, m, log + [e], strict)
  {
    PowerKept(cfg, m, log, e);
    if !RefusedMit(e, m.ch, m.id) { DroppedKept(log, e, m.ch, m.id); } else { Snoc(log, e); }
  }

  /** Without an ENABLE, a motor's power state and target change only at an accepted STOP to it. */
  lemma PowerKept(cfg: Config, m: Motor, log: seq<Event>, e: Event)
    requires !Attempts(e, m.ch, m.id, Enable)
    ensures var stopped := e == Tx(m.ch, m.id, Stop, true);
            && Armed(log + [e], m.ch, m.id) == (Armed(log, m.ch, m.id) && !stopped)
            && (!stopped && HoldTarget(cfg, log, m.ch, m.id, m.hold) ==> HoldTarget(cfg, log + [e], m.ch, m.id, m.hold))
  {
    if e == Tx(m.ch, m.id, Stop, true) {
      Stopped(log, m.ch, m.id);
    } else if PowerEvent(e, m.ch, m.id) {
      Refused(cfg, log, m.ch, m.id);
    } else {
      Unaffected(cfg, log, e, m.ch, m.id);
    }
  }

  lemma NoNewPending(log: seq<Event>, e: Event, ch: nat, id: Byte)
    requires Pending(log + [e], ch, id) && !Attempts(e, ch, id, Enable)
    ensures Pending(log, ch, id) && !Attempts(e, ch, id, Stop)
  {
    Snoc(log, e);
  }

  lemma NoNewArmed(motors: seq<Motor>, log: seq<Event>, e: Event)
    requires NoStranger(motors, log) && (e.Tx? && e.cmd == Enable && e.ok ==> Listed(motors, e.ch, e.id))
    ensures NoStranger(motors, log + [e])
  {
    forall ch: nat, id: Byte | Armed(log + [e], ch, id) ensures Listed(motors, ch, id) {
      Snoc(log, e);
    }
  }

  lemma ListedKept(motors: seq<Motor>, after: seq<Motor>, log: seq<Event>)
    requires NoStranger(motors, log) && |after| == |motors|
    requires forall i | 0 <= i < |motors| :: after[i].ch == motors[i].ch && after[i].id == motors[i].id
    ensures NoStranger(after, log)
  {
    forall ch: nat, id: Byte | Armed(log, ch, id) ensures Listed(after, ch, id) {
      var i :| 0 <= i < |motors| && motors[i].ch == ch && motors[i].id == id;
      assert after[i].ch == ch && after[i].id == id;
    }
  }

  lemma HarmlessKeepsSafe(cfg: Config, motors: seq<Motor>, log: seq<Event>, e: Event, strict: bool)
    requires Safe(cfg, motors, log, strict) && Permitted(cfg, log, e) && Harmless(motors, e)
    ensures Safe(cfg, motors, log + [e], strict)
  {
    DisciplinedSnoc(cfg, log, e);
    NoNewArmed(motors, log, e);
    hide MotorSafe, Permitted, Disciplined, NoStranger;
    forall i | 0 <= i < |motors| ensures MotorSafe(cfg, motors[i], log + [e], strict) {
      HarmlessKeepsMotor(cfg, motors[i], log, e, strict);
    }
    forall ch: nat, id: Byte | Pending(log + [e], ch, id) ensures Running(motors, ch, id) {
      NoNewPending(log, e, ch, id);
    }
  }

  /** The motors' measured fields may change freely as long as positions stay finite. */
  predicate SameControl(m: Motor, n: Motor) {
    m.ch == n.ch && m.id == n.id && m.enabled == n.enabled && (m.enabled ==> m.hold == n.hold)
  }

  lemma MeasuringKeepsSafe(cfg: Config, motors: seq<Motor>, after: seq<Motor>, log: seq<Event>, strict: bool)
    requires Safe(cfg, motors, log, strict) && |after| == |motors|
    requires forall i | 0 <= i < |motors| :: SameControl(motors[i], after[i]) && after[i].position.Fin?
    ensures Safe(cfg, after, log, strict)
  {
    StillSorted(motors, after);
    ListedKept(motors, after, log);
    forall i | 0 <= i < |after| ensures MotorSafe(cfg, after[i], log, strict) {
      assert MotorSafe(cfg, motors[i], log, strict);
    }
    forall ch: nat, id: Byte | Pending(log, ch, id) ensures Running(after, ch, id) {
      var i :| 0 <= i < |motors| && motors[i].enabled && motors[i].ch == ch && motors[i].id == id;
      assert after[i].enabled && after[i].ch == ch && after[i].id == id;
    }
  }

  lemma ApplyKeepsSafe(cfg: Config, motors: seq<Motor>, log: seq<Event>, ch: nat, m: CanMsg, strict: bool)
    requires Safe(cfg, motors, log, strict)
    ensures Safe(cfg, Apply(cfg, motors, ch, m), log + [Rx(ch, m)], strict)
  {
    HarmlessKeepsSafe(cfg, motors, log, Rx(ch, m), strict);
    var after := Apply(cfg, motors, ch, m);
    forall i | 0 <= i < |motors| ensures SameControl(motors[i], after[i]) && after[i].position.Fin? {
      assert MotorSafe(cfg, motors[i], log, strict);
      ApplyIsolated(cfg, motors, ch, m, i);
    }
    MeasuringKeepsSafe(cfg, motors, after, log + [Rx(ch, m)], strict);
  }

  function SwitchedOff(motors: seq<Motor>, t: nat): seq<Motor>
    requires t < |motors|
  {
    motors[t := motors[t].(enabled := false)]
  }

  lemma DistinctKeys(motors: seq<Motor>, i: nat, j: nat)
    requires Sorted(motors) && i < |motors| && j < |motors| && i != j
    ensures motors[i].ch != motors[j].ch || motors[i].id != motors[j].id
  {
    if i < j { assert Before(motors[i], motors[j]); } else { assert Before(motors[j], motors[i]); }
  }

  lemma StillSorted(motors: seq<Motor>, after: seq<Motor>)
    requires Sorted(motors) && |after| == |motors|
    requires forall i | 0 <= i < |motors| :: after[i].ch == motors[i].ch && after[i].id == motors[i].id
    ensures Sorted(after)
  {
    forall i, j | 0 <= i < j < |after| ensures Before(after[i], after[j]) {
      assert Before(motors[i], motors[j]);
    }
  }

  /** A STOP attempt after which the program considers the motor off. Before the exit it is accepted. */
  lemma StopAndForget(cfg: Config, motors: seq<Motor>, log: seq<Event>, t: nat, ok: bool, strict: bool)
    requires Safe(cfg, motors, log, strict) && t < |motors| && (strict ==> ok)
    ensures Safe(cfg, SwitchedOff(motors, t), log + [Tx(motors[t].ch, motors[t].id, Stop, ok)], strict)
  {
    var e := Tx(motors[t].ch, motors[t].id, Stop, ok);
    var off := SwitchedOff(motors, t);
    DisciplinedSnoc(cfg, log, e);
    StillSorted(motors, off);
    NoNewArmed(motors, log, e);
    ListedKept(motors, off, log + [e]);
    hide Disciplined, NoStranger, Permitted, Sorted;
    forall i | 0 <= i < |off| ensures MotorSafe(cfg, off[i], log + [e], strict) {
      if i == t { PowerKept(cfg, motors[t], log, e); } else { StopSparesOthers(cfg, motors, log, t, i, ok, strict); }
    }
    OffNotForgotten(motors, log, t, ok);
  }

  lemma StopSparesOthers(cfg: Config, motors: seq<Motor>, log: seq<Event>, t: nat, i: nat, ok: bool, strict: bool)
    requires Sorted(motors) && t < |motors| && i < |motors| && i != t && MotorSafe(cfg, motors[i], log, strict)
    ensures MotorSafe(cfg, motors[i], log + [Tx(motors[t].ch, motors[t].id, Stop, ok)], strict)
  {
    DistinctKeys(motors, i, t);
    HarmlessKeepsMotor(cfg, motors[i], log, Tx(motors[t].ch, motors[t].id, Stop, ok), strict);
  }

  lemma OffNotForgotten(motors: seq<Motor>, log: seq<Event>, t: nat, ok: bool)
    requires t < |motors| && NoneForgotten(motors, log)
    ensures NoneForgotten(SwitchedOff(motors, t), log + [Tx(motors[t].ch, motors[t].id, Stop, ok)])
  {
    var e, off := Tx(motors[t].ch, motors[t].id, Stop, ok), SwitchedOff(motors, t);
    forall ch: nat, id: Byte | Pending(log + [e], ch, id) ensures Running(off, ch, id) {
      NoNewPending(log, e, ch, id);
      var i :| 0 <= i < |motors| && motors[i].enabled && motors[i].ch == ch && motors[i].id == id;
      assert i != t;
      assert off[i].enabled && off[i].ch == ch && off[i].id == id;
    }
  }

  /** A refused hold frame and the STOP attempt after it: the motor is off, and dropped if still armed. */
  lemma DropKeepsSafe(cfg: Config, motors: seq<Motor>, log: seq<Event>, t: nat, cmd: Command, ok: bool, strict: bool)
    requires Safe(cfg, motors, log, strict) && t < |motors| && cmd.Mit?
    requires Permitted(cfg, log, Tx(motors[t].ch, motors[t].id, cmd, false))
    ensures Safe(cfg, SwitchedOff(motors, t),
                 log + [Tx(motors[t].ch, motors[t].id, cmd, false)] + [Tx(motors[t].ch, motors[t].id, Stop, ok)], strict)
  {
    var e, off := Tx(motors[t].ch, motors[t].id, cmd, false), SwitchedOff(motors, t);
    var f, l := Tx(motors[t].ch, motors[t].id, Stop, ok), log + [e];
    DisciplinedSnoc(cfg, log, e);
    DisciplinedSnoc(cfg, l, f);
    StillSorted(motors, off);
    NoNewArmed(motors, log, e);
    NoNewArmed(motors, l, f);
    ListedKept(motors, off, l + [f]);
    hide Disciplined, NoStranger, Permitted, Sorted;
    forall i | 0 <= i < |off| ensures MotorSafe(cfg, off[i], l + [f], strict) {
      if i == t {
        DropKeepsMotor(cfg, motors[t], log, cmd, ok, strict);
      } else {
        DropSparesOthers(cfg, motors, log, t, i, cmd, ok, strict);
      }
    }
    StillWaiting(motors, log, e);
    OffNotForgotten(motors, l, t, ok);
  }

  lemma StillWaiting(motors: seq<Motor>, log: seq<Event>, e: Event)
    requires NoneForgotten(motors, log) && (e.Tx? ==> e.cmd != Enable)
    ensures NoneForgotten(motors, log + [e])
  {
    forall ch: nat, id: Byte | Pending(log + [e], ch, id) ensures Running(motors, ch, id) {
      NoNewPending(log, e, ch, id);
    }
  }

  lemma DropKeepsMotor(cfg: Config, m: Motor, log: seq<Event>, cmd: Command, ok: bool, strict: bool)
    requires MotorSafe(cfg, m, log, strict) && cmd.Mit?
    ensures MotorSafe(cfg, m.(enabled := false),
                      log + [Tx(m.ch, m.id, cmd, false)] + [Tx(m.ch, m.id, Stop, ok)], strict)
  {
    var e, f := Tx(m.ch, m.id, cmd, false), Tx(m.ch, m.id, Stop, ok);
    Snoc(log, e);
    DroppedKept(log + [e], f, m.ch, m.id);
  }

  lemma DropSparesOthers(cfg: Config, motors: seq<Motor>, log: seq<Event>, t: nat, i: nat, cmd: Command, ok: bool, strict: bool)
    requires Sorted(motors) && t < |motors| && i < |motors| && i != t && MotorSafe(cfg, motors[i], log, strict) && cmd.Mit?
    ensures MotorSafe(cfg, motors[i],
                      log + [Tx(motors[t].ch, motors[t].id, cmd, false)] + [Tx(motors[t].ch, motors[t].id, Stop, ok)], strict)
  {
    DistinctKeys(motors, i, t);
    HarmlessKeepsMotor(cfg, motors[i], log, Tx(motors[t].ch, motors[t].id, cmd, false), strict);
    StopSparesOthers(cfg, motors, log + [Tx(motors[t].ch, motors[t].id, cmd, false)], t, i, ok, strict);
  }

  /** An accepted ENABLE; the motor holds the target its priming frame carried. */
  lemma EnableAndRemember(cfg: Config, motors: seq<Motor>, log: seq<Event>, t: nat, strict: bool)
    requires Safe(cfg, motors, log, strict) && t < |motors|
    requires HoldTarget(cfg, log, motors[t].ch, motors[t].id, motors[t].hold)
    requires Permitted(cfg, log, Tx(motors[t].ch, motors[t].id, Enable, true))
    ensures Safe(cfg, motors[t := motors[t].(enabled := true)], log + [Tx(motors[t].ch, motors[t].id, Enable, true)], strict)
  {
    var e := Tx(motors[t].ch, motors[t].id, Enable, true);
    var on := motors[t := motors[t].(enabled := true)];
    DisciplinedSnoc(cfg, log, e);
    StillSorted(motors, on);
    assert Listed(motors, e.ch, e.id);
    NoNewArmed(motors, log, e);
    ListedKept(motors, on, log + [e]);
    hide Disciplined, NoStranger, Permitted, Sorted;
    forall i | 0 <= i < |on| ensures MotorSafe(cfg, on[i], log + [e], strict) {
      if i == t {
        EnabledTarget(cfg, log, motors[t]);
      } else {
        EnableSparesOthers(cfg, motors, log, t, i, true, strict);
      }
    }
    EnableRemembered(motors, log, t);
  }

  lemma EnableSparesOthers(cfg: Config, motors: seq<Motor>, log: seq<Event>, t: nat, i: nat, ok: bool, strict: bool)
    requires Sorted(motors) && t < |motors| && i < |motors| && i != t && MotorSafe(cfg, motors[i], log, strict)
    ensures MotorSafe(cfg, motors[i], log + [Tx(motors[t].ch, motors[t].id, Enable, ok)], strict)
  {
    DistinctKeys(motors, i, t);
    var e := Tx(motors[t].ch, motors[t].id, Enable, ok);
    Unaffected(cfg, log, e, motors[i].ch, motors[i].id);
    DroppedKept(log, e, motors[i].ch, motors[i].id);
  }

  lemma EnableRemembered(motors: seq<Motor>, log: seq<Event>, t: nat)
    requires t < |motors| && NoneForgotten(motors, log)
    ensures NoneForgotten(motors[t := motors[t].(enabled := true)], log + [Tx(motors[t].ch, motors[t].id, Enable, true)])
  {
    var e := Tx(motors[t].ch, motors[t].id, Enable, true);
    var on := motors[t := motors[t].(enabled := true)];
    forall ch: nat, id: Byte | Pending(log + [e], ch, id) ensures Running(on, ch, id) {
      if Attempts(e, ch, id, Enable) {
        assert on[t].enabled;
      } else {
        NoNewPending(log, e, ch, id);
        var i :| 0 <= i < |motors| && motors[i].enabled && motors[i].ch == ch && motors[i].id == id;
        assert on[i].enabled && on[i].ch == ch && on[i].id == id;
      }
    }
  }

  lemma EnabledTarget(cfg: Config, log: seq<Event>, m: Motor)
    requires HoldTarget(cfg, log, m.ch, m.id, m.hold)
    ensures var l := log + [Tx(m.ch, m.id, Enable, true)];
            Armed(l, m.ch, m.id) && !Dropped(l, m.ch, m.id) && HoldTarget(cfg, l, m.ch, m.id, m.hold)
  {
    var e := Tx(m.ch, m.id, Enable, true);
    Snoc(log, e);
    assert LastStop(log + [e], m.ch, m.id) == LastStop(log, m.ch, m.id);
    assert (log + [e])[LastStop(log, m.ch, m.id) - 1] == log[LastStop(log, m.ch, m.id) - 1];
  }

  /** A refused ENABLE is followed at once by a STOP attempt. */
  lemma EnableRefused(cfg: Config, motors: seq<Motor>, log: seq<Event>, t: nat, ok: bool, strict: bool)
    requires Safe(cfg, motors, log, strict) && t < |motors| && !motors[t].enabled
    requires Permitted(cfg, log, Tx(motors[t].ch, motors[t].id, Enable, false))
    ensures Safe(cfg, motors,
                 log + [Tx(motors[t].ch, motors[t].id, Enable, false)] + [Tx(motors[t].ch, motors[t].id, Stop, ok)], strict)
  {
    var e, f := Tx(motors[t].ch, motors[t].id, Enable, false), Tx(motors[t].ch, motors[t].id, Stop, ok);
    var l := log + [e];
    DisciplinedSnoc(cfg, log, e);
    DisciplinedSnoc(cfg, l, f);
    NoNewArmed(motors, log, e);
    NoNewArmed(motors, l, f);
    hide Disciplined, NoStranger, Permitted, Sorted;
    forall i | 0 <= i < |motors| ensures MotorSafe(cfg, motors[i], l + [f], strict) {
      if i == t {
        RefusedEnableKeeps(cfg, motors[t], log, ok, strict);
      } else {
        EnableSparesOthers(cfg, motors, log, t, i, false, strict);
        StopSparesOthers(cfg, motors, l, t, i, ok, strict);
      }
    }
    forall ch: nat, id: Byte | Pending(l + [f], ch, id) ensures Running(motors, ch, id) {
      NoNewPending(l, f, ch, id);
      NoNewPending(log, e, ch, id);
    }
  }

  lemma RefusedEnableKeeps(cfg: Config, m: Motor, log: seq<Event>, ok: bool, strict: bool)
    requires MotorSafe(cfg, m, log, strict) && !m.enabled
    ensures MotorSafe(cfg, m, log + [Tx(m.ch, m.id, Enable, false)] + [Tx(m.ch, m.id, Stop, ok)], strict)
  {
    var e, f := Tx(m.ch, m.id, Enable, false), Tx(m.ch, m.id, Stop, ok);
    Snoc(log, e);
    Snoc(log + [e], f);
  }
}
