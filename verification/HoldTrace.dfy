/**
 The bus history of position_read (apps/position_read.cpp) and the rules its transmissions keep.
 A log lists every frame transmitted, accepted or refused by the driver, and every frame received.
 */
module HoldTrace {
  import opened Util
  import opened Codec
  import opened Wire

  datatype Event =
    | Tx(ch: nat, id: Byte, cmd: Command, ok: bool)
    | Rx(ch: nat, msg: CanMsg)

  /** --host-id, --kp and --kd; parse_float only lets gains of the MIT ranges through. */
  datatype Config = Config(rnd: Rounding, host: Byte, kp: real, kd: real)

  // ----- power state of a motor, read off the log -----

  /** The last accepted ENABLE or STOP to the motor is an ENABLE. */
  predicate Armed(log: seq<Event>, ch: nat, id: Byte) {
    if log == [] then false
    else
      var n := |log| - 1;
      if log[n] == Tx(ch, id, Enable, true) then true
      else if log[n] == Tx(ch, id, Stop, true) then false
      else Armed(log[..n], ch, id)
  }

  predicate Attempts(e: Event, ch: nat, id: Byte, cmd: Command) {
    e.Tx? && e.ch == ch && e.id == id && e.cmd == cmd
  }

  /** The last attempted ENABLE or STOP to the motor, accepted or not, is an ENABLE. */
  predicate Pending(log: seq<Event>, ch: nat, id: Byte) {
    if log == [] then false
    else
      var n := |log| - 1;
      if Attempts(log[n], ch, id, Enable) then true
      else if Attempts(log[n], ch, id, Stop) then false
      else Pending(log[..n], ch, id)
  }

  /** A MIT frame to the motor that the driver refused. */
  predicate RefusedMit(e: Event, ch: nat, id: Byte) {
    e.Tx? && e.ch == ch && e.id == id && e.cmd.Mit? && !e.ok
  }

  /** Since the last accepted ENABLE to the motor, a MIT frame to it was refused. */
  predicate Dropped(log: seq<Event>, ch: nat, id: Byte) {
    if log == [] then false
    else
      var n := |log| - 1;
      if log[n] == Tx(ch, id, Enable, true) then false
      else if RefusedMit(log[n], ch, id) then true
      else Dropped(log[..n], ch, id)
  }

  /** Position of the last accepted STOP to the motor, -1 if there is none. */
  function LastStop(log: seq<Event>, ch: nat, id: Byte): (s: int)
    ensures -1 <= s < |log|
    ensures s >= 0 ==> log[s] == Tx(ch, id, Stop, true)
    ensures forall p | s < p < |log| :: log[p] != Tx(ch, id, Stop, true)
  {
    if log == [] then -1
    else
      var n := |log| - 1;
      if log[n] == Tx(ch, id, Stop, true) then n else LastStop(log[..n], ch, id)
  }

  lemma {:induction false} ArmedMeaning(log: seq<Event>, ch: nat, id: Byte)
    ensures Armed(log, ch, id) <==>
            exists p | 0 <= p < |log| :: log[p] == Tx(ch, id, Enable, true)
              && forall q | p < q < |log| :: log[q] != Tx(ch, id, Stop, true)
  {
    if log != [] {
      var n := |log| - 1;
      ArmedMeaning(log[..n], ch, id);
      if log[n] == Tx(ch, id, Enable, true) {
      } else if log[n] != Tx(ch, id, Stop, true) && Armed(log[..n], ch, id) {
        var p :| 0 <= p < n && log[..n][p] == Tx(ch, id, Enable, true)
                 && forall q | p < q < n :: log[..n][q] != Tx(ch, id, Stop, true);
        assert log[p] == Tx(ch, id, Enable, true);
        forall q | p < q < |log| ensures log[q] != Tx(ch, id, Stop, true) {
          if q < n { assert log[..n][q] == log[q]; }
        }
      } else if log[n] != Tx(ch, id, Stop, true) {
        forall p | 0 <= p < n && log[p] == Tx(ch, id, Enable, true)
          ensures exists q | p < q < |log| :: log[q] == Tx(ch, id, Stop, true)
        {
          assert log[..n][p] == log[p];
          var q :| p < q < n && log[..n][q] == Tx(ch, id, Stop, true);
          assert log[q] == Tx(ch, id, Stop, true);
        }
      }
    }
  }

  lemma {:induction false} DroppedMeaning(log: seq<Event>, ch: nat, id: Byte)
    ensures Dropped(log, ch, id) <==>
            exists p | 0 <= p < |log| :: RefusedMit(log[p], ch, id)
              && forall q | p < q < |log| :: log[q] != Tx(ch, id, Enable, true)
  {
    if log != [] {
      var n := |log| - 1;
      DroppedMeaning(log[..n], ch, id);
      if log[n] == Tx(ch, id, Enable, true) || RefusedMit(log[n], ch, id) {
      } else if Dropped(log[..n], ch, id) {
        var p :| 0 <= p < n && RefusedMit(log[..n][p], ch, id)
                 && forall q | p < q < n :: log[..n][q] != Tx(ch, id, Enable, true);
        assert RefusedMit(log[p], ch, id);
        forall q | p < q < |log| ensures log[q] != Tx(ch, id, Enable, true) {
          if q < n { assert log[..n][q] == log[q]; }
        }
      } else {
        forall p | 0 <= p < n && RefusedMit(log[p], ch, id)
          ensures exists q | p < q < |log| :: log[q] == Tx(ch, id, Enable, true)
        {
          assert log[..n][p] == log[p];
          var q :| p < q < n && log[..n][q] == Tx(ch, id, Enable, true);
          assert log[q] == Tx(ch, id, Enable, true);
        }
      }
    }
  }

  /** p is an accepted ENABLE, the last one, after which no STOP was accepted; q is a MIT frame refused since. */
  predicate StrandedBy(log: seq<Event>, ch: nat, id: Byte, p: nat, q: nat) {
    && p < q < |log| && log[p] == Tx(ch, id, Enable, true) && RefusedMit(log[q], ch, id)
    && forall k | p < k < |log| :: log[k] != Tx(ch, id, Enable, true) && log[k] != Tx(ch, id, Stop, true)
  }

  /** Armed and dropped: after the last accepted ENABLE a MIT frame was refused and no STOP accepted. */
  lemma StrandedMeaning(log: seq<Event>, ch: nat, id: Byte)
    ensures Armed(log, ch, id) && Dropped(log, ch, id) <==> exists p: nat, q: nat :: StrandedBy(log, ch, id, p, q)
  {
    ArmedMeaning(log, ch, id);
    DroppedMeaning(log, ch, id);
    if Armed(log, ch, id) && Dropped(log, ch, id) {
      var a :| 0 <= a < |log| && log[a] == Tx(ch, id, Enable, true)
               && forall k | a < k < |log| :: log[k] != Tx(ch, id, Stop, true);
      var q :| 0 <= q < |log| && RefusedMit(log[q], ch, id)
               && forall k | q < k < |log| :: log[k] != Tx(ch, id, Enable, true);
      var p := LastEnable(log, ch, id, a);
      assert p < q;
      assert StrandedBy(log, ch, id, p, q);
    }
    if p: nat, q: nat :| StrandedBy(log, ch, id, p, q) {
      assert RefusedMit(log[q], ch, id);
    }
  }

  lemma {:induction false} LastEnable(log: seq<Event>, ch: nat, id: Byte, a: nat) returns (p: nat)
    requires a < |log| && log[a] == Tx(ch, id, Enable, true)
    ensures a <= p < |log| && log[p] == Tx(ch, id, Enable, true)
    ensures forall k | p < k < |log| :: log[k] != Tx(ch, id, Enable, true)
    decreases |log| - a
  {
    if k :| a < k < |log| && log[k] == Tx(ch, id, Enable, true) {
      p := LastEnable(log, ch, id, k);
    } else {
      p := a;
    }
  }

  /** Not pending: every ENABLE attempt is followed by a STOP attempt. */
  lemma {:induction false} NotPendingMeaning(log: seq<Event>, ch: nat, id: Byte, p: nat) returns (q: nat)
    requires !Pending(log, ch, id) && p < |log| && Attempts(log[p], ch, id, Enable)
    ensures p < q < |log| && Attempts(log[q], ch, id, Stop)
  {
    var n := |log| - 1;
    if Attempts(log[n], ch, id, Stop) {
      q := n;
    } else {
      q := NotPendingMeaning(log[..n], ch, id, p);
    }
  }

  // ----- hold targets -----

  /** The motor and position a received frame reports, if it reports one. */
  function Reported(cfg: Config, m: CanMsg): Option<(Byte, Float)> {
    if !m.extended then None
    else if CommType(m.id) == COMM_FEEDBACK then
      Some((SourceId(m.id), Fin(UintToFloat(cfg.rnd, Join(m.data[0], m.data[1]), POSITION))))
    else ParseMechPos(cfg.host, m)
  }

  predicate Reports(cfg: Config, e: Event, ch: nat, id: Byte, q: Float) {
    e.Rx? && e.ch == ch && Reported(cfg, e.msg) == Some((id, q))
  }

  predicate InMitRange(q: Float) { q.Fin? && POSITION.lo <= q.r <= POSITION.hi }

  /** The range in numbers: the binary32 neighbour of 12.57 either way, ends included. */
  lemma MitRangeNumbers(q: Float)
    ensures InMitRange(q) <==> q.Fin? && -13180600.0 <= q.r * 1048576.0 <= 13180600.0
  {
  }

  /** q is what the motor itself reported in the frame received just before its last accepted STOP. */
  predicate HoldTarget(cfg: Config, log: seq<Event>, ch: nat, id: Byte, q: Float) {
    var s := LastStop(log, ch, id);
    s >= 1 && InMitRange(q) && Reports(cfg, log[s - 1], ch, id, q)
  }

  function HoldCommand(cfg: Config, q: Float): Command {
    Mit(q, Fin(0.0), Fin(cfg.kp), Fin(cfg.kd), Fin(0.0))
  }

  // ----- the rules -----

  /** May e follow log? */
  predicate Permitted(cfg: Config, log: seq<Event>, e: Event) {
    var n := |log|;
    match e
    case Rx(_, _) => true
    case Tx(ch, id, cmd, _) =>
      match cmd
      // OFF motors get no MIT frame, except the one that primes an ENABLE
      case Mit(q, _, _, _, _) =>
        && cmd == HoldCommand(cfg, q) && HoldTarget(cfg, log, ch, id, q)
        && (Armed(log, ch, id) || (n >= 1 && log[n - 1] == Tx(ch, id, SetRunMode(MODE_MIT), true)))
      // the measured position is read, the motor stopped, MIT mode set and the target primed first
      case Enable =>
        && n >= 4 && log[n - 1].Tx? && log[n - 1].cmd.Mit?
        && log[n - 1] == Tx(ch, id, HoldCommand(cfg, log[n - 1].cmd.q), true)
        && log[n - 2] == Tx(ch, id, SetRunMode(MODE_MIT), true)
        && log[n - 3] == Tx(ch, id, Stop, true)
        && Reports(cfg, log[n - 4], ch, id, log[n - 1].cmd.q)
      case SetRunMode(mode) => mode == MODE_MIT && n >= 1 && log[n - 1] == Tx(ch, id, Stop, true)
      case Stop => true
      case ReadMechPos => true
      case GetId => false
      case SetCanId(_) => false
  }

  predicate Disciplined(cfg: Config, log: seq<Event>) {
    log == [] || (Disciplined(cfg, log[..|log| - 1]) && Permitted(cfg, log[..|log| - 1], log[|log| - 1]))
  }

  lemma {:induction false} DisciplinedAt(cfg: Config, log: seq<Event>, p: nat)
    requires Disciplined(cfg, log) && p < |log|
    ensures Permitted(cfg, log[..p], log[p])
  {
    var n := |log| - 1;
    if p < n {
      DisciplinedAt(cfg, log[..n], p);
      assert log[..n][..p] == log[..p];
    }
  }

  lemma {:induction false} LastStopStable(log: seq<Event>, ch: nat, id: Byte, p: nat, q: nat)
    requires p <= q <= |log|
    requires forall k | p <= k < q :: log[k] != Tx(ch, id, Stop, true)
    ensures LastStop(log[..q], ch, id) == LastStop(log[..p], ch, id)
  {
    if p < q {
      assert log[..q][..q - 1] == log[..q - 1];
      LastStopStable(log, ch, id, p, q - 1);
    }
  }

  /**
   Hold stability over a whole run: two MIT frames to one motor with no accepted STOP between them
   carry the same target. It is finite, within the MIT range (so the codec's clamp leaves it alone),
   and was reported by that motor.
   */
  lemma HoldTargetsSteady(cfg: Config, log: seq<Event>, p: nat, q: nat)
    requires Disciplined(cfg, log) && p <= q < |log|
    requires log[p].Tx? && log[q].Tx? && log[p].cmd.Mit? && log[q].cmd.Mit?
    requires log[p].ch == log[q].ch && log[p].id == log[q].id
    requires forall k | p < k < q :: log[k] != Tx(log[p].ch, log[p].id, Stop, true)
    ensures log[p].cmd == log[q].cmd && log[q].cmd.Encodable()
    ensures InMitRange(log[q].cmd.q) && Clamp(log[q].cmd.q.r, POSITION) == log[q].cmd.q.r
    ensures exists r | 0 <= r < p :: Reports(cfg, log[r], log[p].ch, log[p].id, log[q].cmd.q)
  {
    DisciplinedAt(cfg, log, p);
    DisciplinedAt(cfg, log, q);
    var ch, id := log[p].ch, log[p].id;
    LastStopStable(log, ch, id, p, q);
    var s := LastStop(log[..p], ch, id);
    assert log[..p][s - 1] == log[s - 1] == log[..q][s - 1];
    assert Reports(cfg, log[s - 1], ch, id, log[q].cmd.q);
  }

  // ----- what the motor makes of a hold frame -----

  /** e tells motor id of the channel to hold q with the configured gains, at no speed and no torque: what it
      decodes is within one quantum of that in exact arithmetic, within two under the rounding. */
  ghost predicate Holds(cfg: Config, rnd: Rounding, e: Event, ch: nat, id: Byte, q: Float)
    requires Faithful(rnd) && Faithful(Exact)
  {
    && e.Tx? && e.ch == ch && e.id == id && e.cmd.Mit? && e.cmd.Encodable() && q.Fin?
    && WithinQuantum(MotorDecode(Encode(Exact, cfg.host, id, e.cmd)), id, q.r, 0.0, cfg.kp, cfg.kd, 0.0)
    && WithinTwoQuanta(MotorDecode(Encode(rnd, cfg.host, id, e.cmd)), id, q.r, 0.0, cfg.kp, cfg.kd, 0.0)
  }

  lemma HoldCommandHolds(cfg: Config, rnd: Rounding, ch: nat, id: Byte, q: Float, ok: bool)
    requires Faithful(rnd) && q.Fin?
    ensures Faithful(Exact) && Holds(cfg, rnd, Tx(ch, id, HoldCommand(cfg, q), ok), ch, id, q)
  {
    hide WithinQuantum, WithinTwoQuanta, MotorDecode, Encode, Faithful;
    MitFidelity(cfg.host, id, q.r, 0.0, cfg.kp, cfg.kd, 0.0);
    MitFidelityRounded(rnd, cfg.host, id, q.r, 0.0, cfg.kp, cfg.kd, 0.0);
  }

  /**
   Every MIT frame of a disciplined log, to any motor at any time, tells that motor to hold a position in
   the MIT range that it reported itself, in event r, with the configured stiffness and damping.
   */
  lemma MitFramesHold(cfg: Config, rnd: Rounding, log: seq<Event>, p: nat) returns (r: nat, q: Float)
    requires Disciplined(cfg, log) && p < |log| && log[p].Tx? && log[p].cmd.Mit? && Faithful(rnd)
    ensures r < p && Reports(cfg, log[r], log[p].ch, log[p].id, q) && InMitRange(q) && q == log[p].cmd.q
    ensures Faithful(Exact) && Holds(cfg, rnd, log[p], log[p].ch, log[p].id, q)
  {
    hide Holds, Faithful;
    DisciplinedAt(cfg, log, p);
    q := log[p].cmd.q;
    r := LastStop(log[..p], log[p].ch, log[p].id) - 1;
    HoldCommandHolds(cfg, rnd, log[p].ch, log[p].id, q, log[p].ok);
  }

  // ----- one more event -----

  lemma Snoc(log: seq<Event>, e: Event)
    ensures (log + [e])[..|log|] == log && (log + [e])[|log|] == e
  {
  }

  predicate PowerEvent(e: Event, ch: nat, id: Byte) {
    Attempts(e, ch, id, Enable) || Attempts(e, ch, id, Stop)
  }

  /** Anything but ENABLE and STOP leaves a motor's power state and hold target alone. */
  lemma Unaffected(cfg: Config, log: seq<Event>, e: Event, ch: nat, id: Byte)
    requires !PowerEvent(e, ch, id)
    ensures Armed(log + [e], ch, id) == Armed(log, ch, id)
    ensures Pending(log + [e], ch, id) == Pending(log, ch, id)
    ensures LastStop(log + [e], ch, id) == LastStop(log, ch, id)
    ensures forall q: Float :: HoldTarget(cfg, log, ch, id, q) <==> HoldTarget(cfg, log + [e], ch, id, q)
  {
    Snoc(log, e);
    var s := LastStop(log, ch, id);
    if s >= 1 { assert (log + [e])[s - 1] == log[s - 1]; }
  }

  /** Only an accepted ENABLE and a refused MIT frame change whether a motor was dropped. */
  lemma DroppedKept(log: seq<Event>, e: Event, ch: nat, id: Byte)
    requires e != Tx(ch, id, Enable, true) && !RefusedMit(e, ch, id)
    ensures Dropped(log + [e], ch, id) == Dropped(log, ch, id)
  {
    Snoc(log, e);
  }

  lemma Refused(cfg: Config, log: seq<Event>, ch: nat, id: Byte)
    ensures var l := log + [Tx(ch, id, Stop, false)];
            && Armed(l, ch, id) == Armed(log, ch, id) && !Pending(l, ch, id)
            && LastStop(l, ch, id) == LastStop(log, ch, id)
            && forall q: Float :: HoldTarget(cfg, log, ch, id, q) <==> HoldTarget(cfg, l, ch, id, q)
  {
    var e := Tx(ch, id, Stop, false);
    Snoc(log, e);
    var s := LastStop(log, ch, id);
    if s >= 1 { assert (log + [e])[s - 1] == log[s - 1]; }
  }

  lemma Stopped(log: seq<Event>, ch: nat, id: Byte)
    ensures var l := log + [Tx(ch, id, Stop, true)];
            !Armed(l, ch, id) && !Pending(l, ch, id) && LastStop(l, ch, id) == |log|
  {
    Snoc(log, Tx(ch, id, Stop, true));
  }

  lemma DisciplinedSnoc(cfg: Config, log: seq<Event>, e: Event)
    requires Disciplined(cfg, log) && Permitted(cfg, log, e)
    ensures Disciplined(cfg, log + [e])
  {
    Snoc(log, e);
  }
}
