/**
 The startup of apps/position_read.cpp: every channel that opens is scanned for motor IDs 0..127, and
 the devices that answer become the motors of the control loop, sorted by (channel, motor ID).
 */
module Scan {
  import opened Util
  import opened Wire
  import opened HoldTrace
  import opened Hold
  import opened HoldFrames
  import opened HoldController

  const MAX_MOTOR_ID := 127
  const BROADCAST_REPLY: Byte := 0xFE

  datatype Device = Device(ch: nat, id: Byte, uid: Bytes8)

  /** The comparator given to std::sort. */
  predicate Precedes(d: Device, e: Device) { d.ch < e.ch || (d.ch == e.ch && d.id < e.id) }

  predicate Ascending(ds: seq<Device>) {
    forall i, j | 0 <= i < j < |ds| :: Precedes(ds[i], ds[j])
  }

  /** What std::sort promises: no element precedes an earlier one. */
  predicate NoInversion(ds: seq<Device>) {
    forall i, j | 0 <= i < j < |ds| :: !Precedes(ds[j], ds[i])
  }

  lemma HeadPrecedes(ds: seq<Device>, e: Device)
    requires Ascending(ds) && e in ds
    ensures e == ds[0] || Precedes(ds[0], e)
  {
  }

  lemma NonePrecedesHead(sorted: seq<Device>, e: Device)
    requires NoInversion(sorted) && e in sorted
    ensures !Precedes(e, sorted[0])
  {
  }

  lemma TailsAgree(a: seq<Device>, b: seq<Device>)
    requires a != [] && b != [] && a[0] == b[0] && multiset(a) == multiset(b)
    ensures multiset(a[1..]) == multiset(b[1..])
  {
    assert a == [a[0]] + a[1..] && b == [b[0]] + b[1..];
    assert multiset(a[1..]) == multiset(a) - multiset{a[0]};
  }

  /** The scan meets the devices in ascending order, so whatever std::sort does returns them unchanged. */
  lemma {:induction false} SortChangesNothing(ds: seq<Device>, sorted: seq<Device>)
    requires Ascending(ds) && NoInversion(sorted) && multiset(ds) == multiset(sorted)
    ensures sorted == ds
  {
    assert |multiset(sorted)| == |multiset(ds)|;
    if ds != [] {
      assert ds[0] in multiset(sorted) && sorted[0] in multiset(ds);
      HeadPrecedes(ds, sorted[0]);
      NonePrecedesHead(sorted, ds[0]);
      TailsAgree(ds, sorted);
      SortChangesNothing(ds[1..], sorted[1..]);
      assert ds == [ds[0]] + ds[1..] && sorted == [sorted[0]] + sorted[1..];
    }
  }

  /** A GET_ID reply of motor id, addressed to 0xFE or to the host. */
  predicate Answers(host: Byte, m: CanMsg, id: Byte) {
    && m.extended && m.len == 8 && CommType(m.id) == COMM_GET_ID && SourceId(m.id) == id
    && (DestId(m.id) == BROADCAST_REPLY || DestId(m.id) == host)
  }

  /** In numbers: an extended frame of eight bytes, of kind 0, from this motor, to 0xFE or to the host. */
  lemma AnswersExactly(host: Byte, m: CanMsg, id: Byte)
    ensures Answers(host, m, id) <==>
            && m.extended && m.len == 8 && m.id / 0x100_0000 % 0x20 == 0 && m.id / 0x100 % 0x100 == id
            && (m.id % 0x100 == 0xFE || m.id % 0x100 == host)
  {
  }

  /** A device's reply answers the query for its own ID and no other, exactly when sent to 0xFE or the host. */
  lemma ReplyAnswers(host: Byte, uid: Bytes8, id: Byte, high: Byte, dest: Byte, asked: Byte)
    ensures Answers(host, IdReply(uid, id, high, dest), asked) <==> asked == id && (dest == 0xFE || dest == host)
  {
    ExtIdFields(COMM_GET_ID, Join(high, id), dest);
    Divides(high, id, 0x100, Join(high, id));
    hide BuildExtId, CommType, SourceId, DestId, Join;
  }

  /** Event k is the reply of the device with this UID, as a device sends it. */
  predicate RepliedAt(log: seq<Event>, k: nat, host: Byte, ch: nat, id: Byte, uid: Bytes8) {
    k < |log| && exists high: Byte, dest: Byte | dest == 0xFE || dest == host :: log[k] == Rx(ch, IdReply(uid, id, high, dest))
  }

  /** A query that read a device's reply reports that device. */
  lemma ReplyReported(host: Byte, log: seq<Event>, q: Query, k: nat, uid: Bytes8)
    requires QueryOk(host, log, q) && q.asked < k < q.end && RepliedAt(log, k, host, q.ch, q.id, uid)
    ensures q.device == Some(Device(q.ch, q.id, uid)) && k == q.end - 1
  {
    var high: Byte, dest: Byte :| (dest == 0xFE || dest == host) && log[k] == Rx(q.ch, IdReply(uid, q.id, high, dest));
    ReplyAnswers(host, uid, q.id, high, dest, q.id);
    hide Answers, BuildExtId;
  }

  /** Where in the log the device was asked, and where it answered with its UID. */
  predicate FoundAt(host: Byte, log: seq<Event>, d: Device, q: nat, p: nat) {
    && q < p < |log| && log[q] == Tx(d.ch, d.id, GetId, true)
    && log[p].Rx? && log[p].ch == d.ch && Answers(host, log[p].msg, d.id) && log[p].msg.data == d.uid
  }

  predicate Found(host: Byte, log: seq<Event>, d: Device) {
    exists q: nat, p: nat | q < |log| && p < |log| :: FoundAt(host, log, d, q, p)
  }

  lemma FoundLater(host: Byte, log: seq<Event>, more: seq<Event>, d: Device)
    requires Found(host, log, d) && log <= more
    ensures Found(host, more, d)
  {
    var q: nat, p: nat :| q < |log| && p < |log| && FoundAt(host, log, d, q, p);
    assert FoundAt(host, more, d, q, p);
  }

  /** All devices were found on channels below ch, or on channel ch with IDs below id. */
  predicate FoundBelow(host: Byte, log: seq<Event>, ds: seq<Device>, ch: nat, id: int) {
    && Ascending(ds)
    && forall d | d in ds :: Found(host, log, d) && d.id <= MAX_MOTOR_ID && (d.ch < ch || (d.ch == ch && d.id < id))
  }

  lemma FoundOneMore(host: Byte, log: seq<Event>, more: seq<Event>, ds: seq<Device>, ch: nat, id: Byte, d: Option<Device>)
    requires FoundBelow(host, log, ds, ch, id) && log <= more && id <= MAX_MOTOR_ID
    requires d.Some? ==> d.value.ch == ch && d.value.id == id && Found(host, more, d.value)
    ensures FoundBelow(host, more, if d.Some? then ds + [d.value] else ds, ch, id + 1)
  {
    forall e | e in ds ensures Found(host, more, e) { FoundLater(host, log, more, e); }
    if d.Some? {
      forall i, j | 0 <= i < j < |ds| + 1 ensures Precedes((ds + [d.value])[i], (ds + [d.value])[j]) {
        assert ds[i] in ds;
      }
    }
  }

  lemma FoundEarly(host: Byte, log: seq<Event>, ds: seq<Device>, ch: nat, id: int)
    requires FoundBelow(host, log, ds, ch, id) && id <= MAX_MOTOR_ID + 1
    ensures FoundBelow(host, log, ds, ch, MAX_MOTOR_ID + 1)
  {
  }

  lemma FoundNextChannel(host: Byte, log: seq<Event>, ds: seq<Device>, ch: nat, id: int)
    requires FoundBelow(host, log, ds, ch, id)
    ensures FoundBelow(host, log, ds, ch + 1, 0)
  {
  }

  /** One query_device: where its request stands in the log, where it stopped reading, what it found. */
  datatype Query = Query(ch: nat, id: Byte, asked: nat, end: nat, device: Option<Device>)

  /** The query reports a device exactly when a frame it read after its request answers: the first such
      frame ended it, and gave the UID. */
  ghost predicate QueryOk(host: Byte, log: seq<Event>, q: Query) {
    var last := q.end - if q.device.Some? then 1 else 0;
    && q.asked < last <= q.end <= |log| && log[q.asked].Tx? && log[q.asked] == Tx(q.ch, q.id, GetId, log[q.asked].ok)
    && (forall k | q.asked < k < last :: log[k].Rx? && log[k].ch == q.ch && !Answers(host, log[k].msg, q.id))
    && (q.device.Some? ==>
          && q.device.value.ch == q.ch && q.device.value.id == q.id
          && FoundAt(host, log, q.device.value, q.asked, last))
  }

  predicate AskedAt(qs: seq<Query>, p: nat) {
    exists k | 0 <= k < |qs| :: qs[k].asked == p
  }

  /** The queries are what the log says they are, and nothing else was sent. */
  ghost predicate QueriesOk(host: Byte, log: seq<Event>, qs: seq<Query>) {
    && (forall k | 0 <= k < |qs| :: QueryOk(host, log, qs[k]))
    && forall p | 0 <= p < |log| && log[p].Tx? :: AskedAt(qs, p)
  }

  function DevicesOf(qs: seq<Query>): seq<Device> {
    if qs == [] then []
    else
      var d := qs[|qs| - 1].device;
      DevicesOf(qs[..|qs| - 1]) + if d.Some? then [d.value] else []
  }

  predicate Queried(qs: seq<Query>, ch: nat, id: int) {
    exists k | 0 <= k < |qs| :: qs[k].ch == ch && qs[k].id == id
  }

  /** Every ID below n of channel ch was queried. */
  predicate QueriedBelow(qs: seq<Query>, ch: nat, n: int) {
    forall id | 0 <= id < n :: Queried(qs, ch, id)
  }

  lemma QueriesGrow(host: Byte, log: seq<Event>, more: seq<Event>, qs: seq<Query>, q: Query)
    requires QueriesOk(host, log, qs) && log <= more && QueryOk(host, more, q)
    requires forall p | |log| <= p < |more| && more[p].Tx? :: p == q.asked
    ensures QueriesOk(host, more, qs + [q])
    ensures DevicesOf(qs + [q]) == DevicesOf(qs) + if q.device.Some? then [q.device.value] else []
  {
    assert (qs + [q])[..|qs|] == qs;
    forall k | 0 <= k < |qs| + 1 ensures QueryOk(host, more, (qs + [q])[k]) {
      if k < |qs| { assert QueryOk(host, log, qs[k]); }
    }
    forall p | 0 <= p < |more| && more[p].Tx? ensures AskedAt(qs + [q], p) {
      if p < |log| {
        assert AskedAt(qs, p);
        var k :| 0 <= k < |qs| && qs[k].asked == p;
        assert (qs + [q])[k].asked == p;
      } else {
        assert (qs + [q])[|qs|].asked == p;
      }
    }
  }

  lemma QueriedMore(qs: seq<Query>, q: Query)
    ensures forall ch, id :: Queried(qs, ch, id) ==> Queried(qs + [q], ch, id)
    ensures Queried(qs + [q], q.ch, q.id)
  {
    assert (qs + [q])[|qs|] == q;
    forall ch: nat, id: int | Queried(qs, ch, id) ensures Queried(qs + [q], ch, id) {
      var k :| 0 <= k < |qs| && qs[k].ch == ch && qs[k].id == id;
      assert (qs + [q])[k] == qs[k];
    }
  }

  class Scanner {
    const host: Byte
    var open: seq<bool>
    var log: seq<Event>
    var interrupted: bool            // a signal lowered g_running
    var queries: seq<Query>          // history: the queries made so far

    constructor (host: Byte)
      ensures this.host == host && log == [] && open == [false, false, false, false] && queries == []
    {
      this.host, open, log, interrupted, queries := host, [false, false, false, false], [], false, [];
    }

    method Signal()
      modifies this`interrupted
      ensures old(interrupted) ==> interrupted
    {
      var now: bool := *;
      interrupted := interrupted || now;
    }

    method Read(ch: nat) returns (r: ReadResult)
      modifies this`log
      ensures log == old(log) + if r.Got? then [Rx(ch, r.msg)] else []
    {
      var got, broken: bool := *, *;
      if got {
        var m: CanMsg := *;
        log := log + [Rx(ch, m)];
        return Got(m);
      }
      return if broken then Broken else Nothing;
    }

    /** drain_channel: frames that were waiting are dropped, up to 256 of them. */
    method Drain(ch: nat)
      modifies this`log
      ensures old(log) <= log && |log| <= |old(log)| + 256
      ensures forall p | |old(log)| <= p < |log| :: log[p].Rx?
    {
      for count := 0 to 256
        invariant old(log) <= log && |log| <= |old(log)| + count
        invariant forall p | |old(log)| <= p < |log| :: log[p].Rx?
      {
        var r := Read(ch);
        if !r.Got? { return; }
      }
    }

    /** query_device: what was waiting before the request is not an answer. */
    method QueryDevice(ch: nat, id: Byte) returns (d: Option<Device>)
      requires QueriesOk(host, log, queries)
      modifies this`log, this`queries
      ensures old(log) <= log && QueriesOk(host, log, queries) && |queries| == |old(queries)| + 1
      ensures queries[..|old(queries)|] == old(queries)
      ensures var q := queries[|old(queries)|];
              q.ch == ch && q.id == id && q.device == d && |old(log)| <= q.asked && q.end == |log|
      ensures DevicesOf(queries) == DevicesOf(old(queries)) + if d.Some? then [d.value] else []
      ensures d.Some? ==> d.value.ch == ch && d.value.id == id && Found(host, log, d.value)
      ensures forall k, uid | queries[|old(queries)|].asked < k < |log| && RepliedAt(log, k, host, ch, id, uid) ::
                d == Some(Device(ch, id, uid))
    {
      hide QueriesOk, RepliedAt;
      var asked;
      d, asked := Ask(ch, id);
      var q := Query(ch, id, asked, |log|, d);
      QueriesGrow(host, old(log), log, queries, q);
      queries := queries + [q];
      if d.Some? { assert FoundAt(host, log, d.value, asked, |log| - 1); }
      forall k: nat, uid | q.asked < k < |log| && RepliedAt(log, k, host, ch, id, uid) ensures d == Some(Device(ch, id, uid)) {
        ReplyReported(host, log, q, k, uid);
      }
    }

    method Ask(ch: nat, id: Byte) returns (d: Option<Device>, q: nat)
      modifies this`log
      ensures |old(log)| <= q && old(log) <= log && QueryOk(host, log, Query(ch, id, q, |log|, d))
      ensures forall p | |old(log)| <= p < |log| && log[p].Tx? :: p == q
    {
      Drain(ch);
      var ok: bool := *;
      q := |log|;
      log := log + [Tx(ch, id, GetId, ok)];
      if !ok { return None, q; }
      var rounds: nat :| rounds >= 0;
      while rounds > 0
        invariant |old(log)| <= q < |log| && old(log) <= log && log[q] == Tx(ch, id, GetId, true)
        invariant forall p | |old(log)| <= p < q :: log[p].Rx?
        invariant forall k | q < k < |log| :: log[k].Rx? && log[k].ch == ch && !Answers(host, log[k].msg, id)
      {
        rounds := rounds - 1;
        var r := Read(ch);
        if r.Got? {
          if Answers(host, r.msg, id) {
            return Some(Device(ch, SourceId(r.msg.id), r.msg.data)), q;
          }
        } else if r.Broken? {
          return None, q;
        }
      }
      return None, q;
    }

    /** The queries so far explain the devices so far. */
    ghost predicate Explained(ds: seq<Device>)
      reads `log, `queries
    {
      QueriesOk(host, log, queries) && ds == DevicesOf(queries)
    }

    /** One channel of scan_channels; a signal ends it early. */
    method ScanChannel(ch: nat, before: seq<Device>) returns (ds: seq<Device>)
      requires FoundBelow(host, log, before, ch, 0) && Explained(before)
      modifies this`log, this`queries, this`interrupted
      ensures old(log) <= log && FoundBelow(host, log, ds, ch, MAX_MOTOR_ID + 1) && Explained(ds)
      ensures forall d | d in ds :: d in before || d.ch == ch
      ensures forall c, i :: Queried(old(queries), c, i) ==> Queried(queries, c, i)
      ensures (old(interrupted) ==> interrupted) && (!interrupted ==> QueriedBelow(queries, ch, MAX_MOTOR_ID + 1))
    {
      hide QueriesOk, Found, Queried, FoundBelow, DevicesOf;
      ds := before;
      var id := 0;
      Signal();
      while id <= MAX_MOTOR_ID && !interrupted
        invariant 0 <= id <= MAX_MOTOR_ID + 1 && old(log) <= log && FoundBelow(host, log, ds, ch, id) && Explained(ds)
        invariant forall d | d in ds :: d in before || d.ch == ch
        invariant forall c, i :: Queried(old(queries), c, i) ==> Queried(queries, c, i)
        invariant (old(interrupted) ==> interrupted) && QueriedBelow(queries, ch, id)
      {
        ghost var seen, was := log, queries;
        var d := QueryDevice(ch, id);
        FoundOneMore(host, seen, log, ds, ch, id, d);
        QueriedMore(was, queries[|was|]);
        assert queries == was + [queries[|was|]];
        if d.Some? { ds := ds + [d.value]; }
        id := id + 1;
        Signal();
      }
      FoundEarly(host, log, ds, ch, id);
    }

    /** scan_channels: any channel may fail to open; the sort changes nothing. Unless a signal came,
        every ID of every open channel was queried; the devices are what the queries found. */
    method ScanChannels() returns (ds: seq<Device>)
      requires open == [false, false, false, false] && log == [] && queries == []
      modifies this
      ensures |open| == 4 && Ascending(ds) && Explained(ds)
      ensures forall d | d in ds :: d.ch < 4 && open[d.ch] && d.id <= MAX_MOTOR_ID && Found(host, log, d)
      ensures !interrupted ==> forall ch | 0 <= ch < 4 && open[ch] :: QueriedBelow(queries, ch, 128)
      ensures forall sorted | NoInversion(sorted) && multiset(sorted) == multiset(ds) :: sorted == ds
    {
      assert Explained([]);
      hide QueriesOk, Found, Queried;
      ds := [];
      for ch := 0 to 4
        invariant |open| == 4 && FoundBelow(host, log, ds, ch, 0) && Explained(ds)
        invariant forall d | d in ds :: d.ch < 4 && open[d.ch]
        invariant forall c | ch <= c < 4 :: !open[c]
        invariant !interrupted ==> forall c | 0 <= c < ch && open[c] :: QueriedBelow(queries, c, MAX_MOTOR_ID + 1)
      {
        var opens: bool := *;
        if opens {
          open := open[ch := true];
          ds := ScanChannel(ch, ds);
          FoundNextChannel(host, log, ds, ch, MAX_MOTOR_ID + 1);
        } else {
          FoundNextChannel(host, log, ds, ch, 0);
        }
      }
      forall sorted | NoInversion(sorted) && multiset(sorted) == multiset(ds) ensures sorted == ds {
        SortChangesNothing(ds, sorted);
      }
    }
  }

  /** A motor as make_motor_states leaves it. */
  function Fresh(d: Device): Motor {
    Motor(d.ch, d.id, false, false, Fin(0.0), 0.0, 0.0, 0.0, Fin(0.0), 0, 0, 0)
  }

  /** make_motor_states. */
  method MakeMotorStates(ds: seq<Device>) returns (motors: seq<Motor>)
    requires Ascending(ds)
    ensures |motors| == |ds| && Sorted(motors)
    ensures forall i | 0 <= i < |ds| :: motors[i] == Fresh(ds[i])
  {
    motors := [];
    for i := 0 to |ds|
      invariant |motors| == i && forall k | 0 <= k < i :: motors[k] == Fresh(ds[k])
    {
      motors := motors + [Fresh(ds[i])];
    }
    forall i, j | 0 <= i < j < |motors| ensures Before(motors[i], motors[j]) {
      assert Precedes(ds[i], ds[j]);
    }
  }

  /** What the program leaves behind: the scan's open channels, bus history and queries, and whether a
      signal cut it short; the devices found; the control loop's bus history and its motors. */
  datatype Session = Session(open: seq<bool>, scanLog: seq<Event>, queries: seq<Query>, interrupted: bool,
                             devices: seq<Device>, log: seq<Event>, motors: seq<Motor>)

  /**
   The whole program: scan, then the control loop. Whatever answers the scan, whatever keys, signals,
   exceptions and refused frames follow: the devices are what the queries found, and the queries are all
   the scan sent, one for every ID of every open channel unless a signal came; every motor of the loop
   is one of the devices; the run obeys every rule of the bus and leaves no ENABLE attempt without a later
   STOP attempt.
   */
  method PositionRead(cfg: Config) returns (s: Session)
    requires 0.0 <= cfg.kp <= 500.0 && 0.0 <= cfg.kd <= 5.0
    ensures Ascending(s.devices) && Disciplined(cfg, s.log) && |s.motors| == |s.devices| && |s.open| == 4
    ensures forall d | d in s.devices ::
              d.ch < 4 && s.open[d.ch] && d.id <= MAX_MOTOR_ID && Found(cfg.host, s.scanLog, d)
    ensures QueriesOk(cfg.host, s.scanLog, s.queries) && s.devices == DevicesOf(s.queries)
    ensures !s.interrupted ==> forall ch | 0 <= ch < 4 && s.open[ch] :: QueriedBelow(s.queries, ch, 128)
    ensures forall i | 0 <= i < |s.devices| ::
              s.motors[i].ch == s.devices[i].ch && s.motors[i].id == s.devices[i].id && !s.motors[i].enabled
    ensures forall ch: nat, id: Byte :: !Pending(s.log, ch, id)
  {
    hide QueriesOk, Found, QueriedBelow;
    var scanner := new Scanner(cfg.host);
    var ds := scanner.ScanChannels();
    var motors := MakeMotorStates(ds);
    forall i | 0 <= i < |motors| ensures motors[i].ch < 4 && scanner.open[motors[i].ch] {
      assert ds[i] in ds;
    }
    var controller := new Controller(cfg, scanner.open, motors);
    var threw;
    ghost var run;
    threw, run := controller.Run();
    AllOffKeys(run.on);
    s := Session(scanner.open, scanner.log, scanner.queries, scanner.interrupted, ds, controller.log, controller.motors);
  }
}
