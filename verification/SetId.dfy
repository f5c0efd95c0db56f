/**
 `motor_config set-id` (apps/motor_config.cpp) against a bus that may refuse writes, lose, delay and
 interleave frames. The devices on the bus are part of the model: a GET_ID reply is honest (it carries
 the UID and ID of a device), and the one SET_ID frame may take effect at any time after it was sent,
 or never.
 */
module SetId {
  import opened Util
  import opened Wire

  datatype Exit = Code(n: int) | Error
  datatype Sent = Sent(msg: CanMsg, ok: bool)
  datatype Order = Order(from: Byte, to: Byte)

  /** The devices: MCU UID to CAN ID. */
  type World = map<Bytes8, Byte>

  predicate UniqueIds(w: World) {
    forall u, v | u in w && v in w && u != v :: w[u] != w[v]
  }

  predicate Present(w: World, id: Byte) { exists u | u in w :: w[u] == id }

  /** A device with this ID whose replies get through. */
  predicate Audible(w: World, mute: set<Bytes8>, id: Byte) {
    exists u | u in w && u !in mute :: w[u] == id
  }

  predicate UniqueAudible(w: World, mute: set<Bytes8>) {
    forall u, v | u in w && v in w && u !in mute && v !in mute && u != v :: w[u] != w[v]
  }

  /** Every device with the order's source ID takes the new one. */
  function Obey(w: World, o: Order): World {
    map u | u in w :: if w[u] == o.from then o.to else w[u]
  }

  predicate Ordered(order: Option<Order>, was: Byte, now: Byte) { order == Some(Order(was, now)) }

  /** What the devices can have become. */
  predicate Follows(initial: World, world: World, order: Option<Order>) {
    && world.Keys == initial.Keys
    && forall u | u in initial :: world[u] == initial[u] || Ordered(order, initial[u], world[u])
  }

  /** A reply naming this UID and ID can have been sent by now. */
  predicate Truthful(initial: World, world: World, order: Option<Order>, uid: Bytes8, id: Byte) {
    && uid in initial && uid in world
    && (id == initial[uid] || (Ordered(order, initial[uid], id) && world[uid] == id))
  }

  function Request(commType: Byte, field: Code, motor: Byte): CanMsg {
    CanMsg(true, BuildExtId(commType, field, motor), 8, ZEROS)
  }

  predicate IsReply(m: CanMsg) { m.extended && CommType(m.id) == COMM_GET_ID }

  /** The predicate get_device waits with. */
  predicate Answers(host: Byte, id: Byte, m: CanMsg) {
    CommType(m.id) == COMM_GET_ID && SourceId(m.id) == id && (DestId(m.id) == 0xFE || DestId(m.id) == host)
  }

  predicate Honest(initial: World, world: World, order: Option<Order>, m: CanMsg) {
    IsReply(m) ==> Truthful(initial, world, order, m.data, SourceId(m.id))
  }

  lemma ReplyIsHonest(initial: World, world: World, order: Option<Order>, uid: Bytes8, high: Byte, dest: Byte)
    requires Follows(initial, world, order) && uid in world
    ensures Honest(initial, world, order, IdReply(uid, world[uid], high, dest))
    ensures forall host, id :: Answers(host, id, IdReply(uid, world[uid], high, dest))
                               <==> id == world[uid] && (dest == 0xFE || dest == host)
    ensures SourceId(IdReply(uid, world[uid], high, dest).id) == world[uid]
  {
    ExtIdFields(COMM_GET_ID, Join(high, world[uid]), dest);
  }

  lemma ObeyFollows(initial: World, world: World, o: Order)
    requires Follows(initial, world, Some(o))
    ensures Follows(initial, Obey(world, o), Some(o))
    ensures forall m: CanMsg :: Honest(initial, world, Some(o), m) ==> Honest(initial, Obey(world, o), Some(o), m)
  {
  }

  lemma OrderStaysHonest(initial: World, world: World, o: Order)
    requires Follows(initial, world, None)
    ensures Follows(initial, world, Some(o)) && world == initial
    ensures forall m: CanMsg :: Honest(initial, world, None, m) ==> Honest(initial, world, Some(o), m)
  {
  }

  lemma ObeyUnique(w: World, mute: set<Bytes8>, o: Order)
    requires UniqueAudible(w, mute) && !Audible(w, mute, o.to)
    ensures UniqueAudible(Obey(w, o), mute)
  {
  }

  /** From position `from` on, the same request over and over; only the last can have been refused. */
  predicate Asked(sent: seq<Sent>, from: nat, request: CanMsg) {
    forall p | from <= p < |sent| :: sent[p].msg == request && (p < |sent| - 1 ==> sent[p].ok)
  }

  /** The identifiers of this module's requests, in numbers; they carry eight zero bytes. */
  lemma RequestNumbers(host: Byte, id: Byte, was: Byte, now: Byte)
    ensures Request(COMM_GET_ID, host, id) == CanMsg(true, host * 0x100 + id, 8, [0, 0, 0, 0, 0, 0, 0, 0])
    ensures StopFrame(host, id) == CanMsg(true, 0x400_0000 + host * 0x100 + id, 8, [0, 0, 0, 0, 0, 0, 0, 0])
    ensures SetFrame(host, was, now)
            == CanMsg(true, 0x700_0000 + now * 0x1_0000 + host * 0x100 + was, 8, [0, 0, 0, 0, 0, 0, 0, 0])
  {
  }

  predicate OnlyQueries(sent: seq<Sent>, from: nat) {
    forall p | from <= p < |sent| :: CommType(sent[p].msg.id) == COMM_GET_ID
  }

  function StopFrame(host: Byte, id: Byte): CanMsg { Request(COMM_STOP, host, id) }

  function SetFrame(host: Byte, was: Byte, now: Byte): CanMsg { Request(COMM_SET_CAN_ID, Join(now, host), was) }

  /** What a motor reads from the SET_ID identifier. */
  lemma SetFrameFields(host: Byte, was: Byte, now: Byte)
    ensures var id := SetFrame(host, was, now).id;
            CommType(id) == COMM_SET_CAN_ID && DestId(id) == was && High(DataField(id)) == now
  {
    ExtIdFields(COMM_SET_CAN_ID, Join(now, host), was);
  }

  /** parse_integer on two arguments, and the check that they differ. */
  predicate ValidArgs(args: seq<Option<int>>) {
    && |args| == 2 && args[0].Some? && args[1].Some?
    && 0 <= args[0].value <= 127 && 0 <= args[1].value <= 127 && args[0].value != args[1].value
  }

  /** The frames of a whole command: queries; then a STOP; then, if that was accepted, SET_ID; then, if
      that was accepted, queries again. */
  predicate Exchange(sent: seq<Sent>, host: Byte, was: Byte, now: Byte, ordered: bool) {
    if ordered then
      exists p | 1 <= p < |sent| ::
        && OnlyQueries(sent[..p - 1], 0) && sent[p - 1] == Sent(StopFrame(host, was), true)
        && sent[p] == Sent(SetFrame(host, was, now), true) && OnlyQueries(sent, p + 1)
    else
      var n := |sent|;
      || OnlyQueries(sent, 0)
      || (n >= 1 && OnlyQueries(sent[..n - 1], 0) && sent[n - 1] == Sent(StopFrame(host, was), false))
      || (n >= 2 && OnlyQueries(sent[..n - 2], 0) && sent[n - 2] == Sent(StopFrame(host, was), true)
          && sent[n - 1] == Sent(SetFrame(host, was, now), false))
  }

  lemma ExchangeDone(queries: seq<Sent>, before: seq<Sent>, sent: seq<Sent>, host: Byte, was: Byte, now: Byte)
    requires OnlyQueries(queries, 0) && before <= sent && OnlyQueries(sent, |before|)
    requires before == queries + [Sent(StopFrame(host, was), true)] + [Sent(SetFrame(host, was, now), true)]
    ensures Exchange(sent, host, was, now, true)
  {
    var p := |queries| + 1;
    assert sent[..p - 1] == before[..p - 1] == queries;
    assert sent[p - 1] == before[p - 1] && sent[p] == before[p];
  }

  /** The device that was at `was` is at `now`; if IDs were unique, no other device changed. */
  predicate MovedOne(initial: World, world: World, was: Byte, now: Byte) {
    exists uid | uid in initial :: initial[uid] == was && uid in world && world[uid] == now
      && (UniqueIds(initial) ==> world == initial[uid := now])
  }

  lemma OnlyTargetMoved(initial: World, world: World, was: Byte, now: Byte, uid: Bytes8)
    requires Follows(initial, world, Some(Order(was, now)))
    requires uid in initial && initial[uid] == was && uid in world && world[uid] == now
    ensures MovedOne(initial, world, was, now)
  {
    if UniqueIds(initial) {
      forall u | u in initial ensures world[u] == initial[uid := now][u] {
        if u != uid { assert initial[u] != initial[uid]; }
      }
    }
  }

  /**
   The documentation says the tool verifies that the new ID is unused. A lost reply defeats that check,
   so success alone does not keep the IDs unique: it does exactly when NEW was free.
   */
  lemma UniqueExactlyIfFree(initial: World, world: World, was: Byte, now: Byte)
    requires UniqueIds(initial) && was != now && MovedOne(initial, world, was, now)
    ensures UniqueIds(world) <==> !Present(initial, now)
  {
    var uid :| uid in initial && initial[uid] == was && uid in world && world[uid] == now
      && (UniqueIds(initial) ==> world == initial[uid := now]);
    if Present(initial, now) {
      var v :| v in initial && initial[v] == now;
      assert v != uid && world[v] == world[uid];
    }
  }

  lemma QueryAppended(sent: seq<Sent>, from: nat, host: Byte, id: Byte, ok: bool)
    requires OnlyQueries(sent, from)
    ensures OnlyQueries(sent + [Sent(Request(COMM_GET_ID, host, id), ok)], from)
  {
    ExtIdFields(COMM_GET_ID, host, id);
  }

  /** What was read is a run of standard frames, and then the frame that was got, if any. */
  predicate FirstExtended(before: seq<CanMsg>, after: seq<CanMsg>, got: Option<CanMsg>) {
    var n := |after| - if got.Some? then 1 else 0;
    && |before| <= n && after[..|before|] == before && (forall k | |before| <= k < n :: !after[k].extended)
    && (got.Some? ==> after[n] == got.value && got.value.extended)
  }

  class Bus {
    const host: Byte
    const retries: nat
    const dryRun: bool
    const quiet: bool          // a bus that adds and delays nothing, and loses only replies of mute devices
    const mute: set<Bytes8>
    const initial: World
    var world: World
    var order: Option<Order>   // the SET_ID frame the driver took
    var queue: seq<CanMsg>     // the receive queue
    ghost var sent: seq<Sent>  // every frame given to the driver
    ghost var seen: seq<CanMsg> // every frame read from the queue

    ghost predicate Valid()
      reads `world, `order, `queue
    {
      && retries >= 1 && Follows(initial, world, order)
      && (forall m | m in queue :: Honest(initial, world, order, m))
      && (quiet ==> UniqueAudible(world, mute) && |queue| <= 1 && forall m | m in queue :: m.extended)
    }

    constructor (host: Byte, retries: nat, dryRun: bool, quiet: bool, mute: set<Bytes8>, initial: World)
      requires 1 <= retries <= 20 && (quiet ==> UniqueAudible(initial, mute))
      ensures Valid() && this.host == host && this.retries == retries && this.dryRun == dryRun && this.quiet == quiet
      ensures this.mute == mute && this.initial == world == initial && order == None && queue == [] && sent == [] && seen == []
    {
      this.host, this.retries, this.dryRun, this.quiet, this.mute := host, retries, dryRun, quiet, mute;
      this.initial, world, order, queue, sent, seen := initial, initial, None, [], [], [];
    }

    // ----- the bus -----

    /** A device sends a GET_ID reply, to any destination. */
    method ReplyArrives()
      requires Valid() && !quiet
      modifies this`queue
      ensures Valid()
    {
      var uid: Bytes8, high: Byte, dest: Byte := *, *, *;
      if uid in world {
        ReplyIsHonest(initial, world, order, uid, high, dest);
        queue := queue + [IdReply(uid, world[uid], high, dest)];
      }
    }

    /** Time passes: devices act on the order, replies and any other frames arrive. */
    method Elapse()
      requires Valid()
      modifies this`world, this`queue
      ensures Valid() && (order.None? ==> world == old(world))
      ensures quiet ==> world == old(world) && queue == old(queue)
    {
      if quiet { return; }
      var budget: nat :| budget >= 0;
      while budget > 0
        invariant Valid() && (order.None? ==> world == old(world))
      {
        budget := budget - 1;
        var obeys, replies: bool := *, *;
        if obeys && order.Some? {
          ObeyFollows(initial, world, order.value);
          world := Obey(world, order.value);
        } else if replies {
          ReplyArrives();
        } else {
          var m: CanMsg := *;
          if !IsReply(m) { queue := queue + [m]; }
        }
      }
    }

    method Read() returns (r: ReadResult)
      requires Valid()
      modifies this`world, this`queue, this`seen
      ensures seen == old(seen) + if r.Got? then [r.msg] else []
      ensures Valid() && (order.None? ==> world == old(world))
      ensures r.Got? ==> Honest(initial, world, order, r.msg)
      ensures quiet ==> world == old(world)
      ensures quiet && old(queue) == [] ==> r == Nothing && queue == []
      ensures quiet && old(queue) != [] ==> r == Got(old(queue)[0]) && queue == old(queue)[1..] && r.msg.extended
    {
      Elapse();
      var choice: int := *;
      if queue != [] && (quiet || choice == 0) {
        r := Got(queue[0]);
        queue, seen := queue[1..], seen + [queue[0]];
      } else {
        r := if quiet || choice == 1 then Nothing else Broken;
      }
    }

    /** CanBus::receive: the first extended frame before the deadline; the frames it read before that one
        were standard. With a timeout of zero (not patient) it gives up on an empty queue, and after one
        standard frame. */
    method Receive(patient: bool) returns (got: Option<CanMsg>)
      requires Valid()
      modifies this`world, this`queue, this`seen
      ensures FirstExtended(old(seen), seen, got) && (!patient ==> |seen| <= |old(seen)| + 1)
      ensures Valid() && (order.None? ==> world == old(world))
      ensures got.Some? ==> got.value.extended && Honest(initial, world, order, got.value) && !dryRun
      ensures quiet ==> world == old(world)
      ensures quiet && old(queue) == [] ==> got.None? && queue == []
      ensures quiet && !dryRun && old(queue) != [] ==> got == Some(old(queue)[0]) && queue == old(queue)[1..]
      ensures dryRun ==> world == old(world) && queue == old(queue)
    {
      if dryRun { return None; }
      var rounds: nat :| rounds >= 0;
      while true
        invariant Valid() && (order.None? ==> world == old(world))
        invariant quiet ==> world == old(world) && queue == old(queue)
        invariant FirstExtended(old(seen), seen, None) && (!patient ==> seen == old(seen))
        decreases rounds
      {
        var r := Read();
        match r {
          case Got(m) => if m.extended { return Some(m); }
          case Broken => return None;
          case Nothing => if !patient { return None; }
        }
        if rounds == 0 || !patient { return None; }
        rounds := rounds - 1;
      }
    }

    /** CanBus::drain. */
    method Drain()
      requires Valid()
      modifies this`world, this`queue, this`seen
      ensures Valid() && (order.None? ==> world == old(world))
      ensures quiet ==> world == old(world)
      ensures quiet && !dryRun ==> queue == []
      ensures dryRun ==> world == old(world) && queue == old(queue)
    {
      var count := 0;
      while count < 256
        invariant 0 <= count <= 256 && Valid() && (order.None? ==> world == old(world))
        invariant quiet ==> world == old(world)
        invariant quiet && !dryRun ==> |queue| + count <= 1 || queue == []
        invariant dryRun ==> world == old(world) && queue == old(queue)
      {
        var got := Receive(false);
        if got.None? { break; }
        count := count + 1;
      }
    }

    /** wait_for, with the predicate of get_device. */
    method WaitForReply(id: Byte) returns (got: Option<CanMsg>)
      requires Valid() && !dryRun
      modifies this`world, this`queue, this`seen
      ensures Valid() && (order.None? ==> world == old(world))
      ensures got.Some? ==> Answers(host, id, got.value) && Honest(initial, world, order, got.value) && got.value.extended
      ensures quiet ==> world == old(world)
      ensures quiet && old(queue) == [] ==> got.None?
      ensures quiet && |old(queue)| == 1 && Answers(host, id, old(queue)[0]) ==> got == Some(old(queue)[0])
    {
      var rounds: nat :| quiet ==> rounds > |queue|;
      while rounds > 0
        invariant Valid() && (order.None? ==> world == old(world))
        invariant quiet ==> world == old(world) && rounds >= |queue|
        invariant quiet && old(queue) == [] ==> queue == []
        invariant quiet && |old(queue)| == 1 && Answers(host, id, old(queue)[0]) ==> rounds > 0 && queue == old(queue)
        decreases rounds
      {
        rounds := rounds - 1;
        var candidate := Receive(true);
        if candidate.Some? && Answers(host, id, candidate.value) { return candidate; }
      }
      return None;
    }

    // ----- requests -----

    /** CanBus::send, of anything but SET_ID. On a quiet bus an audible device with the ID answers GET_ID. */
    method Send(commType: Byte, id: Byte) returns (ok: bool)
      requires Valid() && commType < 0x20 && commType != COMM_SET_CAN_ID && (quiet && !dryRun ==> queue == [])
      modifies this`world, this`queue, this`seen, this`sent
      ensures Valid() && (order.None? ==> world == old(world))
      ensures sent == if dryRun then old(sent) else old(sent) + [Sent(Request(commType, host, id), ok)]
      ensures dryRun ==> ok && world == old(world) && queue == old(queue)
      ensures quiet ==> ok && world == old(world)
      ensures quiet && !dryRun && commType == COMM_GET_ID ==> AnsweredOnce(id)
    {
      if dryRun { return true; }
      var taken: bool := *;
      ok := quiet || taken;
      sent := sent + [Sent(Request(commType, host, id), ok)];
      if !quiet {
        Elapse();
      } else if commType == COMM_GET_ID && exists u :: u in world && u !in mute && world[u] == id {
        var u :| u in world && u !in mute && world[u] == id;
        ReplyIsHonest(initial, world, order, u, 0, 0xFE);
        queue := [IdReply(u, id, 0, 0xFE)];
      }
    }

    /** The receive queue of a quiet bus after a GET_ID. */
    ghost predicate AnsweredOnce(id: Byte)
      reads `world, `queue
    {
      if Audible(world, mute, id) then
        && |queue| == 1 && Answers(host, id, queue[0])
        && queue[0].data in world && queue[0].data !in mute && world[queue[0].data] == id
      else queue == []
    }

    /** get_device: the UID of a device that had this ID, if one answered. It gives up after `retries`
        requests, or at one the driver refuses. */
    method GetDevice(id: Byte) returns (uid: Option<Bytes8>)
      requires Valid() && !dryRun
      modifies this`world, this`queue, this`seen, this`sent
      ensures Valid() && (order.None? ==> world == old(world))
      ensures uid.Some? ==> Truthful(initial, world, order, uid.value, id)
      ensures old(sent) <= sent && OnlyQueries(sent, |old(sent)|)
      ensures |old(sent)| < |sent| <= |old(sent)| + retries && Asked(sent, |old(sent)|, Request(COMM_GET_ID, host, id))
      ensures uid.None? ==> |sent| == |old(sent)| + retries || !sent[|sent| - 1].ok
      ensures uid.Some? ==> sent[|sent| - 1].ok
      ensures quiet ==> world == old(world)
      ensures quiet ==> (uid.Some? <==> Audible(world, mute, id))
      ensures quiet && uid.Some? ==> uid.value in world && uid.value !in mute && world[uid.value] == id
    {
      uid := None;
      for attempt := 0 to retries
        invariant Valid() && (order.None? ==> world == old(world))
        invariant old(sent) <= sent && OnlyQueries(sent, |old(sent)|) && |sent| == |old(sent)| + attempt
        invariant Asked(sent, |old(sent)|, Request(COMM_GET_ID, host, id)) && (attempt > 0 ==> sent[|sent| - 1].ok)
        invariant quiet ==> world == old(world) && (attempt > 0 ==> !Audible(world, mute, id))
      {
        Drain();
        ghost var before := sent;
        var ok := Send(COMM_GET_ID, id);
        QueryAppended(before, |old(sent)|, host, id, ok);
        if !ok { return None; }
        var reply := WaitForReply(id);
        if reply.Some? { return Some(reply.value.data); }
      }
    }

    /** send_stop: a drain, then one frame. */
    method SendStop(id: Byte) returns (ok: bool)
      requires Valid()
      modifies this`world, this`queue, this`seen, this`sent
      ensures Valid() && (order.None? ==> world == old(world))
      ensures sent == if dryRun then old(sent) else old(sent) + [Sent(StopFrame(host, id), ok)]
      ensures dryRun ==> ok && world == old(world) && queue == old(queue)
      ensures quiet ==> ok && world == old(world)
    {
      Drain();
      ok := Send(COMM_STOP, id);
    }

    /** send_set_id: a drain, then the order. On a quiet bus it is obeyed at once. */
    method SendSetId(was: Byte, now: Byte) returns (ok: bool)
      requires Valid() && order.None? && (quiet && !dryRun ==> !Audible(world, mute, now))
      modifies this`world, this`queue, this`seen, this`sent, this`order
      ensures Valid() && sent == if dryRun then old(sent) else old(sent) + [Sent(SetFrame(host, was, now), ok)]
      ensures order == if dryRun || !ok then None else Some(Order(was, now))
      ensures order.None? ==> world == initial
      ensures dryRun ==> ok && queue == old(queue)
      ensures quiet && !dryRun ==> ok && world == Obey(initial, Order(was, now))
    {
      Drain();
      if dryRun { return true; }
      var taken: bool := *;
      ok := quiet || taken;
      var frame := SetFrame(host, was, now);
      sent := sent + [Sent(frame, ok)];
      if !ok { return; }
      SetFrameFields(host, was, now);
      OrderStaysHonest(initial, world, Order(was, now));
      order := Some(Order(DestId(frame.id), High(DataField(frame.id))));
      if quiet {
        ObeyUnique(world, mute, order.value);
        ObeyFollows(initial, world, order.value);
        world := Obey(world, order.value);
      } else {
        Elapse();
      }
    }

    // ----- the command -----

    /** The checks before the prompt: OLD answers and NEW does not. */
    method Identify(was: Byte, now: Byte) returns (uid: Option<Bytes8>)
      requires Valid() && !dryRun && order.None? && sent == []
      modifies this`world, this`queue, this`seen, this`sent
      ensures Valid() && world == initial && OnlyQueries(sent, 0)
      ensures uid.Some? ==> uid.value in initial && initial[uid.value] == was
      ensures quiet ==> (uid.Some? <==> Audible(initial, mute, was) && !Audible(initial, mute, now))
      ensures quiet && uid.Some? ==> uid.value !in mute && !Audible(world, mute, now)
    {
      uid := GetDevice(was);
      if uid.None? { return; }
      var other := GetDevice(now);
      if other.Some? { uid := None; }
    }

    /** The query after the change, and the comparison of UIDs. */
    method Verify(was: Byte, now: Byte, uid: Bytes8) returns (exit: Exit)
      requires Valid() && !dryRun && order == Some(Order(was, now)) && was != now
      requires uid in initial && initial[uid] == was
      modifies this`world, this`queue, this`seen, this`sent
      ensures Valid() && old(sent) <= sent && OnlyQueries(sent, |old(sent)|)
      ensures exit == Code(0) || exit == Code(1)
      ensures exit == Code(0) ==> uid in world && world[uid] == now
      ensures quiet ==> world == old(world)
      ensures quiet && uid !in mute && uid in old(world) && old(world)[uid] == now ==> exit == Code(0)
    {
      var changed := GetDevice(now);
      if changed.None? { return Code(1); }
      if changed.value != uid { return Code(1); }
      return Code(0);
    }

    /**
     command_set_id. `yes` says the prompt is answered with yes, or --yes was given.
     Code 0 off a dry run: the device that answered at OLD is now at NEW and, IDs having been unique,
     no other device changed. Without an accepted SET_ID frame nothing changed; that frame follows an
     accepted STOP to the same ID immediately and is sent at most once. On a quiet bus the command
     succeeds exactly when it is confirmed, an audible device is at OLD and none at NEW.
     */
    method CommandSetId(args: seq<Option<int>>, yes: bool) returns (exit: Exit)
      requires Valid() && order.None? && sent == []
      modifies this
      ensures Valid() && (exit.Error? || exit == Code(0) || exit == Code(1))
      ensures exit.Code? <==> |args| == 2 && args[0].Some? && args[1].Some? && args[0].value != args[1].value
                              && 0 <= args[0].value <= 127 && 0 <= args[1].value <= 127
      ensures order.None? ==> world == initial
      ensures order.Some? ==> ValidArgs(args) && order == Some(Order(args[0].value, args[1].value)) && yes && !dryRun
      ensures if ValidArgs(args) then Exchange(sent, host, args[0].value, args[1].value, order.Some?) else sent == []
      ensures !yes ==> OnlyQueries(sent, 0)
      ensures dryRun ==> sent == [] && order.None? && (ValidArgs(args) ==> exit == Code(0))
      ensures exit == Code(0) && !dryRun ==> MovedOne(initial, world, args[0].value, args[1].value)
      ensures quiet && !dryRun && ValidArgs(args) ==>
          (exit == Code(0) <==>
             yes && Audible(initial, mute, args[0].value) && !Audible(initial, mute, args[1].value))
      ensures quiet && !dryRun && exit == Code(0) ==> world == Obey(initial, Order(args[0].value, args[1].value))
    {
      if !ValidArgs(args) { return Error; }
      var was: Byte, now: Byte := args[0].value, args[1].value;
      var uid: Option<Bytes8> := None;
      if !dryRun {
        uid := Identify(was, now);
        if uid.None? { return Code(1); }
      }
      if !(yes || dryRun) { return Code(1); }
      exit := Change(was, now, uid);
    }

    /** STOP, SET_ID and the verification. */
    method Change(was: Byte, now: Byte, uid: Option<Bytes8>) returns (exit: Exit)
      requires Valid() && order.None? && world == initial && was != now && OnlyQueries(sent, 0)
      requires if dryRun then uid.None? && sent == [] else uid.Some? && uid.value in initial && initial[uid.value] == was
      requires quiet && !dryRun ==> !Audible(world, mute, now) && uid.value !in mute
      modifies this
      ensures Valid() && (exit == Code(0) || exit == Code(1))
      ensures order.None? ==> world == initial
      ensures order.Some? ==> order == Some(Order(was, now)) && !dryRun
      ensures Exchange(sent, host, was, now, order.Some?)
      ensures dryRun ==> sent == [] && exit == Code(0)
      ensures exit == Code(0) && !dryRun ==> MovedOne(initial, world, was, now)
      ensures quiet && !dryRun ==> exit == Code(0) && world == Obey(initial, Order(was, now))
    {
      ghost var queries := sent;
      var ok := SendStop(was);
      if !ok { return Code(1); }
      ok := SendSetId(was, now);
      if !ok { return Code(1); }
      if dryRun { return Code(0); }
      ghost var before := sent;
      exit := Verify(was, now, uid.value);
      ExchangeDone(queries, before, sent, host, was, now);
      if exit == Code(0) { OnlyTargetMoved(initial, world, was, now, uid.value); }
    }
  }

  /**
   A lost reply defeats the check that NEW is unused: with devices at 1 and 2 and every reply of the
   second lost, `set-id 1 2` returns 0 and leaves both devices at 2.
   */
  method NewInUseCanGoUnnoticed(host: Byte, uid: Bytes8, other: Bytes8) returns (exit: Exit, world: World)
    requires uid != other
    ensures exit == Code(0) && UniqueIds(map[uid := 1, other := 2])
    ensures world == map[uid := 2, other := 2] && !UniqueIds(world)
  {
    var initial: World := map[uid := 1, other := 2];
    var bus := new Bus(host, 2, false, true, {other}, initial);
    assert initial[uid] == 1 && initial[other] == 2;
    exit := bus.CommandSetId([Some(1), Some(2)], true);
    world := bus.world;
    assert world == Obey(initial, Order(1, 2)) == map[uid := 2, other := 2];
    assert world[uid] == world[other];
  }
}
