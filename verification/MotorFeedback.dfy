/**
 The receiving half of MotorThread (src/motor_thread.cpp): draining a channel into the motors'
 last feedback, and judging each motor online or not.
 */
module MotorFeedback {
  import opened Util
  import opened Codec
  import opened Wire
  import opened RobotConfig
  import opened SharedState
  import opened Timing

  datatype Feedback = Feedback(reading: Reading, timestamp: nat)

  /** One successful try_parse_feedback: which motor, what, and when. */
  datatype Parse = Parse(motor: nat, reading: Reading, stamp: nat)

  const NO_FEEDBACK := Feedback(Reading(0.0, 0.0, 0.0, 0.0, 0, 0), 0)

  /** The binding a frame goes to: the first whose motor accepts it. */
  function Target(rnd: Rounding, bindings: seq<Binding>, m: CanMsg): (i: nat)
    ensures i <= |bindings|
    ensures i < |bindings| ==> ParseFeedback(rnd, bindings[i].motor, m).Some?
    ensures forall k | 0 <= k < i :: ParseFeedback(rnd, bindings[k].motor, m).None?
  {
    if bindings == [] || ParseFeedback(rnd, bindings[0].motor, m).Some? then 0
    else 1 + Target(rnd, bindings[1..], m)
  }

  /** With distinct motor IDs the receiver is the binding whose ID the frame carries as source. */
  lemma TargetIsSource(rnd: Rounding, bindings: seq<Binding>, m: CanMsg, i: nat)
    requires i < |bindings|
    requires forall j, k | 0 <= j < k < |bindings| :: bindings[j].motor != bindings[k].motor
    ensures Target(rnd, bindings, m) == i <==>
            m.extended && CommType(m.id) == COMM_FEEDBACK && SourceId(m.id) == bindings[i].motor
  {
  }

  /** What motor i makes of a frame: nothing unless the frame goes to it. */
  function Heard(rnd: Rounding, bindings: seq<Binding>, m: CanMsg, i: nat): (r: Option<Reading>)
    requires i < |bindings|
    ensures r.Some? <==> Target(rnd, bindings, m) == i
  {
    if Target(rnd, bindings, m) == i then ParseFeedback(rnd, bindings[i].motor, m) else None
  }

  /** The last of the frames that goes to motor i, parsed. */
  function LastFor(rnd: Rounding, bindings: seq<Binding>, frames: seq<CanMsg>, i: nat): Option<Reading>
    requires i < |bindings|
  {
    if frames == [] then None
    else
      var r := Heard(rnd, bindings, frames[|frames| - 1], i);
      if r.Some? then r else LastFor(rnd, bindings, frames[..|frames| - 1], i)
  }

  /** LastFor is the reading of frame k when k goes to motor i and no later frame does. */
  lemma {:induction false} LastForIsLast(rnd: Rounding, bindings: seq<Binding>, frames: seq<CanMsg>, i: nat, k: nat)
    requires i < |bindings| && k < |frames| && Target(rnd, bindings, frames[k]) == i
    requires forall l | k < l < |frames| :: Target(rnd, bindings, frames[l]) != i
    ensures LastFor(rnd, bindings, frames, i) == Heard(rnd, bindings, frames[k], i)
  {
    if k < |frames| - 1 { LastForIsLast(rnd, bindings, frames[..|frames| - 1], i, k); }
  }

  /** It is None exactly when no frame goes to motor i. */
  lemma {:induction false} LastForNone(rnd: Rounding, bindings: seq<Binding>, frames: seq<CanMsg>, i: nat)
    requires i < |bindings| && (forall k | 0 <= k < |frames| :: Target(rnd, bindings, frames[k]) != i)
    ensures LastFor(rnd, bindings, frames, i).None?
  {
    if frames != [] { LastForNone(rnd, bindings, frames[..|frames| - 1], i); }
  }

  function LastParse(parsed: seq<Parse>, i: nat): Feedback {
    if parsed == [] then NO_FEEDBACK
    else
      var p := parsed[|parsed| - 1];
      if p.motor == i then Feedback(p.reading, p.stamp) else LastParse(parsed[..|parsed| - 1], i)
  }

  /** The parses that frames offered in this order give rise to: one per frame that some motor accepts. */
  ghost predicate ParsedFrom(rnd: Rounding, bindings: seq<Binding>, frames: seq<CanMsg>, parses: seq<Parse>)
    decreases |frames|
  {
    if frames == [] then parses == []
    else
      var n, i := |frames| - 1, Target(rnd, bindings, frames[|frames| - 1]);
      if i == |bindings| then ParsedFrom(rnd, bindings, frames[..n], parses)
      else
        var last := |parses| - 1;
        && last >= 0 && parses[last].motor == i
        && ParseFeedback(rnd, bindings[i].motor, frames[n]) == Some(parses[last].reading)
        && ParsedFrom(rnd, bindings, frames[..n], parses[..last])
  }

  function NewParse(rnd: Rounding, bindings: seq<Binding>, m: CanMsg, stamp: nat): seq<Parse> {
    var i := Target(rnd, bindings, m);
    if i == |bindings| then [] else [Parse(i, ParseFeedback(rnd, bindings[i].motor, m).value, stamp)]
  }

  lemma ParsedSnoc(rnd: Rounding, bindings: seq<Binding>, frames: seq<CanMsg>, parses: seq<Parse>, m: CanMsg, stamp: nat)
    requires ParsedFrom(rnd, bindings, frames, parses)
    ensures ParsedFrom(rnd, bindings, frames + [m], parses + NewParse(rnd, bindings, m, stamp))
  {
    assert (frames + [m])[..|frames|] == frames;
    var i := Target(rnd, bindings, m);
    if i == |bindings| {
      assert parses + [] == parses;
    } else {
      assert (parses + NewParse(rnd, bindings, m, stamp))[..|parses|] == parses;
    }
  }

  ghost predicate StampedFrom(parses: seq<Parse>, since: nat) {
    forall k | 0 <= k < |parses| :: since <= parses[k].stamp
  }

  lemma NothingParsed(rnd: Rounding, bindings: seq<Binding>, since: nat)
    ensures ParsedFrom(rnd, bindings, [], []) && StampedFrom([], since)
  {
  }

  lemma StampedNext(rnd: Rounding, bindings: seq<Binding>, m: CanMsg, parses: seq<Parse>, stamp: nat, since: nat)
    requires StampedFrom(parses, since) && since <= stamp
    ensures StampedFrom(parses + NewParse(rnd, bindings, m, stamp), since)
  {
    hide Target, ParseFeedback;
    assert forall p | p in NewParse(rnd, bindings, m, stamp) :: p.stamp == stamp;
  }

  /** One more frame of a queue is offered. */
  lemma ParsedNext(rnd: Rounding, bindings: seq<Binding>, queue: seq<CanMsg>, n: nat, parses: seq<Parse>, stamp: nat, since: nat)
    requires n < |queue| && ParsedFrom(rnd, bindings, queue[..n], parses) && StampedFrom(parses, since) && since <= stamp
    ensures ParsedFrom(rnd, bindings, queue[..n + 1], parses + NewParse(rnd, bindings, queue[n], stamp))
    ensures StampedFrom(parses + NewParse(rnd, bindings, queue[n], stamp), since)
  {
    hide ParsedFrom, StampedFrom, NewParse;
    StampedNext(rnd, bindings, queue[n], parses, stamp, since);
    ParsedSnoc(rnd, bindings, queue[..n], parses, queue[n], stamp);
    assert queue[..n + 1] == queue[..n] + [queue[n]];
  }

  /** After the parses of a drain, motor i has the last of the frames meant for it, or what it had. */
  lemma {:induction false} ParsesDrain(rnd: Rounding, bindings: seq<Binding>, frames: seq<CanMsg>, before: seq<Parse>,
                                       news: seq<Parse>, i: nat, since: nat)
    requires i < |bindings| && ParsedFrom(rnd, bindings, frames, news) && StampedFrom(news, since)
    ensures Drained(LastParse(before + news, i), LastFor(rnd, bindings, frames, i), LastParse(before, i), since)
    decreases |frames|
  {
    if frames == [] {
      assert before + news == before;
    } else {
      var n, last := |frames| - 1, |news| - 1;
      hide ParseFeedback;
      if Target(rnd, bindings, frames[n]) == |bindings| {
        ParsesDrain(rnd, bindings, frames[..n], before, news, i, since);
      } else {
        ParsesDrain(rnd, bindings, frames[..n], before, news[..last], i, since);
        LastParseOf(before, news, i);
      }
    }
  }

  /** The last parse of a non-empty list decides, for the motor it is of. */
  lemma LastParseOf(before: seq<Parse>, news: seq<Parse>, i: nat)
    requires news != []
    ensures var p := news[|news| - 1];
            LastParse(before + news, i)
            == if p.motor == i then Feedback(p.reading, p.stamp) else LastParse(before + news[..|news| - 1], i)
  {
    var all := before + news;
    assert all[..|all| - 1] == before + news[..|news| - 1] && all[|all| - 1] == news[|news| - 1];
  }

  /** The parse behind the last frame meant for motor i is among the new ones, the last of its motor. */
  lemma {:induction false} LastParsed(rnd: Rounding, bindings: seq<Binding>, frames: seq<CanMsg>, before: seq<Parse>,
                                      news: seq<Parse>, i: nat, r: Reading) returns (n: nat)
    requires i < |bindings| && ParsedFrom(rnd, bindings, frames, news) && LastFor(rnd, bindings, frames, i) == Some(r)
    ensures n < |news| && news[n].motor == i && news[n].reading == r
    ensures LastParse(before + news, i) == Feedback(r, news[n].stamp)
    decreases |frames|
  {
    hide ParseFeedback;
    var m, last := |frames| - 1, |news| - 1;
    var t := Target(rnd, bindings, frames[m]);
    if t < |bindings| { LastParseOf(before, news, i); }
    if t == i {
      n := last;
    } else if t == |bindings| {
      n := LastParsed(rnd, bindings, frames[..m], before, news, i, r);
    } else {
      n := LastParsed(rnd, bindings, frames[..m], before, news[..last], i, r);
    }
  }

  /** Stamps are positive and never decrease. */
  ghost predicate Ordered(parsed: seq<Parse>, now: nat) {
    && (forall k | 0 <= k < |parsed| :: 0 < parsed[k].stamp <= now)
    && (forall k, l | 0 <= k < l < |parsed| :: parsed[k].stamp <= parsed[l].stamp)
  }

  /** MOTOR_TIMEOUT_CYCLES periods of 2 ms */
  predicate Recent(now: int, stamp: int) { now - stamp < 20_000_000 }

  ghost predicate HeardRecently(parsed: seq<Parse>, i: nat, now: nat) {
    exists k | 0 <= k < |parsed| :: parsed[k].motor == i && Recent(now, parsed[k].stamp)
  }

  lemma {:induction false} LastParseIsLatest(parsed: seq<Parse>, i: nat, now: nat)
    requires Ordered(parsed, now)
    ensures var f := LastParse(parsed, i);
            && 0 <= f.timestamp <= now
            && (f.timestamp == 0 <==> forall k | 0 <= k < |parsed| :: parsed[k].motor != i)
            && (forall k | 0 <= k < |parsed| && parsed[k].motor == i :: parsed[k].stamp <= f.timestamp)
            && (f.timestamp > 0 ==> exists k | 0 <= k < |parsed| :: parsed[k].motor == i && parsed[k].stamp == f.timestamp)
  {
    if parsed != [] {
      var n := |parsed| - 1;
      LastParseIsLatest(parsed[..n], i, now);
      if parsed[n].motor != i && LastParse(parsed, i).timestamp > 0 {
        var k :| 0 <= k < n && parsed[..n][k].motor == i && parsed[..n][k].stamp == LastParse(parsed, i).timestamp;
        assert parsed[k].motor == i;
      }
    }
  }

  /** The age test of publish_state, in unsigned 64-bit arithmetic. */
  function OnlineFlag(f: Feedback, now: nat): bool {
    var age := if f.timestamp == 0 then 0xFFFF_FFFF_FFFF_FFFF
               else (now - f.timestamp) % 0x1_0000_0000_0000_0000;
    age < 20_000_000
  }

  /** online is exactly "a frame of this motor was parsed less than ten periods ago"; the clock being
      monotone, the unsigned subtraction never wraps. */
  lemma OnlineMeansHeard(parsed: seq<Parse>, i: nat, now: nat)
    requires Ordered(parsed, now) && now < 0x1_0000_0000_0000_0000
    ensures OnlineFlag(LastParse(parsed, i), now) <==> HeardRecently(parsed, i, now)
    ensures LastParse(parsed, i).timestamp <= now
  {
    LastParseIsLatest(parsed, i, now);
    var f := LastParse(parsed, i);
    if HeardRecently(parsed, i, now) {
      var k :| 0 <= k < |parsed| && parsed[k].motor == i && Recent(now, parsed[k].stamp);
      assert parsed[k].stamp <= f.timestamp;
    }
    if f.timestamp > 0 {
      var k :| 0 <= k < |parsed| && parsed[k].motor == i && parsed[k].stamp == f.timestamp;
      assert OnlineFlag(f, now) == Recent(now, parsed[k].stamp);
    }
  }

  /** MAX_FRAMES_PER_CYCLE */
  function Capped(n: nat): nat { if n > 32 then 32 else n }

  /** A motor's feedback after a drain: the last reading meant for it, or what it had before. */
  predicate Drained(after: Feedback, last: Option<Reading>, before: Feedback, since: nat) {
    match last
    case None => after == before
    case Some(r) => after.reading == r && after.timestamp >= since
  }

  datatype ReadStatus = Ok | Empty | Failed

  class Receiver {
    const rnd: Rounding
    const bindings: seq<Binding>
    const pacer: Pacer
    var rx: seq<CanMsg>             // the channel's receive queue
    var feedback: seq<Feedback>     // last_feedback_ of each bound motor
    ghost var parsed: seq<Parse>    // every successful parse so far
    ghost var framesRead: nat
    ghost var framesOffered: nat
    ghost var fullCycles: nat       // cycles in which 33 reads succeeded
    ghost var refusals: nat         // reads that returned no frame
    ghost var failures: nat         // those of them that were bus errors

    ghost predicate Valid() reads this, pacer {
      && pacer.Valid()
      && |feedback| == |bindings|
      && Ordered(parsed, pacer.now)
      && (forall i | 0 <= i < |bindings| :: feedback[i] == LastParse(parsed, i))
      && framesRead == framesOffered + fullCycles
    }

    constructor (rnd: Rounding, bindings: seq<Binding>, pacer: Pacer)
      requires pacer.Valid()
      ensures Valid() && this.bindings == bindings && this.pacer == pacer && this.rnd == rnd
      ensures parsed == [] && framesRead == 0 && fullCycles == 0 && refusals == 0 && failures == 0
    {
      this.rnd, this.bindings, this.pacer := rnd, bindings, pacer;
      rx, parsed := [], [];
      feedback := seq(|bindings|, _ => NO_FEEDBACK);
      framesRead, framesOffered, fullCycles, refusals, failures := 0, 0, 0, 0, 0;
    }

    /** The bus delivers any frames it likes. */
    method FramesArrive()
      requires Valid()
      modifies this`rx
      ensures Valid() && old(rx) <= rx
    {
      var more: seq<CanMsg> := *;
      rx := rx + more;
    }

    /** PcanChannel::read: takes a frame, or reports an empty queue or a bus error. */
    method Read() returns (sts: ReadStatus, msg: CanMsg)
      requires Valid()
      modifies this`rx, this`refusals, this`failures
      ensures Valid() && failures == old(failures) + if sts == Failed then 1 else 0
      ensures sts == Ok ==> |old(rx)| > 0 && msg == old(rx)[0] && rx == old(rx)[1..] && refusals == old(refusals)
      ensures sts != Ok ==> rx == old(rx) && refusals == old(refusals) + 1
      ensures sts == Empty ==> rx == []
    {
      var broken: bool := *;
      if broken || |rx| == 0 {
        refusals := refusals + 1;
        if broken { failures := failures + 1; }
        return if broken then Failed else Empty, CanMsg(true, 0, 0, ZEROS);
      }
      sts, msg, rx := Ok, rx[0], rx[1..];
    }

    lemma LastParseSnoc(p: Parse, i: nat)
      ensures LastParse(parsed + [p], i) == if p.motor == i then Feedback(p.reading, p.stamp) else LastParse(parsed, i)
    {
      assert (parsed + [p])[..|parsed|] == parsed;
    }

    method Accept(i: nat, r: Reading)
      requires Valid() && i < |bindings|
      modifies this`feedback, this`parsed, pacer`now
      ensures Valid() && pacer.now >= old(pacer.now)
      ensures feedback == old(feedback)[i := Feedback(r, pacer.now)]
      ensures parsed == old(parsed) + [Parse(i, r, pacer.now)]
    {
      var t := pacer.ReadClock();
      ghost var p := Parse(i, r, t.Total());
      forall k | 0 <= k < |bindings| ensures LastParse(parsed + [p], k) == if k == i then Feedback(r, t.Total()) else feedback[k] {
        LastParseSnoc(p, k);
      }
      feedback := feedback[i := Feedback(r, t.Total())];
      parsed := parsed + [p];
    }

    /** Offers one frame to the motors until one accepts it: at most one motor changes. */
    method Offer(msg: CanMsg)
      requires Valid()
      modifies this`feedback, this`parsed, pacer`now
      ensures Valid() && pacer.now >= old(pacer.now) && old(parsed) <= parsed
      ensures Target(rnd, bindings, msg) == |bindings| ==> feedback == old(feedback)
      ensures parsed == old(parsed) + NewParse(rnd, bindings, msg, pacer.now)
      ensures forall i | 0 <= i < |bindings| :: feedback[i] ==
                match Heard(rnd, bindings, msg, i)
                case None => old(feedback)[i]
                case Some(r) => Feedback(r, pacer.now)
    {
      var i := 0;
      while i < |bindings|
        invariant 0 <= i <= |bindings|
        invariant forall k | 0 <= k < i :: ParseFeedback(rnd, bindings[k].motor, msg).None?
      {
        var result := ParseFeedback(rnd, bindings[i].motor, msg);
        if result.Some? {
          assert Target(rnd, bindings, msg) == i;
          Accept(i, result.value);
          return;
        }
        i := i + 1;
      }
    }

    /**
     drain_feedback: the read comes before the cap test, so a 33rd frame is taken from the queue and
     dropped. `n` frames are read, stopping only at a refused read or at 33, and the first 32 are
     offered; every motor ends with the last of those meant for it, or what it had. Unless a read
     `failed`, the whole queue is taken, or 33 frames of it.
     */
    method DrainFeedback() returns (ghost n: nat, ghost news: seq<Parse>, ghost failed: bool)
      requires Valid()
      modifies this, pacer`now
      ensures Valid() && pacer.now >= old(pacer.now) && parsed == old(parsed) + news
      ensures n <= 33 && n <= |old(rx)| && rx == old(rx)[n..]
      ensures !failed ==> n == if |old(rx)| > 33 then 33 else |old(rx)|
      ensures failures == old(failures) + if failed then 1 else 0
      ensures framesRead == old(framesRead) + n
      ensures framesOffered == old(framesOffered) + Capped(n)
      ensures fullCycles == old(fullCycles) + if n == 33 then 1 else 0
      ensures refusals == old(refusals) + if n == 33 then 0 else 1
      ensures failed ==> n < 33
      ensures ParsedFrom(rnd, bindings, old(rx)[..Capped(n)], news) && StampedFrom(news, old(pacer.now))
      ensures forall i | 0 <= i < |bindings| ::
                Drained(feedback[i], LastFor(rnd, bindings, old(rx)[..Capped(n)], i), old(feedback)[i], old(pacer.now))
    {
      n, news, failed := DrainLoop();
      framesRead, framesOffered := framesRead + n, framesOffered + Capped(n);
      fullCycles := fullCycles + n - Capped(n);
      forall i | 0 <= i < |bindings|
        ensures Drained(feedback[i], LastFor(rnd, bindings, old(rx)[..Capped(n)], i), old(feedback)[i], old(pacer.now))
      {
        ParsesDrain(rnd, bindings, old(rx)[..Capped(n)], old(parsed), news, i, old(pacer.now));
      }
    }

    /** The read of frame n of the queue the drain began with. */
    method ReadNext(ghost queue: seq<CanMsg>, ghost n: nat) returns (sts: ReadStatus, msg: CanMsg)
      requires Valid() && n <= |queue| && rx == queue[n..]
      modifies this`rx, this`refusals, this`failures
      ensures Valid() && failures == old(failures) + if sts == Failed then 1 else 0
      ensures sts == Ok ==> n < |queue| && msg == queue[n] && rx == queue[n + 1..] && refusals == old(refusals)
      ensures sts != Ok ==> rx == queue[n..] && refusals == old(refusals) + 1
      ensures sts == Empty ==> rx == []
    {
      sts, msg := Read();
    }

    method DrainLoop() returns (ghost n: nat, ghost news: seq<Parse>, ghost failed: bool)
      requires Valid()
      modifies this`rx, this`refusals, this`failures, this`feedback, this`parsed, pacer`now
      ensures Valid() && pacer.now >= old(pacer.now) && parsed == old(parsed) + news
      ensures n <= 33 && n <= |old(rx)| && rx == old(rx)[n..]
      ensures !failed ==> n == if |old(rx)| > 33 then 33 else |old(rx)|
      ensures failures == old(failures) + if failed then 1 else 0
      ensures refusals == old(refusals) + if n == 33 then 0 else 1
      ensures failed ==> n < 33
      ensures ParsedFrom(rnd, bindings, old(rx)[..Capped(n)], news) && StampedFrom(news, old(pacer.now))
    {
      hide Valid, Ordered, LastParse, NewParse, ParsedFrom, StampedFrom, Target, Heard, ParseFeedback, Pacer.Valid;
      NothingParsed(rnd, bindings, pacer.now);
      ghost var queue := rx;
      var count := 0;
      var sts, msg := ReadNext(queue, 0);
      n, news := if sts == Ok then 1 else 0, [];
      while sts == Ok && count < 32
        invariant Valid() && pacer.now >= old(pacer.now) && parsed == old(parsed) + news
        invariant 0 <= count <= 32 && n == count + (if sts == Ok then 1 else 0) <= |queue| && rx == queue[n..]
        invariant refusals == old(refusals) + if sts == Ok then 0 else 1
        invariant failures == old(failures) + if sts == Failed then 1 else 0
        invariant sts == Ok ==> msg == queue[count]
        invariant sts == Empty ==> rx == []
        invariant ParsedFrom(rnd, bindings, queue[..count], news) && StampedFrom(news, old(pacer.now))
        decreases 32 - count
      {
        Offer(msg);
        ParsedNext(rnd, bindings, queue, count, news, pacer.now, old(pacer.now));
        news := news + NewParse(rnd, bindings, msg, pacer.now);
        count := count + 1;
        sts, msg := ReadNext(queue, n);
        n := n + if sts == Ok then 1 else 0;
      }
      failed := sts == Failed;
    }

    /** The body of publish_state: the channel-local record of every bound motor. */
    method BuildState() returns (s: ChannelState)
      requires Valid() && |bindings| <= 4
      modifies pacer`now
      ensures Valid() && pacer.now >= old(pacer.now) && s.Sized()
      ensures s.numMotors == |bindings| && s.timestamp == pacer.now
      ensures forall i | 0 <= i < |bindings| ::
                && s.joint[i] == bindings[i].joint
                && s.q[i] == feedback[i].reading.position && s.dq[i] == feedback[i].reading.velocity
                && s.tau[i] == feedback[i].reading.torque
                && s.online[i] == OnlineFlag(feedback[i], pacer.now)
    {
      var t := pacer.ReadClock();
      s := EMPTY_CHANNEL.(numMotors := |bindings|, timestamp := t.Total());
      var i := 0;
      while i < |bindings|
        invariant 0 <= i <= |bindings| && s.Sized()
        invariant s.numMotors == |bindings| && s.timestamp == t.Total()
        invariant forall k | 0 <= k < i ::
                    && s.joint[k] == bindings[k].joint
                    && s.q[k] == feedback[k].reading.position && s.dq[k] == feedback[k].reading.velocity
                    && s.tau[k] == feedback[k].reading.torque
                    && s.online[k] == OnlineFlag(feedback[k], t.Total())
      {
        var r := feedback[i].reading;
        s := s.(joint := s.joint[i := bindings[i].joint], q := s.q[i := r.position],
                dq := s.dq[i := r.velocity], tau := s.tau[i := r.torque],
                online := s.online[i := OnlineFlag(feedback[i], t.Total())]);
        i := i + 1;
      }
    }
  }
}
