/** Distributing MOTOR_MAP over the channels and merging the channels back (apps/test_4ch.cpp). */
module Routing {
  import opened Util
  import opened RobotConfig
  import opened SharedState

  // ----- MOTOR_MAP to per-channel bindings -----

  /** The bindings the first n entries of the map push onto a channel. */
  function BindingsOn(entries: seq<MapEntry>, ch: nat, n: nat): seq<Binding>
    requires n <= |entries|
  {
    if n == 0 then []
    else
      BindingsOn(entries, ch, n - 1)
      + if entries[n - 1].channel == ch then [Binding(entries[n - 1].motor, entries[n - 1].joint)] else []
  }

  method Distribute(entries: seq<MapEntry>) returns (perChannel: seq<seq<Binding>>)
    requires forall k | 0 <= k < |entries| :: entries[k].channel < NUM_CHANNELS
    ensures |perChannel| == NUM_CHANNELS
    ensures forall ch | 0 <= ch < NUM_CHANNELS :: perChannel[ch] == BindingsOn(entries, ch, |entries|)
  {
    perChannel := [[], [], [], []];
    for k := 0 to |entries|
      invariant |perChannel| == 4
      invariant forall ch | 0 <= ch < 4 :: perChannel[ch] == BindingsOn(entries, ch, k)
    {
      var e := entries[k];
      perChannel := perChannel[e.channel := perChannel[e.channel] + [Binding(e.motor, e.joint)]];
    }
  }

  /** Entry k becomes binding SlotOf(k) of its channel. */
  function SlotOf(entries: seq<MapEntry>, k: nat): nat
    requires k < |entries|
  {
    |BindingsOn(entries, entries[k].channel, k)|
  }

  lemma {:induction false} BindingsGrow(entries: seq<MapEntry>, ch: nat, m: nat, n: nat)
    requires m <= n <= |entries|
    ensures BindingsOn(entries, ch, m) <= BindingsOn(entries, ch, n)
  {
    if m < n { BindingsGrow(entries, ch, m, n - 1); }
  }

  /** No entry is lost: it sits in its slot with its motor ID and joint. */
  lemma EntryHasSlot(entries: seq<MapEntry>, k: nat)
    requires k < |entries|
    ensures var e, i := entries[k], SlotOf(entries, k);
            var b := BindingsOn(entries, e.channel, |entries|);
            i < |b| && b[i] == Binding(e.motor, e.joint)
  {
    BindingsGrow(entries, entries[k].channel, k + 1, |entries|);
  }

  /** And nothing else is there: every binding of a channel is some entry's. */
  lemma {:induction false} SlotHasEntry(entries: seq<MapEntry>, ch: nat, n: nat, i: nat) returns (k: nat)
    requires n <= |entries| && i < |BindingsOn(entries, ch, n)|
    ensures k < n && entries[k].channel == ch && SlotOf(entries, k) == i
    ensures BindingsOn(entries, ch, n)[i] == Binding(entries[k].motor, entries[k].joint)
  {
    if i < |BindingsOn(entries, ch, n - 1)| {
      k := SlotHasEntry(entries, ch, n - 1, i);
    } else {
      k := n - 1;
    }
  }

  lemma MapSizes()
    ensures forall ch | 0 <= ch < NUM_CHANNELS :: |BindingsOn(MOTOR_MAP, ch, 13)| == (if ch == 1 then 4 else 3)
    ensures forall k | 0 <= k < 13 :: MOTOR_MAP[k].channel < 4 && MOTOR_MAP[k].joint < 13
    ensures forall k, l | 0 <= k < l < 13 :: MOTOR_MAP[k].joint != MOTOR_MAP[l].joint
    ensures forall k, l | 0 <= k < l < 13 && MOTOR_MAP[k].channel == MOTOR_MAP[l].channel ::
              MOTOR_MAP[k].motor != MOTOR_MAP[l].motor
  {
    forall ch | 0 <= ch < 4 ensures |BindingsOn(MOTOR_MAP, ch, 13)| == if ch == 1 then 4 else 3 {
      assert |BindingsOn(MOTOR_MAP, ch, 4)| == if ch == 1 then 4 else 0 by { FourEntries(ch); }
      assert |BindingsOn(MOTOR_MAP, ch, 5)| == if ch == 1 then 4 else if ch == 0 then 1 else 0;
      assert |BindingsOn(MOTOR_MAP, ch, 6)| == if ch == 1 then 4 else if ch == 0 then 2 else 0;
      assert |BindingsOn(MOTOR_MAP, ch, 7)| == if ch == 1 then 4 else if ch == 0 then 3 else 0;
      assert |BindingsOn(MOTOR_MAP, ch, 8)| == if ch == 1 then 4 else if ch == 0 then 3 else if ch == 2 then 1 else 0;
      assert |BindingsOn(MOTOR_MAP, ch, 9)| == if ch == 1 then 4 else if ch == 0 then 3 else if ch == 2 then 2 else 0;
      assert |BindingsOn(MOTOR_MAP, ch, 10)| == if ch == 1 then 4 else if ch == 0 || ch == 2 then 3 else 0;
      assert |BindingsOn(MOTOR_MAP, ch, 11)| == if ch == 1 then 4 else if ch == 0 || ch == 2 then 3 else 1;
      assert |BindingsOn(MOTOR_MAP, ch, 12)| == if ch == 1 then 4 else if ch == 0 || ch == 2 then 3 else 2;
    }
  }

  /** The table in closed form: the motor ID is the joint's number within its side, and the channel follows
      the limb: torso and right hip 1, right knee and ankle 0, left hip 2, left knee and ankle 3. */
  lemma MapClosedForm(k: nat)
    requires k < 13
    ensures var e := MOTOR_MAP[k];
            && e.motor == (if e.joint <= 6 then e.joint else e.joint - 6)
            && e.channel == if e.joint == 0 || 7 <= e.joint <= 9 then 1
                            else if e.joint >= 10 then 0 else if e.joint <= 3 then 2 else 3
  {
  }

  lemma FourEntries(ch: nat)
    ensures |BindingsOn(MOTOR_MAP, ch, 4)| == if ch == 1 then 4 else 0
  {
    assert |BindingsOn(MOTOR_MAP, ch, 1)| == if ch == 1 then 1 else 0;
    assert |BindingsOn(MOTOR_MAP, ch, 2)| == if ch == 1 then 2 else 0;
    assert |BindingsOn(MOTOR_MAP, ch, 3)| == if ch == 1 then 3 else 0;
  }

  // ----- merging -----

  datatype Combined = Combined(q: seq<real>, dq: seq<real>, tau: seq<real>, online: seq<bool>) {
    predicate Sized() { |q| == |dq| == |tau| == |online| == 13 }
  }

  /** What the loops index without checking: every array access of the merge stays inside. */
  predicate Mergeable(cs: seq<ChannelState>) {
    |cs| == 4 && forall ch | 0 <= ch < 4 :: cs[ch].Sized() && cs[ch].numMotors <= 4
  }

  /** The last of the first n motors of a channel that claims joint j. */
  function InChannel(s: ChannelState, n: int, j: int): (r: Option<nat>)
    requires s.Sized() && n <= 4
    ensures r.Some? ==> r.value < n && s.joint[r.value] == j
    ensures r.None? ==> forall i | 0 <= i < n :: s.joint[i] != j
  {
    if n <= 0 then None
    else if s.joint[n - 1] == j then Some(n - 1) else InChannel(s, n - 1, j)
  }

  /** Visiting channels in a given order: the (channel, motor) that writes joint j last. */
  function LastWriter(cs: seq<ChannelState>, order: seq<nat>, j: int): Option<(nat, nat)>
    requires Mergeable(cs) && forall k | 0 <= k < |order| :: order[k] < 4
  {
    if order == [] then None
    else
      var ch := order[|order| - 1];
      match InChannel(cs[ch], cs[ch].numMotors, j)
      case Some(i) => Some((ch, i))
      case None => LastWriter(cs, order[..|order| - 1], j)
  }

  /** Joint j of the merge holds what its last writer said, or zero and offline. */
  predicate Shows(out: Combined, j: nat, cs: seq<ChannelState>, w: Option<(nat, nat)>)
    requires out.Sized() && j < 13 && Mergeable(cs)
    requires w.Some? ==> w.value.0 < 4 && w.value.1 < 4
  {
    match w
    case None => out.q[j] == 0.0 && out.dq[j] == 0.0 && out.tau[j] == 0.0 && !out.online[j]
    case Some((ch, i)) =>
      && out.q[j] == cs[ch].q[i] && out.dq[j] == cs[ch].dq[i]
      && out.tau[j] == cs[ch].tau[i] && out.online[j] == cs[ch].online[i]
  }

  const IN_ORDER: seq<nat> := [0, 1, 2, 3]

  /** Writer of joint j once all channels below ch, and the first n motors of ch, were visited. */
  function WriterAfter(cs: seq<ChannelState>, ch: nat, n: int, j: int): (w: Option<(nat, nat)>)
    requires Mergeable(cs) && ch <= 4 && n <= 4 && (ch == 4 ==> n == 0)
    ensures w.Some? ==> w.value.0 < 4 && w.value.1 < 4
    decreases ch
  {
    var here := if ch < 4 then InChannel(cs[ch], n, j) else None;
    if here.Some? then Some((ch, here.value))
    else if ch == 0 then None else WriterAfter(cs, ch - 1, cs[ch - 1].numMotors, j)
  }

  lemma WriterSteps(cs: seq<ChannelState>, ch: nat, n: int, j: int)
    requires Mergeable(cs) && ch < 4 && n <= 4
    ensures 0 < n ==>
      WriterAfter(cs, ch, n, j) == if cs[ch].joint[n - 1] == j then Some((ch, n - 1)) else WriterAfter(cs, ch, n - 1, j)
    ensures n <= 0 ==> WriterAfter(cs, ch, n, j) == WriterAfter(cs, ch, 0, j)
    ensures WriterAfter(cs, ch + 1, 0, j) == WriterAfter(cs, ch, cs[ch].numMotors, j)
  {
    if ch + 1 < 4 { assert InChannel(cs[ch + 1], 0, j) == None; }
  }

  /** Every joint shows the last of the writers visited so far. */
  ghost predicate AllShow(out: Combined, cs: seq<ChannelState>, ch: nat, n: int)
    requires out.Sized() && Mergeable(cs) && ch <= 4 && n <= 4 && (ch == 4 ==> n == 0)
  {
    forall j | 0 <= j < 13 :: Shows(out, j, cs, WriterAfter(cs, ch, n, j))
  }

  lemma NextChannel(out: Combined, cs: seq<ChannelState>, ch: nat, n: int)
    requires out.Sized() && Mergeable(cs) && ch < 4 && n == (if cs[ch].numMotors < 0 then 0 else cs[ch].numMotors)
    requires AllShow(out, cs, ch, n)
    ensures AllShow(out, cs, ch + 1, 0)
  {
    var next := ch + 1;
    forall j | 0 <= j < 13 ensures Shows(out, j, cs, WriterAfter(cs, next, 0, j)) {
      WriterSteps(cs, ch, cs[ch].numMotors, j);
    }
  }

  /** combine_channels after the four loads. */
  method CombineChannels(cs: seq<ChannelState>) returns (out: Combined)
    requires Mergeable(cs)
    ensures out.Sized()
    ensures AllShow(out, cs, 4, 0)
  {
    out := Combined(seq(13, _ => 0.0), seq(13, _ => 0.0), seq(13, _ => 0.0), seq(13, _ => false));
    var ch := 0;
    while ch < 4
      invariant 0 <= ch <= 4 && out.Sized()
      invariant AllShow(out, cs, ch, 0)
    {
      var i := 0;
      while i < cs[ch].numMotors
        invariant 0 <= i <= 4 && out.Sized() && (i <= cs[ch].numMotors || i == 0)
        invariant AllShow(out, cs, ch, i)
      {
        out := WriteJoint(out, cs, ch, i);
        i := i + 1;
      }
      NextChannel(out, cs, ch, i);
      ch := ch + 1;
    }
  }

  /** The body of the inner loop: a joint index outside 0..12 is skipped. */
  method WriteJoint(before: Combined, cs: seq<ChannelState>, ch: nat, i: nat) returns (out: Combined)
    requires Mergeable(cs) && before.Sized() && ch < 4 && i < cs[ch].numMotors
    requires AllShow(before, cs, ch, i)
    ensures out.Sized() && AllShow(out, cs, ch, i + 1)
  {
    out := before;
    var j := cs[ch].joint[i];
    if 0 <= j < NUM_JOINTS {
      out := out.(q := out.q[j := cs[ch].q[i]], dq := out.dq[j := cs[ch].dq[i]],
                  tau := out.tau[j := cs[ch].tau[i]], online := out.online[j := cs[ch].online[i]]);
    }
    var n := i + 1;
    forall k | 0 <= k < 13 ensures Shows(out, k, cs, WriterAfter(cs, ch, n, k)) {
      WriterSteps(cs, ch, n, k);
    }
  }

  /** The loops visit the channels in the order 0, 1, 2, 3. */
  lemma {:induction false} WriterIsLastInOrder(cs: seq<ChannelState>, ch: nat, j: int)
    requires Mergeable(cs) && ch <= 4
    ensures WriterAfter(cs, ch, 0, j) == LastWriter(cs, IN_ORDER[..ch], j)
  {
    if ch > 0 {
      assert IN_ORDER[..ch][..ch - 1] == IN_ORDER[..ch - 1];
      WriterIsLastInOrder(cs, ch - 1, j);
      if ch < 4 { assert InChannel(cs[ch], 0, j) == None; }
      assert WriterAfter(cs, ch, 0, j) == WriterAfter(cs, ch - 1, cs[ch - 1].numMotors, j);
    }
  }

  /** (ch, i) is the only motor record that claims joint j. */
  predicate SoleWriter(cs: seq<ChannelState>, ch: nat, i: nat, j: int)
    requires Mergeable(cs)
  {
    && ch < 4 && i < 4 && i < cs[ch].numMotors && cs[ch].joint[i] == j
    && forall c, k | 0 <= c < 4 && 0 <= k < cs[c].numMotors && cs[c].joint[k] == j :: c == ch && k == i
  }

  /** With a sole writer the visiting order does not matter. */
  lemma {:induction false} SoleWriterWins(cs: seq<ChannelState>, order: seq<nat>, ch: nat, i: nat, j: int)
    requires Mergeable(cs) && SoleWriter(cs, ch, i, j)
    requires (forall k | 0 <= k < |order| :: order[k] < 4) && ch in order
    ensures LastWriter(cs, order, j) == Some((ch, i))
  {
    var n := |order| - 1;
    if order[n] != ch {
      assert order == order[..n] + [order[n]];
      SoleWriterWins(cs, order[..n], ch, i, j);
    }
  }

  /** A joint no record claims has no writer. */
  lemma {:induction false} NoClaimNoWriter(cs: seq<ChannelState>, order: seq<nat>, j: int)
    requires Mergeable(cs) && (forall k | 0 <= k < |order| :: order[k] < 4)
    requires forall c, l | 0 <= c < 4 && 0 <= l < cs[c].numMotors :: cs[c].joint[l] != j
    ensures LastWriter(cs, order, j) == None
  {
    if order != [] { NoClaimNoWriter(cs, order[..|order| - 1], j); }
  }
}
