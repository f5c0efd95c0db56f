/** The round-robin of poll_disabled_positions (apps/position_read.cpp), and why it is fair. */
module Polling {
  import opened Util
  import opened Wire
  import opened HoldTrace
  import opened Hold

  predicate Eligible(m: Motor, ch: nat) { m.ch == ch && !m.enabled }

  function Next(c: nat, n: nat): nat { if c + 1 >= n then 0 else c + 1 }

  /** The first eligible motor among the next `steps` from c on, cyclically. */
  function Pick(motors: seq<Motor>, ch: nat, c: nat, steps: nat): (p: Option<nat>)
    requires c < |motors|
    ensures p.Some? ==> p.value < |motors| && Eligible(motors[p.value], ch)
    decreases steps
  {
    if steps == 0 then None
    else if Eligible(motors[c], ch) then Some(c)
    else Pick(motors, ch, Next(c, |motors|), steps - 1)
  }

  /** The cursor after one poll of an open channel. */
  function AfterPoll(motors: seq<Motor>, ch: nat, c: nat): nat {
    if c >= |motors| then c
    else
      match Pick(motors, ch, c, |motors|)
      case Some(i) => Next(i, |motors|)
      case None => c
  }

  /** The index arithmetic of the loop, modulo the number of motors. */
  function Slot(c: nat, k: nat, n: nat): (s: nat)
    requires n > 0
    ensures s < n
  {
    (c + k) % n
  }

  lemma FirstSlot(c: nat, n: nat)
    requires c < n
    ensures Slot(c, 0, n) == c
  {
    Divides(0, c, n, c);
  }

  lemma NextSlot(c: nat, k: nat, n: nat)
    requires c < n && k < n
    ensures var s := Slot(c, k, n); Next(s, n) == Slot(c, k + 1, n) && Next(s, n) == Slot(s, 1, n)
  {
    if c + k < n { Divides(0, c + k, n, c + k); } else { Divides(1, c + k - n, n, c + k); }
    var s := Slot(c, k, n);
    if s + 1 < n { Divides(0, s + 1, n, s + 1); } else { Divides(1, 0, n, n); }
    if c + k + 1 < n { Divides(0, c + k + 1, n, c + k + 1); }
    else if c + k + 1 < 2 * n { Divides(1, c + k + 1 - n, n, c + k + 1); }
  }

  // ----- fairness -----

  /** Motors of channel ch met when walking from c, cyclically, up to but not including i. */
  function Ahead(chs: seq<nat>, ch: nat, c: nat, i: nat): nat
    requires c < |chs| && i < |chs|
    decreases if c <= i then i - c else i + |chs| - c
  {
    if c == i then 0 else (if chs[c] == ch then 1 else 0) + Ahead(chs, ch, Next(c, |chs|), i)
  }

  function Count(chs: seq<nat>, ch: nat): nat {
    if chs == [] then 0 else Count(chs[..|chs| - 1], ch) + if chs[|chs| - 1] == ch then 1 else 0
  }

  function Chs(motors: seq<Motor>): (s: seq<nat>)
    ensures |s| == |motors| && forall i | 0 <= i < |motors| :: s[i] == motors[i].ch
  {
    seq(|motors|, i requires 0 <= i < |motors| => motors[i].ch)
  }

  lemma ChsSame(a: seq<Motor>, b: seq<Motor>)
    requires |a| == |b| && forall i | 0 <= i < |a| :: a[i].ch == b[i].ch && a[i].id == b[i].id
    ensures Chs(a) == Chs(b)
  {
  }

  /** Walking forward without wrapping, Ahead counts a slice. */
  lemma {:induction false} AheadStraight(chs: seq<nat>, ch: nat, c: nat, i: nat)
    requires c <= i < |chs|
    ensures Ahead(chs, ch, c, i) + Count(chs[..c], ch) == Count(chs[..i], ch)
    decreases i - c
  {
    if c < i {
      AheadStraight(chs, ch, c + 1, i);
      assert chs[..c + 1][..c] == chs[..c];
    }
  }

  /** Walking round the end: the tail from c, then the head up to i. */
  lemma {:induction false} AheadAround(chs: seq<nat>, ch: nat, c: nat, i: nat)
    requires i < c < |chs|
    ensures Ahead(chs, ch, c, i) + Count(chs[..c], ch) == Count(chs, ch) + Count(chs[..i], ch)
    decreases |chs| - c
  {
    assert chs[..c + 1][..c] == chs[..c];
    if c + 1 < |chs| {
      AheadAround(chs, ch, c + 1, i);
    } else {
      assert chs[..c + 1] == chs;
      AheadStraight(chs, ch, 0, i);
      assert Next(c, |chs|) == 0 && chs[..0] == [];
      assert Ahead(chs, ch, c, i) == (if chs[c] == ch then 1 else 0) + Ahead(chs, ch, 0, i);
    }
  }

  lemma {:induction false} CountMonotone(chs: seq<nat>, ch: nat, a: nat, b: nat)
    requires a <= b <= |chs|
    ensures Count(chs[..a], ch) <= Count(chs[..b], ch)
  {
    if a < b {
      CountMonotone(chs, ch, a, b - 1);
      assert chs[..b][..b - 1] == chs[..b - 1];
    }
  }

  /** At most the other motors of the channel can be ahead of motor i. */
  lemma AheadBounded(chs: seq<nat>, ch: nat, c: nat, i: nat)
    requires c < |chs| && i < |chs| && chs[i] == ch
    ensures Ahead(chs, ch, c, i) < Count(chs, ch)
  {
    assert chs[..i + 1][..i] == chs[..i];
    assert chs[..|chs|] == chs;
    if c <= i {
      AheadStraight(chs, ch, c, i);
      CountMonotone(chs, ch, i + 1, |chs|);
    } else {
      AheadAround(chs, ch, c, i);
      CountMonotone(chs, ch, i + 1, c);
    }
  }

  function Distance(c: nat, i: nat, n: nat): int { if c <= i then i - c else i + n - c }

  /** A poll that passes over the waiting motor i lands on a motor that was ahead of it. */
  lemma {:induction false} PickComesCloser(motors: seq<Motor>, ch: nat, c: nat, steps: nat, i: nat)
    requires c < |motors| && i < |motors| && Eligible(motors[i], ch) && Distance(c, i, |motors|) < steps
    ensures var p := Pick(motors, ch, c, steps);
            && p.Some?
            && (p.value != i ==>
                  Ahead(Chs(motors), ch, Next(p.value, |motors|), i) < Ahead(Chs(motors), ch, c, i))
    decreases steps
  {
    if !Eligible(motors[c], ch) {
      PickComesCloser(motors, ch, Next(c, |motors|), steps - 1, i);
    }
  }

  /** The cursor of an open channel before poll t, when polls see the motors as ms[0], ms[1], ... */
  function CursorAt(ms: seq<seq<Motor>>, ch: nat, c0: nat, t: nat): nat
    requires t <= |ms|
  {
    if t == 0 then c0 else AfterPoll(ms[t - 1], ch, CursorAt(ms, ch, c0, t - 1))
  }

  ghost predicate SameMotors(ms: seq<seq<Motor>>, chs: seq<nat>) {
    forall t | 0 <= t < |ms| :: Chs(ms[t]) == chs
  }

  lemma {:induction false} CursorInRange(ms: seq<seq<Motor>>, chs: seq<nat>, ch: nat, c0: nat, t: nat)
    requires SameMotors(ms, chs) && c0 < |chs| && t <= |ms|
    ensures CursorAt(ms, ch, c0, t) < |chs|
  {
    if t > 0 {
      CursorInRange(ms, chs, ch, c0, t - 1);
      assert Chs(ms[t - 1]) == chs;
    }
  }

  /** Poll t requests motor i. */
  predicate Requests(ms: seq<seq<Motor>>, ch: nat, c0: nat, t: nat, i: nat)
    requires t < |ms|
  {
    var c := CursorAt(ms, ch, c0, t);
    c < |ms[t]| && Pick(ms[t], ch, c, |ms[t]|) == Some(i)
  }

  /** At poll t motor i is disabled. */
  predicate Waiting(ms: seq<seq<Motor>>, i: nat, t: nat)
    requires t < |ms|
  {
    i < |ms[t]| && !ms[t][i].enabled
  }

  predicate PassedOver(ms: seq<seq<Motor>>, ch: nat, c0: nat, i: nat, t: nat)
    requires t < |ms|
  {
    Waiting(ms, i, t) && !Requests(ms, ch, c0, t, i)
  }

  /** How many motors are still ahead of motor i before poll t. */
  function Queue(ms: seq<seq<Motor>>, chs: seq<nat>, ch: nat, c0: nat, i: nat, t: nat): nat
    requires i < |chs| && t <= |ms|
  {
    var c := CursorAt(ms, ch, c0, t);
    if c < |chs| then Ahead(chs, ch, c, i) else 0
  }

  lemma PassingShortens(ms: seq<seq<Motor>>, chs: seq<nat>, ch: nat, c0: nat, i: nat, t: nat)
    requires SameMotors(ms, chs) && c0 < |chs| && i < |chs| && chs[i] == ch && t < |ms|
    requires PassedOver(ms, ch, c0, i, t)
    ensures Queue(ms, chs, ch, c0, i, t + 1) < Queue(ms, chs, ch, c0, i, t)
  {
    CursorInRange(ms, chs, ch, c0, t);
    CursorInRange(ms, chs, ch, c0, t + 1);
    assert Chs(ms[t]) == chs;
    PickComesCloser(ms[t], ch, CursorAt(ms, ch, c0, t), |chs|, i);
  }

  lemma {:induction false} WaitingShrinks(ms: seq<seq<Motor>>, chs: seq<nat>, ch: nat, c0: nat, i: nat, a: nat, t: nat)
    requires SameMotors(ms, chs) && c0 < |chs| && i < |chs| && chs[i] == ch && a <= t <= |ms|
    requires forall u | a <= u < t :: PassedOver(ms, ch, c0, i, u)
    ensures Queue(ms, chs, ch, c0, i, t) + (t - a) <= Queue(ms, chs, ch, c0, i, a)
  {
    if a < t {
      WaitingShrinks(ms, chs, ch, c0, i, a, t - 1);
      PassingShortens(ms, chs, ch, c0, i, t - 1);
    }
  }

  /**
   Fairness: a motor that stays disabled on an open channel is asked for its position in any window
   of k consecutive polls, k being the number of motors on its channel, however the others toggle.
   */
  lemma PolledWithinK(ms: seq<seq<Motor>>, chs: seq<nat>, ch: nat, c0: nat, i: nat, a: nat)
    requires SameMotors(ms, chs) && c0 < |chs| && i < |chs| && chs[i] == ch
    requires a + Count(chs, ch) <= |ms|
    requires forall u | a <= u < a + Count(chs, ch) :: Waiting(ms, i, u)
    ensures exists u | a <= u < a + Count(chs, ch) :: Requests(ms, ch, c0, u, i)
  {
    var b := a + Count(chs, ch);
    if forall u | a <= u < b :: !Requests(ms, ch, c0, u, i) {
      forall u | a <= u < b ensures PassedOver(ms, ch, c0, i, u) {
        assert Waiting(ms, i, u);
      }
      CursorInRange(ms, chs, ch, c0, a);
      AheadBounded(chs, ch, CursorAt(ms, ch, c0, a), i);
      WaitingShrinks(ms, chs, ch, c0, i, a, b);
    }
  }

  // ----- a whole run's polls on the bus -----

  /** poll_cursors before poll t; a channel that never opened keeps its zero. */
  function CursorsAt(ms: seq<seq<Motor>>, open: seq<bool>, t: nat): (c: seq<nat>)
    requires |open| == 4 && t <= |ms|
    ensures |c| == 4 && forall ch | 0 <= ch < 4 :: c[ch] == if open[ch] then CursorAt(ms, ch, 0, t) else 0
  {
    seq(4, ch requires 0 <= ch < 4 => if open[ch] then CursorAt(ms, ch, 0, t) else 0)
  }

  lemma {:induction false} CursorAtPrefix(ms: seq<seq<Motor>>, more: seq<seq<Motor>>, ch: nat, t: nat)
    requires t <= |ms| && ms <= more
    ensures CursorAt(more, ch, 0, t) == CursorAt(ms, ch, 0, t)
  {
    if t > 0 { CursorAtPrefix(ms, more, ch, t - 1); }
  }

  lemma CursorsAdvance(ms: seq<seq<Motor>>, open: seq<bool>, m: seq<Motor>, next: seq<nat>)
    requires |open| == |next| == 4
    requires forall ch | 0 <= ch < 4 ::
      next[ch] == if open[ch] then AfterPoll(m, ch, CursorsAt(ms, open, |ms|)[ch]) else CursorsAt(ms, open, |ms|)[ch]
    ensures next == CursorsAt(ms + [m], open, |ms| + 1)
  {
    forall ch | 0 <= ch < 4 ensures next[ch] == CursorsAt(ms + [m], open, |ms| + 1)[ch] {
      CursorAtPrefix(ms, ms + [m], ch, |ms|);
      assert (ms + [m])[|ms|] == m;
    }
  }

  lemma CursorsStayInRange(ms: seq<seq<Motor>>, open: seq<bool>, chs: seq<nat>, t: nat)
    requires |open| == 4 && SameMotors(ms, chs) && chs != [] && t <= |ms|
    ensures forall ch | 0 <= ch < 4 :: CursorsAt(ms, open, t)[ch] < |chs|
  {
    forall ch | 0 <= ch < 4 ensures CursorsAt(ms, open, t)[ch] < |chs| {
      CursorInRange(ms, chs, ch, 0, t);
    }
  }

  /** The frame one poll of a channel attempts: at most one request. */
  predicate ChannelAsked(motors: seq<Motor>, isOpen: bool, ch: nat, c: nat, events: seq<Event>) {
    if !isOpen || c >= |motors| then events == []
    else
      match Pick(motors, ch, c, |motors|)
      case None => events == []
      case Some(i) => |events| == 1 && Attempts(events[0], ch, motors[i].id, ReadMechPos)
  }

  /** The frames of one poll, channel by channel. */
  predicate PollAsked(motors: seq<Motor>, open: seq<bool>, cursors: seq<nat>, parts: seq<seq<Event>>) {
    && |open| == |cursors| == |parts| == 4
    && forall ch | 0 <= ch < 4 :: ChannelAsked(motors, open[ch], ch, cursors[ch], parts[ch])
  }

  /** Channels below n have been polled; the others' cursors are untouched. */
  ghost predicate PolledUpTo(motors: seq<Motor>, open: seq<bool>, before: seq<nat>, after: seq<nat>,
                             parts: seq<seq<Event>>, n: nat)
  {
    && |open| == |before| == |after| == 4 && |parts| == n <= 4
    && (forall c | 0 <= c < n :: ChannelAsked(motors, open[c], c, before[c], parts[c]))
    && (forall c | 0 <= c < n :: after[c] == if open[c] then AfterPoll(motors, c, before[c]) else before[c])
    && (forall c | n <= c < 4 :: after[c] == before[c])
  }

  lemma PolledNone(motors: seq<Motor>, open: seq<bool>, before: seq<nat>)
    requires |open| == |before| == 4
    ensures PolledUpTo(motors, open, before, before, [], 0) && Flatten([]) == []
  {
  }

  lemma CursorUntouched(motors: seq<Motor>, open: seq<bool>, before: seq<nat>, after: seq<nat>, parts: seq<seq<Event>>, n: nat)
    requires PolledUpTo(motors, open, before, after, parts, n) && n < 4
    ensures |after| == |before| == 4 && after[n] == before[n]
  {
  }

  lemma PolledStep(motors: seq<Motor>, open: seq<bool>, before: seq<nat>, mid: seq<nat>, after: seq<nat>,
                   parts: seq<seq<Event>>, n: nat, asked: seq<Event>)
    requires n < 4 && PolledUpTo(motors, open, before, mid, parts, n)
    requires if open[n] && motors != [] then
               ChannelAsked(motors, true, n, mid[n], asked) && after == mid[n := AfterPoll(motors, n, mid[n])]
             else asked == [] && after == mid
    ensures PolledUpTo(motors, open, before, after, parts + [asked], n + 1)
    ensures Flatten(parts + [asked]) == Flatten(parts) + asked
  {
    assert mid[n] == before[n];
    assert (parts + [asked])[..n] == parts;
  }

  lemma PolledAll(motors: seq<Motor>, open: seq<bool>, before: seq<nat>, after: seq<nat>, parts: seq<seq<Event>>)
    requires PolledUpTo(motors, open, before, after, parts, 4)
    ensures PollAsked(motors, open, before, parts)
    ensures forall c | 0 <= c < 4 :: after[c] == if open[c] then AfterPoll(motors, c, before[c]) else before[c]
  {
  }

  function Flatten(parts: seq<seq<Event>>): seq<Event> {
    if parts == [] then [] else Flatten(parts[..|parts| - 1]) + parts[|parts| - 1]
  }

  /** The poll's frames stand in the log from mark on. */
  ghost predicate PollAt(log: seq<Event>, mark: nat, parts: seq<seq<Event>>, m: seq<Motor>, open: seq<bool>, cursors: seq<nat>) {
    && mark + |Flatten(parts)| <= |log| && log[mark..mark + |Flatten(parts)|] == Flatten(parts)
    && PollAsked(m, open, cursors, parts)
  }

  /** asks[t] is what poll t put on the bus, and the polls' frames stand in the log in order. */
  ghost predicate PollsLogged(log: seq<Event>, asks: seq<seq<seq<Event>>>, ms: seq<seq<Motor>>, open: seq<bool>)
    requires |open| == 4
    decreases |asks|
  {
    && |asks| == |ms|
    && (asks == [] ||
        var t := |asks| - 1;
        exists mark: nat | mark <= |log| ::
          && PollAt(log, mark, asks[t], ms[t], open, CursorsAt(ms, open, t))
          && PollsLogged(log[..mark], asks[..t], ms[..t], open))
  }

  lemma NothingPolled(log: seq<Event>, ms: seq<seq<Motor>>, open: seq<bool>)
    requires |open| == 4 && ms == []
    ensures PollsLogged(log, [], ms, open) && CursorsAt(ms, open, 0) == [0, 0, 0, 0]
  {
  }

  lemma PollsLoggedGrow(log: seq<Event>, more: seq<Event>, asks: seq<seq<seq<Event>>>, ms: seq<seq<Motor>>, open: seq<bool>)
    requires |open| == 4 && PollsLogged(log, asks, ms, open) && log <= more
    ensures PollsLogged(more, asks, ms, open)
  {
    if asks != [] {
      var t := |asks| - 1;
      var mark: nat :| mark <= |log| && PollAt(log, mark, asks[t], ms[t], open, CursorsAt(ms, open, t))
        && PollsLogged(log[..mark], asks[..t], ms[..t], open);
      PollAtGrow(log, more, mark, asks[t], ms[t], open, CursorsAt(ms, open, t));
      assert more[..mark] == log[..mark];
    }
  }

  lemma PollAtGrow(log: seq<Event>, more: seq<Event>, mark: nat, parts: seq<seq<Event>>, m: seq<Motor>, open: seq<bool>,
                   cursors: seq<nat>)
    requires PollAt(log, mark, parts, m, open, cursors) && log <= more
    ensures PollAt(more, mark, parts, m, open, cursors)
  {
    var n := mark + |Flatten(parts)|;
    assert more[mark..n] == log[mark..n];
  }

  lemma CursorsAtPrefix(ms: seq<seq<Motor>>, more: seq<seq<Motor>>, open: seq<bool>, t: nat)
    requires |open| == 4 && t <= |ms| && ms <= more
    ensures CursorsAt(more, open, t) == CursorsAt(ms, open, t)
  {
    forall ch | 0 <= ch < 4 ensures CursorsAt(more, open, t)[ch] == CursorsAt(ms, open, t)[ch] {
      CursorAtPrefix(ms, more, ch, t);
    }
  }

  lemma PollsLoggedSnoc(log: seq<Event>, asks: seq<seq<seq<Event>>>, ms: seq<seq<Motor>>, open: seq<bool>,
                        parts: seq<seq<Event>>, m: seq<Motor>)
    requires |open| == 4 && PollsLogged(log, asks, ms, open)
    requires PollAsked(m, open, CursorsAt(ms, open, |ms|), parts)
    ensures PollsLogged(log + Flatten(parts), asks + [parts], ms + [m], open)
  {
    NewPollAt(log, parts, m, open, CursorsAt(ms, open, |ms|));
    CursorsAtPrefix(ms, ms + [m], open, |ms|);
    hide PollsLogged, PollAt, CursorsAt;
    assert (log + Flatten(parts))[..|log|] == log;
    PollsLoggedLast(log + Flatten(parts), asks, ms, open, |log|, parts, m);
  }

  lemma PollsLoggedLast(log: seq<Event>, asks: seq<seq<seq<Event>>>, ms: seq<seq<Motor>>, open: seq<bool>, mark: nat,
                        parts: seq<seq<Event>>, m: seq<Motor>)
    requires |open| == 4 && mark <= |log| && PollsLogged(log[..mark], asks, ms, open)
    requires PollAt(log, mark, parts, m, open, CursorsAt(ms + [m], open, |ms|))
    ensures PollsLogged(log, asks + [parts], ms + [m], open)
  {
    hide PollAt, CursorsAt;
    var as', ms' := asks + [parts], ms + [m];
    var t := |as'| - 1;
    assert as'[..t] == asks && ms'[..t] == ms;
    assert as'[t] == parts && ms'[t] == m;
  }

  lemma NewPollAt(log: seq<Event>, parts: seq<seq<Event>>, m: seq<Motor>, open: seq<bool>, cursors: seq<nat>)
    requires PollAsked(m, open, cursors, parts)
    ensures PollAt(log + Flatten(parts), |log|, parts, m, open, cursors)
  {
    hide PollAsked;
    var l := log + Flatten(parts);
    assert l[|log|..|log| + |Flatten(parts)|] == Flatten(parts);
  }

  lemma {:induction false} InFlatten(parts: seq<seq<Event>>, ch: nat) returns (k: nat)
    requires ch < |parts| && |parts[ch]| == 1
    ensures k < |Flatten(parts)| && Flatten(parts)[k] == parts[ch][0]
  {
    var n := |parts| - 1;
    if ch == n {
      k := |Flatten(parts[..n])|;
    } else {
      k := InFlatten(parts[..n], ch);
    }
  }

  lemma RequestInPoll(log: seq<Event>, mark: nat, parts: seq<seq<Event>>, ms: seq<seq<Motor>>, open: seq<bool>,
                      ch: nat, t: nat, i: nat) returns (p: nat)
    requires |open| == 4 && ch < 4 && open[ch] && t < |ms| && Requests(ms, ch, 0, t, i)
    requires PollAt(log, mark, parts, ms[t], open, CursorsAt(ms, open, t))
    ensures mark <= p < |log| && Attempts(log[p], ch, ms[t][i].id, ReadMechPos)
  {
    assert ChannelAsked(ms[t], open[ch], ch, CursorsAt(ms, open, t)[ch], parts[ch]);
    var k := InFlatten(parts, ch);
    p := mark + k;
    assert log[p] == log[mark..mark + |Flatten(parts)|][k];
  }

  /** A poll that requests motor i puts the request on the bus, after the frames of all earlier polls. */
  lemma {:induction false} RequestOnTheBus(log: seq<Event>, asks: seq<seq<seq<Event>>>, ms: seq<seq<Motor>>, open: seq<bool>,
                                           ch: nat, t: nat, i: nat) returns (mark: nat, p: nat)
    requires |open| == 4 && ch < 4 && open[ch] && PollsLogged(log, asks, ms, open)
    requires t < |ms| && Requests(ms, ch, 0, t, i)
    ensures mark <= p < |log| && PollsLogged(log[..mark], asks[..t], ms[..t], open)
    ensures Attempts(log[p], ch, ms[t][i].id, ReadMechPos)
    decreases |ms|
  {
    hide PollAt;
    var n := |asks| - 1;
    mark :| mark <= |log| && PollAt(log, mark, asks[n], ms[n], open, CursorsAt(ms, open, n))
      && PollsLogged(log[..mark], asks[..n], ms[..n], open);
    if t == n {
      p := RequestInPoll(log, mark, asks[n], ms, open, ch, n, i);
    } else {
      var m := mark;
      EarlierRequest(ms, ch, t, i);
      assert asks[..n][..t] == asks[..t] && ms[..n][..t] == ms[..t];
      mark, p := RequestOnTheBus(log[..m], asks[..n], ms[..n], open, ch, t, i);
      assert log[..m][..mark] == log[..mark];
    }
  }

  lemma EarlierRequest(ms: seq<seq<Motor>>, ch: nat, t: nat, i: nat)
    requires t + 1 < |ms| && Requests(ms, ch, 0, t, i)
    ensures Requests(ms[..|ms| - 1], ch, 0, t, i)
  {
    var n := |ms| - 1;
    CursorAtPrefix(ms[..n], ms, ch, t);
  }

  /**
   Fairness on the bus: while motor i of an open channel stays disabled, any k consecutive polls, k
   being the number of motors on the channel, put a position request to it on the bus.
   */
  lemma PolledOnTheBus(log: seq<Event>, asks: seq<seq<seq<Event>>>, ms: seq<seq<Motor>>, open: seq<bool>,
                       chs: seq<nat>, ch: nat, i: nat, a: nat) returns (u: nat, mark: nat, p: nat)
    requires |open| == 4 && ch < 4 && open[ch] && PollsLogged(log, asks, ms, open)
    requires SameMotors(ms, chs) && i < |chs| && chs[i] == ch && a + Count(chs, ch) <= |ms|
    requires forall u | a <= u < a + Count(chs, ch) :: Waiting(ms, i, u)
    ensures a <= u < a + Count(chs, ch) && i < |ms[u]|
    ensures mark <= p < |log| && PollsLogged(log[..mark], asks[..u], ms[..u], open)
    ensures Attempts(log[p], ch, ms[u][i].id, ReadMechPos)
  {
    PolledWithinK(ms, chs, ch, 0, i, a);
    u :| a <= u < a + Count(chs, ch) && Requests(ms, ch, 0, u, i);
    mark, p := RequestOnTheBus(log, asks, ms, open, ch, u, i);
  }
}
