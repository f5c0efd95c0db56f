/** ChannelState and ActionState (include/shared_state.hpp), and the words a seqlock copies them in. */
module SharedState {

  datatype Word = Num(i: int) | Real(r: real) | Flag(b: bool)

  function AsInt(w: Word): int { if w.Num? then w.i else 0 }
  function AsReal(w: Word): real { if w.Real? then w.r else 0.0 }
  function AsBool(w: Word): bool { w.Flag? && w.b }

  function Nums(s: seq<int>): seq<Word> { seq(|s|, k requires 0 <= k < |s| => Num(s[k])) }
  function Reals(s: seq<real>): seq<Word> { seq(|s|, k requires 0 <= k < |s| => Real(s[k])) }
  function Flags(s: seq<bool>): seq<Word> { seq(|s|, k requires 0 <= k < |s| => Flag(s[k])) }

  function Ints(w: seq<Word>): seq<int> { seq(|w|, k requires 0 <= k < |w| => AsInt(w[k])) }
  function Floats(w: seq<Word>): seq<real> { seq(|w|, k requires 0 <= k < |w| => AsReal(w[k])) }
  function Bools(w: seq<Word>): seq<bool> { seq(|w|, k requires 0 <= k < |w| => AsBool(w[k])) }

  datatype ChannelState = ChannelState(numMotors: int, joint: seq<int>, q: seq<real>, dq: seq<real>,
                                       tau: seq<real>, online: seq<bool>, timestamp: int)
  {
    /** The std::array members all have MAX_MOTORS_PER_CHANNEL elements. */
    predicate Sized() { |joint| == |q| == |dq| == |tau| == |online| == 4 }
  }

  const EMPTY_CHANNEL := ChannelState(0, [0, 0, 0, 0], [0.0, 0.0, 0.0, 0.0], [0.0, 0.0, 0.0, 0.0],
                                      [0.0, 0.0, 0.0, 0.0], [false, false, false, false], 0)

  function ChannelWords(s: ChannelState): (w: seq<Word>)
    requires s.Sized()
    ensures |w| == 22
  {
    [Num(s.numMotors), Num(s.timestamp)] + Nums(s.joint) + Reals(s.q) + Reals(s.dq) + Reals(s.tau) + Flags(s.online)
  }

  function ChannelOf(w: seq<Word>): (s: ChannelState)
    requires |w| == 22
    ensures s.Sized()
  {
    ChannelState(AsInt(w[0]), Ints(w[2..6]), Floats(w[6..10]), Floats(w[10..14]), Floats(w[14..18]),
                 Bools(w[18..22]), AsInt(w[1]))
  }

  /** A section of a word sequence is found where the words before it end. */
  lemma Section(before: seq<Word>, section: seq<Word>, after: seq<Word>, w: seq<Word>)
    requires w == before + section + after
    ensures w[|before|..|before| + |section|] == section
  {
  }

  lemma Back(ints: seq<int>, reals: seq<real>, bools: seq<bool>)
    ensures Ints(Nums(ints)) == ints && Floats(Reals(reals)) == reals && Bools(Flags(bools)) == bools
  {
  }

  lemma ChannelSections(s: ChannelState)
    requires s.Sized()
    ensures var w := ChannelWords(s);
            && w[2..6] == Nums(s.joint) && w[6..10] == Reals(s.q) && w[10..14] == Reals(s.dq)
            && w[14..18] == Reals(s.tau) && w[18..22] == Flags(s.online)
  {
    var w, header := ChannelWords(s), [Num(s.numMotors), Num(s.timestamp)];
    Section(header, Nums(s.joint), Reals(s.q) + Reals(s.dq) + Reals(s.tau) + Flags(s.online), w);
    Section(header + Nums(s.joint), Reals(s.q), Reals(s.dq) + Reals(s.tau) + Flags(s.online), w);
    Section(header + Nums(s.joint) + Reals(s.q), Reals(s.dq), Reals(s.tau) + Flags(s.online), w);
    Section(header + Nums(s.joint) + Reals(s.q) + Reals(s.dq), Reals(s.tau), Flags(s.online), w);
    Section(header + Nums(s.joint) + Reals(s.q) + Reals(s.dq) + Reals(s.tau), Flags(s.online), [], w);
  }

  lemma ChannelRoundTrip(s: ChannelState)
    requires s.Sized()
    ensures ChannelOf(ChannelWords(s)) == s
  {
    hide Ints, Floats, Bools, Nums, Reals, Flags;
    ChannelSections(s);
    Back(s.joint, s.q, s.online);
    Back([], s.dq, []);
    Back([], s.tau, []);
  }

  datatype ActionState = ActionState(q: seq<real>, dq: seq<real>, kp: seq<real>, kd: seq<real>,
                                     tau: seq<real>, timestamp: int, valid: bool)
  {
    predicate Sized() { |q| == |dq| == |kp| == |kd| == |tau| == 13 }
  }

  function ActionWords(a: ActionState): (w: seq<Word>)
    requires a.Sized()
    ensures |w| == 67
  {
    [Num(a.timestamp), Flag(a.valid)] + Reals(a.q) + Reals(a.dq) + Reals(a.kp) + Reals(a.kd) + Reals(a.tau)
  }

  function ActionOf(w: seq<Word>): (a: ActionState)
    requires |w| == 67
    ensures a.Sized()
  {
    ActionState(Floats(w[2..15]), Floats(w[15..28]), Floats(w[28..41]), Floats(w[41..54]), Floats(w[54..67]),
                AsInt(w[0]), AsBool(w[1]))
  }

  lemma ActionSections(a: ActionState)
    requires a.Sized()
    ensures var w := ActionWords(a);
            && w[2..15] == Reals(a.q) && w[15..28] == Reals(a.dq) && w[28..41] == Reals(a.kp)
            && w[41..54] == Reals(a.kd) && w[54..67] == Reals(a.tau)
  {
    var w, header := ActionWords(a), [Num(a.timestamp), Flag(a.valid)];
    Section(header, Reals(a.q), Reals(a.dq) + Reals(a.kp) + Reals(a.kd) + Reals(a.tau), w);
    Section(header + Reals(a.q), Reals(a.dq), Reals(a.kp) + Reals(a.kd) + Reals(a.tau), w);
    Section(header + Reals(a.q) + Reals(a.dq), Reals(a.kp), Reals(a.kd) + Reals(a.tau), w);
    Section(header + Reals(a.q) + Reals(a.dq) + Reals(a.kp), Reals(a.kd), Reals(a.tau), w);
    Section(header + Reals(a.q) + Reals(a.dq) + Reals(a.kp) + Reals(a.kd), Reals(a.tau), [], w);
  }

  lemma ActionRoundTrip(a: ActionState)
    requires a.Sized()
    ensures ActionOf(ActionWords(a)) == a
  {
    hide Floats, Reals;
    ActionSections(a);
    Back([], a.q, []);
    Back([], a.dq, []);
    Back([], a.kp, []);
    Back([], a.kd, []);
    Back([], a.tau, []);
  }
}
