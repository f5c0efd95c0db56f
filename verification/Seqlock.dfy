/**
 SeqLocked<T> (include/shared_state.hpp) as a transition system: one writer, any number of readers,
 the value copied one word at a time, and a 32-bit sequence number that wraps.

 Assumption: the steps below interleave sequentially consistently. The plain copy of data_ races in
 C++ (section 6.9.2.1 of C++20 leaves it undefined), so weak-memory effects are outside the model.

 An event that is not enabled only lets time pass, so EVERY finite list of events is a run.
 */
module Seqlock {

  function Wrap(n: nat): nat { n % 0x1_0000_0000 }

  /** Program counter and locals of store(). */
  datatype Writer<W> =
    | Idle
    | Loaded(s: nat, v: seq<W>)
    | Copying(s: nat, v: seq<W>, done: nat)

  /** Program counter and locals of load(); call, at, c0, c1, fails are history. */
  datatype Reader<W> =
    | Away
    | Spin(call: nat, c0: nat, fails: nat)
    | Copy(call: nat, c0: nat, fails: nat, at: nat, c1: nat, s1: nat, snap: seq<W>)

  /** A finished load: called, validated sequence first read, and returned at these times. */
  datatype Return<W> = Return(reader: nat, call: nat, at: nat, done: nat,
                              c0: nat, c1: nat, c2: nat, fails: nat, value: seq<W>)

  /** seqno and data are the shared memory. History: the stored values, the sequence number without
      wrapping, the time, and the finished loads. */
  datatype State<W> = State(seqno: nat, data: seq<W>, writer: Writer<W>, readers: seq<Reader<W>>,
                            stores: seq<seq<W>>, ctr: nat, now: nat, loads: seq<Return<W>>)

  datatype Event<W> =
    | BeginStore(v: seq<W>) | BumpOdd | WriteWord | BumpEven
    | Call(r: nat) | ReadFirst(r: nat) | CopyWord(r: nat) | Validate(r: nat)

  function Init<W>(v: seq<W>, readers: nat): State<W> {
    State(0, v, Idle, seq(readers, _ => Away), [v], 0, 0, [])
  }

  function WriterMove<W>(s: State<W>, e: Event<W>): State<W>
    requires |s.stores| > 0
  {
    match (e, s.writer)
    case (BeginStore(v), Idle) =>
      if |v| == |s.stores[0]| then s.(writer := Loaded(s.seqno, v)) else s
    case (BumpOdd, Loaded(w, v)) =>
      s.(seqno := Wrap(w + 1), ctr := s.ctr + 1, stores := s.stores + [v], writer := Copying(w, v, 0))
    case (WriteWord, Copying(w, v, k)) =>
      if k < |v| && k < |s.data| then s.(data := s.data[k := v[k]], writer := Copying(w, v, k + 1)) else s
    case (BumpEven, Copying(w, v, k)) =>
      if k == |v| then s.(seqno := Wrap(w + 2), ctr := s.ctr + 1, writer := Idle) else s
    case _ => s
  }

  function ReaderMove<W>(s: State<W>, e: Event<W>): State<W> {
    match e
    case Call(r) =>
      if r < |s.readers| && s.readers[r].Away? then
        s.(readers := s.readers[r := Spin(s.now, s.ctr, 0)])
      else s
    case ReadFirst(r) =>
      if r < |s.readers| && s.readers[r].Spin? && s.seqno % 2 == 0 then
        var p := s.readers[r];
        s.(readers := s.readers[r := Copy(p.call, p.c0, p.fails, s.now, s.ctr, s.seqno, [])])
      else s
    case CopyWord(r) =>
      if r < |s.readers| && s.readers[r].Copy? && |s.readers[r].snap| < |s.data| then
        var p := s.readers[r];
        s.(readers := s.readers[r := p.(snap := p.snap + [s.data[|p.snap|]])])
      else s
    case Validate(r) =>
      if r < |s.readers| && s.readers[r].Copy? && |s.readers[r].snap| == |s.data| then
        var p := s.readers[r];
        if s.seqno == p.s1 then
          s.(readers := s.readers[r := Away],
             loads := s.loads + [Return(r, p.call, p.at, s.now, p.c0, p.c1, s.ctr, p.fails, p.snap)])
        else
          s.(readers := s.readers[r := Spin(p.call, p.c0, p.fails + 1)])
      else s
    case _ => s
  }

  predicate ByWriter<W>(e: Event<W>) {
    e.BeginStore? || e.BumpOdd? || e.WriteWord? || e.BumpEven?
  }

  predicate ByReader<W>(e: Event<W>, r: nat) {
    !ByWriter(e) && e.r == r
  }

  function Step<W>(s: State<W>, e: Event<W>): State<W>
    requires |s.stores| > 0
  {
    var t := if ByWriter(e) then WriterMove(s, e) else ReaderMove(s, e);
    t.(now := s.now + 1)
  }

  function Exec<W>(s0: State<W>, es: seq<Event<W>>): (s: State<W>)
    requires |s0.stores| > 0
    ensures |s.stores| >= |s0.stores|
    decreases |es|
  {
    if es == [] then s0 else Step(Exec(s0, es[..|es| - 1]), es[|es| - 1])
  }

  // ----- what observers can ask -----

  function StoresBegun<W>(s: State<W>): int { |s.stores| - 1 }
  function StoresCompleted<W>(s: State<W>): nat { s.ctr / 2 }

  /** The abstract register: the last completely stored value, initially the constructor's. */
  function Register<W>(s: State<W>): seq<W>
    requires StoresCompleted(s) < |s.stores|
  {
    s.stores[StoresCompleted(s)]
  }

  /** seq_ >> 1 */
  function Generation<W>(s: State<W>): nat { s.seqno / 2 }

  // ----- invariant -----

  function Begun(c: nat): nat { (c + 1) / 2 }

  ghost predicate WriterOk<W>(s: State<W>) {
    && s.seqno == Wrap(s.ctr)
    && |s.stores| == 1 + Begun(s.ctr)
    && (forall i | 0 <= i < |s.stores| :: |s.stores[i]| == |s.data|)
    && match s.writer
       case Idle => s.ctr % 2 == 0 && s.data == Register(s)
       case Loaded(w, v) => s.ctr % 2 == 0 && s.data == Register(s) && w == s.seqno && |v| == |s.data|
       case Copying(w, v, k) =>
         && s.ctr % 2 == 1 && w == Wrap(s.ctr - 1) && v == s.stores[|s.stores| - 1]
         && k <= |v| && s.data[..k] == v[..k]
  }

  ghost predicate ReaderOk<W>(s: State<W>, p: Reader<W>) {
    match p
    case Away => true
    case Spin(call, c0, fails) =>
      call < s.now && c0 <= s.ctr && fails <= Begun(s.ctr) - Begun(c0)
    case Copy(call, c0, fails, at, c1, s1, snap) =>
      && call < at < s.now && c0 <= c1 <= s.ctr && fails <= Begun(c1) - Begun(c0)
      && c1 % 2 == 0 && s1 == Wrap(c1) && c1 / 2 < |s.stores| && |snap| <= |s.stores[c1 / 2]|
      && (s.ctr == c1 ==> snap == s.stores[c1 / 2][..|snap|])
  }

  ghost predicate ReturnOk<W>(s: State<W>, x: Return<W>) {
    && x.call < x.at < x.done < s.now
    && x.c0 <= x.c1 <= x.c2 <= s.ctr && x.fails <= Begun(x.c1) - Begun(x.c0)
    && x.c1 % 2 == 0 && Wrap(x.c1) == Wrap(x.c2) && x.c1 / 2 < |s.stores| && |x.value| == |s.data|
    && (x.c2 == x.c1 ==> x.value == s.stores[x.c1 / 2])
  }

  /** The loads of one reader do not overlap. */
  ghost predicate Sequential<W>(s: State<W>) {
    && (forall i, r | 0 <= i < |s.loads| && 0 <= r < |s.readers| ::
          s.loads[i].reader == r && !s.readers[r].Away? ==> s.loads[i].done < s.readers[r].call)
    && (forall i, j | 0 <= i < j < |s.loads| ::
          s.loads[i].reader == s.loads[j].reader ==> s.loads[i].done < s.loads[j].call)
  }

  ghost predicate Inv<W>(s: State<W>) {
    && WriterOk(s)
    && (forall r | 0 <= r < |s.readers| :: ReaderOk(s, s.readers[r]))
    && (forall i | 0 <= i < |s.loads| :: ReturnOk(s, s.loads[i]))
    && Sequential(s)
  }

  lemma WordWritten<W>(s: State<W>)
    requires WriterOk(s) && s.writer.Copying? && s.writer.done < |s.writer.v|
    ensures WriterOk(WriterMove(s, WriteWord))
  {
    var v, k := s.writer.v, s.writer.done;
    var t := WriterMove(s, WriteWord);
    assert t.data[..k + 1] == s.data[..k] + [v[k]];
    assert v[..k + 1] == v[..k] + [v[k]];
  }

  lemma WrapAdds(n: nat, k: nat)
    ensures Wrap(Wrap(n) + k) == Wrap(n + k)
    ensures Wrap(n) % 2 == n % 2
  {
  }

  lemma StoreFinished<W>(s: State<W>)
    requires WriterOk(s) && s.writer.Copying? && s.writer.done == |s.writer.v|
    ensures WriterOk(WriterMove(s, BumpEven))
  {
    var v := s.writer.v;
    assert s.data == s.data[..|v|] == v[..|v|] == v;
    WrapAdds(s.ctr - 1, 2);
    LastStore(s.ctr);
  }

  lemma LastStore(c: nat)
    requires c % 2 == 1
    ensures Begun(c) == Begun(c + 1) == (c + 1) / 2 && (c + 1) % 2 == 0
  {
  }

  lemma StoresKept<W>(s: State<W>, e: Event<W>)
    requires WriterOk(s)
    ensures |s.stores| > 0
    ensures s.stores <= WriterMove(s, e).stores && s.ctr <= WriterMove(s, e).ctr
  {
  }

  lemma StoreBegins<W>(s: State<W>, v: seq<W>)
    requires WriterOk(s) && s.writer.Idle?
    ensures WriterOk(WriterMove(s, BeginStore(v)))
  {
  }

  lemma BumpedOdd<W>(s: State<W>)
    requires WriterOk(s) && s.writer.Loaded?
    ensures WriterOk(WriterMove(s, BumpOdd))
  {
    WrapAdds(s.ctr, 1);
    assert (s.stores + [s.writer.v])[..|s.stores|] == s.stores;
  }

  lemma WriterStepOk<W>(s: State<W>, e: Event<W>)
    requires WriterOk(s)
    ensures WriterOk(WriterMove(s, e))
    ensures s.stores <= WriterMove(s, e).stores && s.ctr <= WriterMove(s, e).ctr
  {
    hide WriterOk, Wrap;
    StoresKept(s, e);
    match (e, s.writer) {
      case (BeginStore(v), Idle) => StoreBegins(s, v);
      case (BumpOdd, Loaded(w, v)) => BumpedOdd(s);
      case (WriteWord, Copying(w, v, k)) => if k < |v| && k < |s.data| { WordWritten(s); }
      case (BumpEven, Copying(w, v, k)) => if k == |v| { StoreFinished(s); }
      case _ =>
    }
  }

  /** A writer step never makes a reader's snapshot wrong while the counter stands still. */
  lemma ReaderSurvives<W>(s: State<W>, e: Event<W>, p: Reader<W>)
    requires WriterOk(s) && ReaderOk(s, p)
    ensures ReaderOk(WriterMove(s, e).(now := s.now + 1), p)
  {
    WriterStepOk(s, e);
  }

  lemma ReturnKept<W>(s: State<W>, t: State<W>, x: Return<W>)
    requires ReturnOk(s, x) && s.stores <= t.stores && |t.data| == |s.data| && s.now <= t.now && s.ctr <= t.ctr
    ensures ReturnOk(t, x)
  {
  }

  lemma WriterMovesOnly<W>(s: State<W>, e: Event<W>)
    requires WriterOk(s) && ByWriter(e)
    ensures |s.stores| > 0
    ensures var t := Step(s, e);
            t == WriterMove(s, e).(now := s.now + 1) && t.readers == s.readers && t.loads == s.loads && |t.data| == |s.data|
  {
  }

  lemma WriterStepKeepsInv<W>(s: State<W>, e: Event<W>)
    requires Inv(s) && ByWriter(e)
    ensures Inv(Step(s, e))
  {
    WriterMovesOnly(s, e);
    hide ReaderOk, ReturnOk, WriterMove, Step;
    var t := Step(s, e);
    WriterStepOk(s, e);
    forall r | 0 <= r < |t.readers| ensures ReaderOk(t, t.readers[r]) {
      ReaderSurvives(s, e, s.readers[r]);
    }
    forall i | 0 <= i < |t.loads| ensures ReturnOk(t, t.loads[i]) {
      ReturnKept(s, t, s.loads[i]);
    }
  }

  /** Where the copied word is known to be right: the counter has not moved since it was read. */
  lemma WordRead<W>(s: State<W>, p: Reader<W>)
    requires WriterOk(s) && ReaderOk(s, p) && p.Copy? && |p.snap| < |s.data| && s.ctr == p.c1
    ensures p.snap + [s.data[|p.snap|]] == s.stores[p.c1 / 2][..|p.snap| + 1]
  {
    var v := s.stores[p.c1 / 2];
    assert v == s.data;
    assert v[..|p.snap| + 1] == v[..|p.snap|] + [v[|p.snap|]];
  }

  lemma MovedReaderOk<W>(s: State<W>, e: Event<W>, r: nat)
    requires WriterOk(s) && r < |s.readers| && ReaderOk(s, s.readers[r]) && !ByWriter(e) && e.r == r
    ensures ReaderOk(Step(s, e), Step(s, e).readers[r])
  {
    match e {
      case Call(_) =>
      case ReadFirst(_) => FirstReadOk(s, r);
      case CopyWord(_) => WordCopiedOk(s, r);
      case Validate(_) =>
    }
  }

  lemma FirstReadOk<W>(s: State<W>, r: nat)
    requires WriterOk(s) && r < |s.readers| && ReaderOk(s, s.readers[r])
    ensures ReaderOk(Step(s, ReadFirst(r)), Step(s, ReadFirst(r)).readers[r])
  {
    WrapAdds(s.ctr, 0);
  }

  lemma WordCopiedOk<W>(s: State<W>, r: nat)
    requires WriterOk(s) && r < |s.readers| && ReaderOk(s, s.readers[r])
    ensures ReaderOk(Step(s, CopyWord(r)), Step(s, CopyWord(r)).readers[r])
  {
    var p := s.readers[r];
    if p.Copy? && |p.snap| < |s.data| && s.ctr == p.c1 { WordRead(s, p); }
  }

  /** An accepted validation; unless the counter went all the way round, nothing changed. */
  lemma NewReturnOk<W>(s: State<W>, r: nat)
    requires WriterOk(s) && r < |s.readers| && ReaderOk(s, s.readers[r])
    requires var p := s.readers[r]; p.Copy? && |p.snap| == |s.data| && s.seqno == p.s1
    ensures var t := Step(s, Validate(r)); ReturnOk(t, t.loads[|s.loads|])
  {
    var p := s.readers[r];
    var v := s.stores[p.c1 / 2];
    assert v[..|v|] == v;
  }

  lemma OtherReaderOk<W>(s: State<W>, e: Event<W>, k: nat)
    requires WriterOk(s) && !ByWriter(e) && k < |s.readers| && k != e.r && ReaderOk(s, s.readers[k])
    ensures Step(s, e).readers[k] == s.readers[k] && ReaderOk(Step(s, e), s.readers[k])
  {
  }

  lemma ReaderStepReaders<W>(s: State<W>, e: Event<W>, k: nat)
    requires Inv(s) && !ByWriter(e) && k < |s.readers|
    ensures |Step(s, e).readers| == |s.readers| && ReaderOk(Step(s, e), Step(s, e).readers[k])
  {
    if k == e.r { MovedReaderOk(s, e, k); } else { OtherReaderOk(s, e, k); }
  }

  lemma ReaderStepLoads<W>(s: State<W>, e: Event<W>, i: nat)
    requires Inv(s) && !ByWriter(e) && i < |Step(s, e).loads|
    ensures ReturnOk(Step(s, e), Step(s, e).loads[i])
  {
    if i < |s.loads| {
      assert ReturnOk(s, s.loads[i]);
    } else {
      assert ReaderOk(s, s.readers[e.r]);
      NewReturnOk(s, e.r);
    }
  }

  lemma ReaderStepKeepsInv<W>(s: State<W>, e: Event<W>)
    requires Inv(s) && !ByWriter(e)
    ensures Inv(Step(s, e))
  {
    var t := Step(s, e);
    forall k | 0 <= k < |t.readers| ensures ReaderOk(t, t.readers[k]) {
      ReaderStepReaders(s, e, k);
    }
    forall i | 0 <= i < |t.loads| ensures ReturnOk(t, t.loads[i]) {
      ReaderStepLoads(s, e, i);
    }
    ReaderStepSequential(s, e);
    ReaderStepWriter(s, e);
  }

  lemma ReaderStepWriter<W>(s: State<W>, e: Event<W>)
    requires WriterOk(s) && !ByWriter(e)
    ensures WriterOk(Step(s, e))
  {
  }

  lemma ReaderStepSequential<W>(s: State<W>, e: Event<W>)
    requires Inv(s) && !ByWriter(e)
    ensures Sequential(Step(s, e))
  {
    var t := Step(s, e);
    forall i, k | 0 <= i < |t.loads| && 0 <= k < |t.readers| && t.loads[i].reader == k && !t.readers[k].Away?
      ensures t.loads[i].done < t.readers[k].call
    {
      if i < |s.loads| {
        assert ReturnOk(s, s.loads[i]);
      }
    }
  }

  lemma StepKeepsInv<W>(s: State<W>, e: Event<W>)
    requires Inv(s)
    ensures Inv(Step(s, e)) && Step(s, e).now == s.now + 1 && |Step(s, e).readers| == |s.readers|
  {
    if ByWriter(e) { WriterStepKeepsInv(s, e); } else { ReaderStepKeepsInv(s, e); }
  }

  lemma InitInv<W>(v: seq<W>, readers: nat)
    ensures Inv(Init(v, readers))
  {
  }

  lemma {:induction false} ExecInv<W>(v: seq<W>, readers: nat, es: seq<Event<W>>)
    ensures Inv(Exec(Init(v, readers), es)) && Exec(Init(v, readers), es).now == |es|
    ensures |Exec(Init(v, readers), es).readers| == readers
    decreases |es|
  {
    if es == [] {
      InitInv(v, readers);
    } else {
      var n := |es| - 1;
      ExecInv(v, readers, es[..n]);
      StepKeepsInv(Exec(Init(v, readers), es[..n]), es[n]);
    }
  }

  lemma {:induction false} FirstStore<W>(v: seq<W>, readers: nat, es: seq<Event<W>>)
    ensures var s := Exec(Init(v, readers), es); s.stores[0] == v && |s.data| == |v|
    decreases |es|
  {
    ExecInv(v, readers, es);
    if es != [] { FirstStore(v, readers, es[..|es| - 1]); }
  }

  // ----- runs -----

  /** The state after the first t events. */
  function At<W>(v: seq<W>, readers: nat, es: seq<Event<W>>, t: nat): State<W>
    requires t <= |es|
  {
    Exec(Init(v, readers), es[..t])
  }

  ghost predicate ReaderLinked<W>(v: seq<W>, readers: nat, es: seq<Event<W>>, p: Reader<W>) {
    match p
    case Away => true
    case Spin(call, c0, _) => call < |es| && At(v, readers, es, call).ctr == c0
    case Copy(call, c0, _, at, c1, _, _) =>
      call < at < |es| && At(v, readers, es, call).ctr == c0 && At(v, readers, es, at).ctr == c1
  }

  ghost predicate LoadLinked<W>(v: seq<W>, readers: nat, es: seq<Event<W>>, x: Return<W>) {
    && x.call < x.at < x.done < |es|
    && At(v, readers, es, x.call).ctr == x.c0
    && At(v, readers, es, x.at).ctr == x.c1
    && At(v, readers, es, x.done).ctr == x.c2
  }

  lemma ReaderExtends<W>(v: seq<W>, readers: nat, es: seq<Event<W>>, e: Event<W>, p: Reader<W>)
    requires ReaderLinked(v, readers, es, p)
    ensures ReaderLinked(v, readers, es + [e], p)
  {
    forall t: nat | t <= |es| ensures (es + [e])[..t] == es[..t] {}
  }

  lemma LoadExtends<W>(v: seq<W>, readers: nat, es: seq<Event<W>>, e: Event<W>, x: Return<W>)
    requires LoadLinked(v, readers, es, x)
    ensures LoadLinked(v, readers, es + [e], x)
  {
    forall t: nat | t <= |es| ensures (es + [e])[..t] == es[..t] {}
  }

  ghost predicate Linked<W>(v: seq<W>, readers: nat, es: seq<Event<W>>) {
    var s := Exec(Init(v, readers), es);
    && (forall r | 0 <= r < |s.readers| :: ReaderLinked(v, readers, es, s.readers[r]))
    && (forall i | 0 <= i < |s.loads| :: LoadLinked(v, readers, es, s.loads[i]))
  }

  lemma SnocExec<W>(s0: State<W>, es: seq<Event<W>>, e: Event<W>)
    requires |s0.stores| > 0
    ensures Exec(s0, es + [e]) == Step(Exec(s0, es), e)
  {
    assert (es + [e])[..|es|] == es;
  }

  lemma {:induction false} ExecAppend<W>(s: State<W>, a: seq<Event<W>>, b: seq<Event<W>>)
    requires |s.stores| > 0
    ensures Exec(s, a + b) == Exec(Exec(s, a), b)
    decreases |b|
  {
    hide Step, Exec;
    if b == [] {
      assert a + b == a;
      ExecNone(Exec(s, a));
    } else {
      ExecAppend(s, a, b[..|b| - 1]);
      ExecAppendSnoc(s, a, b[..|b| - 1], b[|b| - 1]);
      assert b == b[..|b| - 1] + [b[|b| - 1]];
    }
  }

  lemma ExecNone<W>(s: State<W>)
    requires |s.stores| > 0
    ensures Exec(s, []) == s
  {
  }

  lemma ExecAppendSnoc<W>(s: State<W>, a: seq<Event<W>>, b: seq<Event<W>>, e: Event<W>)
    requires |s.stores| > 0 && Exec(s, a + b) == Exec(Exec(s, a), b)
    ensures Exec(s, a + (b + [e])) == Exec(Exec(s, a), b + [e])
  {
    hide Step, Exec;
    SnocExec(s, a + b, e);
    SnocExec(Exec(s, a), b, e);
    assert a + (b + [e]) == a + b + [e];
  }

  lemma ExecOne<W>(s: State<W>, e: Event<W>)
    requires |s.stores| > 0
    ensures Exec(s, [e]) == Step(s, e)
  {
    assert [e][..0] == [];
  }

  lemma ExecCons<W>(s: State<W>, e: Event<W>, es: seq<Event<W>>)
    requires |s.stores| > 0
    ensures Exec(s, [e] + es) == Exec(Step(s, e), es)
  {
    ExecOne(s, e);
    ExecAppend(s, [e], es);
  }

  /** How one reader's program counter can move in state s. */
  ghost predicate Follows<W>(s: State<W>, p: Reader<W>, q: Reader<W>) {
    || q == p || q.Away?
    || (p.Away? && q == Spin(s.now, s.ctr, 0))
    || (p.Spin? && q.Copy? && q.call == p.call && q.c0 == p.c0 && q.at == s.now && q.c1 == s.ctr)
    || (p.Copy? && q.Copy? && q.call == p.call && q.c0 == p.c0 && q.at == p.at && q.c1 == p.c1)
    || (p.Copy? && q.Spin? && q.call == p.call && q.c0 == p.c0)
  }

  lemma StepFollows<W>(s: State<W>, e: Event<W>, r: nat)
    requires |s.stores| > 0 && r < |s.readers|
    ensures |Step(s, e).readers| == |s.readers| && Follows(s, s.readers[r], Step(s, e).readers[r])
  {
  }

  lemma FollowsLinked<W>(v: seq<W>, readers: nat, es: seq<Event<W>>, e: Event<W>, p: Reader<W>, q: Reader<W>)
    requires ReaderLinked(v, readers, es, p) && Exec(Init(v, readers), es).now == |es|
    requires Follows(Exec(Init(v, readers), es), p, q)
    ensures ReaderLinked(v, readers, es + [e], q)
  {
    hide Exec;
    ReaderExtends(v, readers, es, e, p);
    assert (es + [e])[..|es|] == es;
    assert At(v, readers, es + [e], |es|) == Exec(Init(v, readers), es);
  }

  lemma ReaderLinkStep<W>(v: seq<W>, readers: nat, es: seq<Event<W>>, e: Event<W>, r: nat)
    requires Linked(v, readers, es) && r < readers
    requires Exec(Init(v, readers), es).now == |es| && |Exec(Init(v, readers), es).readers| == readers
    ensures |Exec(Init(v, readers), es + [e]).readers| == readers
    ensures ReaderLinked(v, readers, es + [e], Exec(Init(v, readers), es + [e]).readers[r])
  {
    var s := Exec(Init(v, readers), es);
    SnocExec(Init(v, readers), es, e);
    StepFollows(s, e, r);
    FollowsLinked(v, readers, es, e, s.readers[r], Step(s, e).readers[r]);
  }

  /** A load that finishes now was called, and first read the sequence number, when its reader says. */
  lemma NewLoadLinked<W>(v: seq<W>, readers: nat, es: seq<Event<W>>, e: Event<W>)
    requires Linked(v, readers, es) && e.Validate?
    requires var s := Exec(Init(v, readers), es);
             && s.now == |es| && e.r < |s.readers| && s.readers[e.r].Copy?
             && |s.readers[e.r].snap| == |s.data| && s.seqno == s.readers[e.r].s1
    ensures var s := Exec(Init(v, readers), es); var p := s.readers[e.r];
            LoadLinked(v, readers, es + [e],
                       Return(e.r, p.call, p.at, s.now, p.c0, p.c1, s.ctr, p.fails, p.snap))
  {
    var s := Exec(Init(v, readers), es);
    assert (es + [e])[..|es|] == es;
    assert ReaderLinked(v, readers, es, s.readers[e.r]);
    ReaderExtends(v, readers, es, e, s.readers[e.r]);
  }

  /** A step adds at most one finished load, and only an accepted validation does. */
  lemma StepLoads<W>(s: State<W>, e: Event<W>)
    requires |s.stores| > 0
    ensures Step(s, e).loads == s.loads
            || (&& e.Validate? && e.r < |s.readers| && s.readers[e.r].Copy?
                && |s.readers[e.r].snap| == |s.data| && s.seqno == s.readers[e.r].s1
                && var p := s.readers[e.r];
                   Step(s, e).loads ==
                   s.loads + [Return(e.r, p.call, p.at, s.now, p.c0, p.c1, s.ctr, p.fails, p.snap)])
  {
  }

  lemma LoadLinkStep<W>(v: seq<W>, readers: nat, es: seq<Event<W>>, e: Event<W>, i: nat)
    requires Linked(v, readers, es) && i < |Exec(Init(v, readers), es + [e]).loads|
    requires Exec(Init(v, readers), es).now == |es| && |Exec(Init(v, readers), es).readers| == readers
    ensures LoadLinked(v, readers, es + [e], Exec(Init(v, readers), es + [e]).loads[i])
  {
    var s := Exec(Init(v, readers), es);
    SnocExec(Init(v, readers), es, e);
    StepLoads(s, e);
    if i < |s.loads| {
      LoadExtends(v, readers, es, e, s.loads[i]);
    } else {
      NewLoadLinked(v, readers, es, e);
    }
  }

  lemma {:induction false} ExecLinked<W>(v: seq<W>, readers: nat, es: seq<Event<W>>)
    ensures Linked(v, readers, es)
    decreases |es|
  {
    if es != [] {
      var n := |es| - 1;
      ExecLinked(v, readers, es[..n]);
      ExecInv(v, readers, es[..n]);
      assert es == es[..n] + [es[n]];
      var t := Exec(Init(v, readers), es);
      forall r | 0 <= r < |t.readers| ensures ReaderLinked(v, readers, es, t.readers[r]) {
        ExecInv(v, readers, es);
        ReaderLinkStep(v, readers, es[..n], es[n], r);
      }
      forall i | 0 <= i < |t.loads| ensures LoadLinked(v, readers, es, t.loads[i]) {
        LoadLinkStep(v, readers, es[..n], es[n], i);
      }
    }
  }

  // ----- main results -----

  /** Stores whose first sequence bump falls between times a and b. */
  function StoresBetween<W>(v: seq<W>, readers: nat, es: seq<Event<W>>, a: nat, b: nat): int
    requires a <= b <= |es|
  {
    StoresBegun(At(v, readers, es, b)) - StoresBegun(At(v, readers, es, a))
  }

  /** The i-th finished load of a run. */
  function Load<W>(v: seq<W>, readers: nat, es: seq<Event<W>>, i: nat): (x: Return<W>)
    requires i < |Exec(Init(v, readers), es).loads|
    ensures x.call < x.at < x.done < |es|
  {
    ExecLinked(v, readers, es);
    assert LoadLinked(v, readers, es, Exec(Init(v, readers), es).loads[i]);
    Exec(Init(v, readers), es).loads[i]
  }

  lemma LoadFacts<W>(v: seq<W>, readers: nat, es: seq<Event<W>>, i: nat)
    requires i < |Exec(Init(v, readers), es).loads|
    ensures var s := Exec(Init(v, readers), es); var x := Load(v, readers, es, i);
            Inv(s) && ReturnOk(s, x) && LoadLinked(v, readers, es, x)
  {
    ExecInv(v, readers, es);
    ExecLinked(v, readers, es);
    var s := Exec(Init(v, readers), es);
    assert ReturnOk(s, s.loads[i]) && LoadLinked(v, readers, es, s.loads[i]);
  }

  lemma StepGrows<W>(s: State<W>, e: Event<W>)
    requires WriterOk(s)
    ensures s.stores <= Step(s, e).stores && s.ctr <= Step(s, e).ctr
  {
    if ByWriter(e) { WriterStepOk(s, e); }
  }

  lemma {:induction false} StoresOnlyGrow<W>(v: seq<W>, readers: nat, es: seq<Event<W>>, t: nat)
    requires t <= |es|
    ensures At(v, readers, es, t).stores <= Exec(Init(v, readers), es).stores
    ensures At(v, readers, es, t).ctr <= Exec(Init(v, readers), es).ctr
    decreases |es|
  {
    if t == |es| {
      assert es[..t] == es;
    } else {
      var n := |es| - 1;
      StoresOnlyGrow(v, readers, es[..n], t);
      assert es[..n][..t] == es[..t];
      ExecInv(v, readers, es[..n]);
      StepGrows(Exec(Init(v, readers), es[..n]), es[n]);
    }
  }

  lemma StoresBegunAt<W>(v: seq<W>, readers: nat, es: seq<Event<W>>, t: nat)
    requires t <= |es|
    ensures var s := At(v, readers, es, t);
            Inv(s) && StoresBegun(s) == Begun(s.ctr) && StoresCompleted(s) < |s.stores|
  {
    ExecInv(v, readers, es[..t]);
  }

  /** The register at an instant inside the call. */
  lemma RegisterThen<W>(v: seq<W>, readers: nat, es: seq<Event<W>>, t: nat)
    requires t <= |es|
    ensures var s, z := At(v, readers, es, t), Exec(Init(v, readers), es);
            && StoresCompleted(s) < |s.stores| <= |z.stores|
            && Register(s) == z.stores[StoresCompleted(s)]
  {
    StoresBegunAt(v, readers, es, t);
    StoresOnlyGrow(v, readers, es, t);
  }

  /**
   No torn snapshots: in every run, a finished load whose validation window (first to second read
   of the sequence number) sees fewer than 2^31 stores begin returns exactly the register at the
   instant of its first read, which lies inside the call; and then no store began in the window.
   */
  lemma LoadLinearizable<W>(v: seq<W>, readers: nat, es: seq<Event<W>>, i: nat)
    requires i < |Exec(Init(v, readers), es).loads|
    requires var x := Load(v, readers, es, i); StoresBetween(v, readers, es, x.at, x.done) < 0x8000_0000
    ensures var x := Load(v, readers, es, i);
            && StoresCompleted(At(v, readers, es, x.at)) < |At(v, readers, es, x.at).stores|
            && x.value == Register(At(v, readers, es, x.at))
            && StoresBetween(v, readers, es, x.at, x.done) == 0
  {
    var x := Load(v, readers, es, i);
    LoadFacts(v, readers, es, i);
    StoresBegunAt(v, readers, es, x.at);
    StoresBegunAt(v, readers, es, x.done);
    RegisterThen(v, readers, es, x.at);
    SameCounter(x.c1, x.c2);
  }

  lemma SameCounter(c1: nat, c2: nat)
    requires c1 <= c2 && c1 % 2 == 0 && Wrap(c1) == Wrap(c2) && Begun(c2) - Begun(c1) < 0x8000_0000
    ensures c1 == c2
  {
  }

  /** Real-time order: a load whose first read is not earlier never returns an older store. */
  lemma LoadsNeverGoBack<W>(v: seq<W>, readers: nat, es: seq<Event<W>>, i: nat, j: nat)
    requires i < |Exec(Init(v, readers), es).loads| && j < |Exec(Init(v, readers), es).loads|
    requires var x, y := Load(v, readers, es, i), Load(v, readers, es, j);
             && x.at <= y.at
             && StoresBetween(v, readers, es, x.at, x.done) < 0x8000_0000
             && StoresBetween(v, readers, es, y.at, y.done) < 0x8000_0000
    ensures var x, y, z := Load(v, readers, es, i), Load(v, readers, es, j), Exec(Init(v, readers), es);
            var k, l := StoresCompleted(At(v, readers, es, x.at)), StoresCompleted(At(v, readers, es, y.at));
            k <= l < |z.stores| && x.value == z.stores[k] && y.value == z.stores[l]
  {
    var x, y := Load(v, readers, es, i), Load(v, readers, es, j);
    LoadLinearizable(v, readers, es, i);
    LoadLinearizable(v, readers, es, j);
    RegisterThen(v, readers, es, x.at);
    RegisterThen(v, readers, es, y.at);
    StoresOnlyGrow(v, readers, es[..y.at], x.at);
    assert es[..y.at][..x.at] == es[..x.at];
  }

  /** Successive loads of one reader are ordered in time, so LoadsNeverGoBack applies to them. */
  lemma OneReaderInOrder<W>(v: seq<W>, readers: nat, es: seq<Event<W>>, i: nat, j: nat)
    requires i < j < |Exec(Init(v, readers), es).loads|
    requires Load(v, readers, es, i).reader == Load(v, readers, es, j).reader
    ensures Load(v, readers, es, i).done < Load(v, readers, es, j).call
  {
    ExecInv(v, readers, es);
  }

  /** Retry accounting: failed validations never outnumber the stores that begin during the call. */
  lemma RetriesBounded<W>(v: seq<W>, readers: nat, es: seq<Event<W>>, i: nat)
    requires i < |Exec(Init(v, readers), es).loads|
    ensures var x := Load(v, readers, es, i);
            x.fails <= StoresBetween(v, readers, es, x.call, x.done)
  {
    var x := Load(v, readers, es, i);
    LoadFacts(v, readers, es, i);
    StoresBegunAt(v, readers, es, x.call);
    StoresBegunAt(v, readers, es, x.done);
  }

  /** What a caller of load() may rely on, in one predicate. */
  ghost predicate Linearized<W>(v: seq<W>, readers: nat, es: seq<Event<W>>, x: Return<W>) {
    && x.call < x.at < x.done < |es| && |x.value| == |v|
    && x.fails <= StoresBetween(v, readers, es, x.call, x.done)
    && (StoresBetween(v, readers, es, x.at, x.done) < 0x8000_0000 ==>
          (StoresCompleted(At(v, readers, es, x.at)) < |At(v, readers, es, x.at).stores|
           && x.value == Register(At(v, readers, es, x.at))))
  }

  /** More steps do not change what was said about a finished load. */
  lemma LinearizedExtends<W>(v: seq<W>, readers: nat, es: seq<Event<W>>, es': seq<Event<W>>, x: Return<W>)
    requires Linearized(v, readers, es, x) && es <= es'
    ensures Linearized(v, readers, es', x)
  {
    forall t: nat | t <= |es| ensures es'[..t] == es[..t] {}
  }

  lemma EveryLoadLinearized<W>(v: seq<W>, readers: nat, es: seq<Event<W>>, i: nat)
    requires i < |Exec(Init(v, readers), es).loads|
    ensures Linearized(v, readers, es, Exec(Init(v, readers), es).loads[i])
  {
    var x := Load(v, readers, es, i);
    LoadFacts(v, readers, es, i);
    FirstStore(v, readers, es);
    RetriesBounded(v, readers, es, i);
    if StoresBetween(v, readers, es, x.at, x.done) < 0x8000_0000 {
      LoadLinearizable(v, readers, es, i);
    }
  }

  /** The same bound for a load still running, at every instant. */
  lemma RetriesBoundedSoFar<W>(v: seq<W>, readers: nat, es: seq<Event<W>>, r: nat)
    requires r < readers
    ensures |Exec(Init(v, readers), es).readers| == readers
    ensures var p := Exec(Init(v, readers), es).readers[r];
            !p.Away? ==> p.call < |es| && p.fails <= StoresBetween(v, readers, es, p.call, |es|)
  {
    ExecInv(v, readers, es);
    ExecLinked(v, readers, es);
    var s := Exec(Init(v, readers), es);
    var p := s.readers[r];
    assert ReaderOk(s, p) && ReaderLinked(v, readers, es, p);
    if !p.Away? {
      StoresBegunAt(v, readers, es, p.call);
      StoresBegunAt(v, readers, es, |es|);
      assert es[..|es|] == es;
    }
  }

  /** generation() counts completed stores modulo 2^31 in every reachable state, also mid-store: the
      stores made after the initial value, less the one in progress. */
  lemma GenerationCounts<W>(v: seq<W>, readers: nat, es: seq<Event<W>>)
    ensures var s := Exec(Init(v, readers), es); Generation(s) == StoresCompleted(s) % 0x8000_0000
    ensures var s := Exec(Init(v, readers), es);
            StoresCompleted(s) == |s.stores| - 1 - if s.writer.Copying? then 1 else 0
  {
    ExecInv(v, readers, es);
    HalfWrap(Exec(Init(v, readers), es).ctr);
  }

  lemma HalfWrap(c: nat)
    ensures Wrap(c) / 2 == c / 2 % 0x8000_0000
  {
  }
}
