/**
 A load of the seqlock returns (include/shared_state.hpp): undisturbed it takes one round, and only the
 writer can make a round fail.
 */
module SeqlockProgress {
  import opened Seqlock

  // ----- an undisturbed load -----

  function Copies<W>(r: nat, k: nat): seq<Event<W>> {
    if k == 0 then [] else Copies(r, k - 1) + [CopyWord(r)]
  }

  /** One load() by reader r of a value of n words, with no step of anybody else. */
  function LoadEvents<W>(r: nat, n: nat): seq<Event<W>> {
    [Call(r)] + ([ReadFirst(r)] + (Copies(r, n) + [Validate(r)]))
  }

  /** t is s with reader r having copied k words since its first read. */
  predicate Snapped<W(==)>(s: State<W>, t: State<W>, r: nat, k: nat)
    requires r < |s.readers| && s.readers[r].Copy? && k <= |s.data|
  {
    t == s.(readers := s.readers[r := s.readers[r].(snap := s.data[..k])], now := s.now + k)
  }

  lemma SnapNext<W>(s: State<W>, t: State<W>, r: nat, k: nat)
    requires |s.stores| > 0 && r < |s.readers| && s.readers[r].Copy? && k < |s.data| && Snapped(s, t, r, k)
    ensures |t.stores| > 0 && Snapped(s, Step(t, CopyWord(r)), r, k + 1)
  {
    assert s.data[..k] + [s.data[k]] == s.data[..k + 1];
    assert s.readers[r := s.readers[r].(snap := s.data[..k])][r := s.readers[r].(snap := s.data[..k + 1])]
           == s.readers[r := s.readers[r].(snap := s.data[..k + 1])];
  }

  lemma {:induction false} SnapWords<W>(s: State<W>, r: nat, k: nat)
    requires |s.stores| > 0 && r < |s.readers| && s.readers[r].Copy? && s.readers[r].snap == [] && k <= |s.data|
    ensures Snapped(s, Exec(s, Copies(r, k)), r, k)
  {
    hide Step, Exec, Snapped, Copies;
    if k == 0 {
      SnapNone(s, r);
    } else {
      SnapWords(s, r, k - 1);
      SnapOneMore(s, r, k - 1);
    }
  }

  lemma SnapNone<W>(s: State<W>, r: nat)
    requires |s.stores| > 0 && r < |s.readers| && s.readers[r].Copy? && s.readers[r].snap == []
    ensures Snapped(s, Exec(s, Copies(r, 0)), r, 0)
  {
    assert s.data[..0] == [] && s.readers[r := s.readers[r]] == s.readers;
  }

  lemma SnapOneMore<W>(s: State<W>, r: nat, k: nat)
    requires |s.stores| > 0 && r < |s.readers| && s.readers[r].Copy? && k < |s.data| && Snapped(s, Exec(s, Copies(r, k)), r, k)
    ensures Snapped(s, Exec(s, Copies(r, k + 1)), r, k + 1)
  {
    hide Step, Exec, Snapped;
    SnocExec(s, Copies(r, k), CopyWord(r));
    SnapNext(s, Exec(s, Copies(r, k)), r, k);
  }

  /** The state after it: one more finished load, of the data, and nothing else but the time has changed. */
  function AfterLoad<W>(s: State<W>, r: nat): State<W> {
    var n := |s.data|;
    s.(now := s.now + n + 3,
       loads := s.loads + [Return(r, s.now, s.now + 1, s.now + n + 2, s.ctr, s.ctr, s.ctr, 0, s.data)])
  }

  lemma OneLoad<W>(s: State<W>, r: nat)
    requires |s.stores| > 0 && r < |s.readers| && s.readers[r].Away? && s.seqno % 2 == 0
    ensures Exec(s, LoadEvents(r, |s.data|)) == AfterLoad(s, r)
  {
    hide Exec, Copies;
    var n := |s.data|;
    var s1 := s.(now := s.now + 1, readers := s.readers[r := Spin(s.now, s.ctr, 0)]);
    var s2 := s.(now := s.now + 2, readers := s.readers[r := Copy(s.now, s.ctr, 0, s.now + 1, s.ctr, s.seqno, [])]);
    var s3 := s.(now := s.now + n + 2,
                 readers := s.readers[r := Copy(s.now, s.ctr, 0, s.now + 1, s.ctr, s.seqno, s.data)]);
    assert Step(s, Call(r)) == s1 && Step(s1, ReadFirst(r)) == s2 by { FirstSteps(s, s1, s2, r); }
    hide Step;
    SnapWords(s2, r, n);
    assert s.data[..n] == s.data && Exec(s2, Copies(r, n)) == s3;
    assert s.readers[r := Away] == s.readers;
    assert Step(s3, Validate(r)) == AfterLoad(s, r) by { LastStep(s, s3, r); }
    hide AfterLoad, Snapped;
    LoadRuns(s, s1, s2, s3, r, n);
  }

  lemma FirstSteps<W>(s: State<W>, s1: State<W>, s2: State<W>, r: nat)
    requires |s.stores| > 0 && r < |s.readers| && s.readers[r].Away? && s.seqno % 2 == 0
    requires s1 == s.(now := s.now + 1, readers := s.readers[r := Spin(s.now, s.ctr, 0)])
    requires s2 == s.(now := s.now + 2, readers := s.readers[r := Copy(s.now, s.ctr, 0, s.now + 1, s.ctr, s.seqno, [])])
    ensures Step(s, Call(r)) == s1 && Step(s1, ReadFirst(r)) == s2
  {
  }

  lemma LastStep<W>(s: State<W>, s3: State<W>, r: nat)
    requires |s.stores| > 0 && r < |s.readers| && s.readers[r].Away?
    requires s3 == s.(now := s.now + |s.data| + 2,
                      readers := s.readers[r := Copy(s.now, s.ctr, 0, s.now + 1, s.ctr, s.seqno, s.data)])
    ensures Step(s3, Validate(r)) == AfterLoad(s, r)
  {
    assert s3.readers[r := Away] == s.readers;
  }

  lemma LoadRuns<W>(s: State<W>, s1: State<W>, s2: State<W>, s3: State<W>, r: nat, n: nat)
    requires |s.stores| > 0 && |s1.stores| > 0 && |s2.stores| > 0 && |s3.stores| > 0
    requires Step(s, Call(r)) == s1 && Step(s1, ReadFirst(r)) == s2 && Exec(s2, Copies(r, n)) == s3
    ensures Exec(s, LoadEvents(r, n)) == Step(s3, Validate(r))
  {
    hide Step, Exec, Copies;
    ExecCons(s, Call(r), [ReadFirst(r)] + (Copies(r, n) + [Validate(r)]));
    ExecCons(s1, ReadFirst(r), Copies(r, n) + [Validate(r)]);
    ExecAppend(s2, Copies(r, n), [Validate(r)]);
    ExecOne(s3, Validate(r));
  }

  /**
   In every run, whatever was stored before: when the writer is idle and reader r away, the steps of one
   load and nobody else's finish exactly one load. It returns the register, without a failed validation,
   and leaves everything else as it was.
   */
  lemma UndisturbedLoad<W>(v: seq<W>, readers: nat, es: seq<Event<W>>, r: nat)
    requires r < readers == |Exec(Init(v, readers), es).readers|
    requires Exec(Init(v, readers), es).writer.Idle? && Exec(Init(v, readers), es).readers[r].Away?
    ensures var s, t := Exec(Init(v, readers), es), Exec(Init(v, readers), es + LoadEvents(r, |v|));
            && |t.loads| == |s.loads| + 1 && s.loads <= t.loads && StoresCompleted(s) < |s.stores|
            && t.loads[|s.loads|].reader == r && t.loads[|s.loads|].call == |es|
            && t.loads[|s.loads|].value == Register(s) && t.loads[|s.loads|].fails == 0
            && t.stores == s.stores && t.ctr == s.ctr && t.writer == s.writer && t.readers == s.readers
  {
    hide Exec, Step, LoadEvents;
    ExecInv(v, readers, es);
    FirstStore(v, readers, es);
    var s := Exec(Init(v, readers), es);
    WrapAdds(s.ctr, 0);
    OneLoad(s, r);
    ExecAppend(Init(v, readers), es, LoadEvents(r, |v|));
  }

  // ----- why a round fails -----

  /** From the first read of the sequence at time `at` to the second before time `done`. */
  datatype Window = Window(at: nat, done: nat)

  /** A store was in progress at the first read, or one began in the window. */
  ghost predicate WriterBusy<W>(v: seq<W>, readers: nat, es: seq<Event<W>>, w: Window) {
    && w.at < w.done <= |es|
    && (StoresCompleted(At(v, readers, es, w.at)) < StoresBegun(At(v, readers, es, w.at))
        || StoresBetween(v, readers, es, w.at, w.done) > 0)
  }

  /** Rounds that failed since time `from`, one after the other: the writer was busy in each. */
  ghost predicate Blocked<W>(v: seq<W>, readers: nat, es: seq<Event<W>>, from: nat, ws: seq<Window>) {
    && (forall i | 0 <= i < |ws| :: from <= ws[i].at && WriterBusy(v, readers, es, ws[i]))
    && (forall i, j | 0 <= i < j < |ws| :: ws[i].done <= ws[j].at)
  }

  lemma BusyExtends<W>(v: seq<W>, readers: nat, es: seq<Event<W>>, es': seq<Event<W>>, w: Window)
    requires WriterBusy(v, readers, es, w) && es <= es'
    ensures WriterBusy(v, readers, es', w)
  {
    assert es'[..w.at] == es[..w.at] && es'[..w.done] == es[..w.done];
  }

  lemma BlockedSnoc<W>(v: seq<W>, readers: nat, es: seq<Event<W>>, es': seq<Event<W>>, from: nat, ws: seq<Window>, w: Window)
    requires Blocked(v, readers, es, from, ws) && es <= es' && from <= |es|
    requires WriterBusy(v, readers, es', w) && |es| <= w.at
    ensures Blocked(v, readers, es', from, ws + [w])
  {
    hide WriterBusy, Exec;
    BlockedExtends(v, readers, es, es', from, ws);
    forall i | 0 <= i < |ws| ensures ws[i].done <= |es| { DoneInRun(v, readers, es, ws[i]); }
  }

  lemma DoneInRun<W>(v: seq<W>, readers: nat, es: seq<Event<W>>, w: Window)
    requires WriterBusy(v, readers, es, w)
    ensures w.done <= |es|
  {
  }

  lemma BlockedExtends<W>(v: seq<W>, readers: nat, es: seq<Event<W>>, es': seq<Event<W>>, from: nat, ws: seq<Window>)
    requires Blocked(v, readers, es, from, ws) && es <= es'
    ensures Blocked(v, readers, es', from, ws)
  {
    hide WriterBusy;
    forall i | 0 <= i < |ws| ensures WriterBusy(v, readers, es', ws[i]) { BusyExtends(v, readers, es, es', ws[i]); }
  }

  /** An odd sequence at the first read means that a store is in progress. */
  lemma OddMeansBusy<W>(v: seq<W>, readers: nat, es: seq<Event<W>>, w: Window)
    requires w.at < w.done <= |es| && At(v, readers, es, w.at).seqno % 2 != 0
    ensures WriterBusy(v, readers, es, w)
  {
    ExecInv(v, readers, es[..w.at]);
    WrapAdds(At(v, readers, es, w.at).ctr, 0);
  }

  /** Another sequence at the second read means that a store began since an even first one. */
  lemma ChangedMeansBusy<W>(v: seq<W>, readers: nat, es: seq<Event<W>>, w: Window)
    requires w.at < w.done <= |es| && At(v, readers, es, w.at).seqno % 2 == 0
    requires At(v, readers, es, w.done).seqno != At(v, readers, es, w.at).seqno
    ensures WriterBusy(v, readers, es, w)
  {
    hide Exec;
    StoresBegunAt(v, readers, es, w.at);
    StoresBegunAt(v, readers, es, w.done);
    StoresOnlyGrow(v, readers, es[..w.done], w.at);
    assert es[..w.done][..w.at] == es[..w.at];
    WrapAdds(At(v, readers, es, w.at).ctr, 0);
  }

  // ----- a quiet writer -----

  predicate NoWriterStep<W>(es: seq<Event<W>>, from: nat) {
    forall t | from <= t < |es| :: !ByWriter(es[t])
  }

  lemma {:induction false} QuietKeeps<W>(v: seq<W>, readers: nat, es: seq<Event<W>>, from: nat)
    requires from <= |es| && NoWriterStep(es, from)
    ensures var s, z := At(v, readers, es, from), Exec(Init(v, readers), es);
            z.ctr == s.ctr && z.stores == s.stores && z.writer == s.writer
    decreases |es|
  {
    if from == |es| {
      assert es[..from] == es;
    } else {
      hide Step, Exec;
      var n := |es| - 1;
      assert es[..n][..from] == es[..from] && es == es[..n] + [es[n]];
      QuietKeeps(v, readers, es[..n], from);
      SnocExec(Init(v, readers), es[..n], es[n]);
      ReaderStepKeepsStores(Exec(Init(v, readers), es[..n]), es[n]);
    }
  }

  lemma ReaderStepKeepsStores<W>(s: State<W>, e: Event<W>)
    requires |s.stores| > 0 && !ByWriter(e)
    ensures var t := Step(s, e); t.ctr == s.ctr && t.stores == s.stores && t.writer == s.writer
  {
  }

  lemma QuietNotBusy<W>(v: seq<W>, readers: nat, es: seq<Event<W>>, from: nat, w: Window)
    requires from <= |es| && NoWriterStep(es, from) && At(v, readers, es, from).writer.Idle? && from <= w.at
    ensures !WriterBusy(v, readers, es, w)
  {
    if w.at < w.done <= |es| {
      hide Exec;
      assert es[..w.at][..from] == es[..from] && es[..w.done][..from] == es[..from];
      QuietKeeps(v, readers, es[..w.at], from);
      QuietKeeps(v, readers, es[..w.done], from);
      StoresBegunAt(v, readers, es, from);
    }
  }

  /** With no writer step since the call there is no failed round, and the value is the register at the call. */
  lemma QuietNotBlocked<W>(v: seq<W>, readers: nat, es: seq<Event<W>>, from: nat, ws: seq<Window>)
    requires from <= |es| && NoWriterStep(es, from) && At(v, readers, es, from).writer.Idle?
    requires Blocked(v, readers, es, from, ws)
    ensures ws == []
  {
    if ws != [] { QuietNotBusy(v, readers, es, from, ws[0]); }
  }

  lemma QuietValue<W>(v: seq<W>, readers: nat, es: seq<Event<W>>, from: nat, x: Return<W>)
    requires from <= |es| && NoWriterStep(es, from) && Linearized(v, readers, es, x) && from <= x.call
    ensures StoresCompleted(At(v, readers, es, from)) < |At(v, readers, es, from).stores|
    ensures x.value == Register(At(v, readers, es, from)) && x.fails == 0
  {
    hide Exec;
    forall t: nat | from <= t <= |es|
      ensures At(v, readers, es, t).ctr == At(v, readers, es, from).ctr
      ensures At(v, readers, es, t).stores == At(v, readers, es, from).stores
    {
      assert es[..t][..from] == es[..from];
      QuietKeeps(v, readers, es[..t], from);
    }
    StoresBegunAt(v, readers, es, from);
    assert At(v, readers, es, x.at).stores == At(v, readers, es, x.done).stores == At(v, readers, es, x.call).stores;
  }
}
