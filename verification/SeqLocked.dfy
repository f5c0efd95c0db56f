/**
 SeqLocked<T>::store, load and generation as the programs they are, run against interference:
 before every atomic step the other threads take any finite number of steps of their own.
 */
module SeqLockedCell {
  import opened Util
  import opened Seqlock
  import opened SeqlockProgress

  class SeqLocked<W> {
    const initial: seq<W>
    const readers: nat
    var st: State<W>            // shared memory and program counters
    ghost var run: seq<Event<W>>  // every atomic step taken so far, by anybody

    constructor (v: seq<W>, readers: nat)
      ensures Valid() && run == [] && initial == v && this.readers == readers
      ensures st == Init(v, readers)
    {
      initial, this.readers := v, readers;
      st, run := Init(v, readers), [];
    }

    ghost predicate Valid() reads this {
      st == Exec(Init(initial, readers), run)
    }

    /** One atomic step. */
    method Atomic(e: Event<W>)
      requires Valid()
      modifies this
      ensures Valid() && run == old(run) + [e]
      ensures |old(st).stores| > 0 && st == Step(old(st), e)
    {
      ExecInv(initial, readers, run);
      SnocExec(Init(initial, readers), run, e);
      st, run := Step(st, e), run + [e];
    }

    /** Any number of steps of the readers. */
    method ReadersRun()
      requires Valid()
      modifies this
      ensures Valid() && old(run) <= run
      ensures st.writer == old(st.writer) && st.ctr == old(st.ctr) && st.data == old(st.data)
      ensures st.stores == old(st.stores)
    {
      var n: nat :| n >= 0;
      while n > 0
        invariant Valid() && old(run) <= run
        invariant st.writer == old(st.writer) && st.ctr == old(st.ctr) && st.data == old(st.data)
        invariant st.stores == old(st.stores)
      {
        var e: Event<W> := *;
        if !ByWriter(e) { Atomic(e); }
        n := n - 1;
      }
    }

    /** Any number of steps of the writer and of every reader but r. */
    method OthersRun(r: nat)
      requires Valid() && r < readers
      modifies this
      ensures Valid() && old(run) <= run
      ensures |old(st.readers)| == |st.readers| == readers && st.readers[r] == old(st.readers)[r]
    {
      ExecInv(initial, readers, run);
      var n: nat :| n >= 0;
      while n > 0
        invariant Valid() && old(run) <= run
        invariant |st.readers| == readers && st.readers[r] == old(st.readers)[r]
      {
        var e: Event<W> := *;
        if !ByReader(e, r) { Atomic(e); }
        n := n - 1;
      }
    }

    /** store(): the register holds the new value at the return, whatever the readers did. */
    method Store(value: seq<W>)
      requires Valid() && st.writer.Idle? && |value| == |initial|
      modifies this
      ensures Valid() && old(run) <= run && st.writer.Idle?
      ensures st.stores == old(st.stores) + [value]
      ensures st.ctr == old(st.ctr) + 2
      ensures StoresCompleted(st) < |st.stores| && Register(st) == value
    {
      BumpToOdd(value);
      WriteAll(value);
      ReadersRun();
      Atomic(BumpEven);
      ExecInv(initial, readers, run);
    }

    method BumpToOdd(value: seq<W>)
      requires Valid() && st.writer.Idle? && |value| == |initial|
      modifies this
      ensures Valid() && old(run) <= run && st.writer == Copying(old(st.seqno), value, 0)
      ensures st.ctr == old(st.ctr) + 1 && st.stores == old(st.stores) + [value]
    {
      FirstStore(initial, readers, run);
      ExecInv(initial, readers, run);
      ReadersRun();
      ExecInv(initial, readers, run);
      Atomic(BeginStore(value));
      ReadersRun();
      Atomic(BumpOdd);
    }

    method WriteAll(value: seq<W>)
      requires Valid() && st.writer.Copying? && st.writer.v == value && st.writer.done == 0
      requires |value| == |initial|
      modifies this
      ensures Valid() && old(run) <= run
      ensures st.writer == Copying(old(st.writer.s), value, |value|)
      ensures st.ctr == old(st.ctr) && st.stores == old(st.stores)
    {
      var k := 0;
      while k < |value|
        invariant 0 <= k <= |value|
        invariant Valid() && old(run) <= run
        invariant st.writer == Copying(old(st.writer.s), value, k)
        invariant st.ctr == old(st.ctr) && st.stores == old(st.stores)
      {
        ReadersRun();
        FirstStore(initial, readers, run);
        Atomic(WriteWord);
        k := k + 1;
      }
    }

    /**
     load() by reader r. The loop may retry forever; `budget` is how many rounds this call lives to
     see, and None means it is still retrying. A returned snapshot is the register at an instant
     inside the call, provided fewer than 2^31 stores begin in its validation window. Only the writer
     makes a round fail: in each of the windows `blocked` a store was in progress or began. With the writer
     idle at the call and no step of it since, the first round returns the register.
     */
    method Load(r: nat, budget: nat) returns (snapshot: Option<seq<W>>, ghost x: Return<W>, ghost blocked: seq<Window>)
      requires Valid() && r < readers && r < |st.readers| && st.readers[r].Away?
      modifies this
      ensures Valid() && old(run) <= run
      ensures r < |st.readers| && if snapshot.Some? then st.readers[r].Away? else st.readers[r].Spin?
      ensures snapshot.Some? ==> x.value == snapshot.value && x.reader == r && |old(run)| <= x.call
      ensures snapshot.Some? ==> |snapshot.value| == |initial|
      ensures snapshot.Some? ==> Linearized(initial, readers, run, x)
      ensures Blocked(initial, readers, run, |old(run)|, blocked)
      ensures if snapshot.Some? then |blocked| < budget else |blocked| == budget
      ensures old(st.writer.Idle?) && NoWriterStep(run, |old(run)|) && budget > 0 ==>
                && StoresCompleted(old(st)) < |old(st).stores| && snapshot == Some(Register(old(st)))
                && blocked == [] && x.fails == 0
    {
      assert st == Exec(Init(initial, readers), run);
      hide WriterBusy, Blocked, NoWriterStep, Exec, Valid;
      x, blocked := Return(0, 0, 0, 0, 0, 0, 0, 0, []), [];
      snapshot := None;
      ghost var call := BeginCall(r);
      NothingBlocked(|old(run)|);
      var rounds := budget;
      while rounds > 0
        invariant Valid() && old(run) <= run && |old(run)| <= call
        invariant Blocked(initial, readers, run, |old(run)|, blocked) && |blocked| == budget - rounds
        invariant |st.readers| == readers && st.readers[r].Spin? && st.readers[r].call == call && snapshot.None?
      {
        rounds := rounds - 1;
        ghost var was := run;
        var accepted;
        ghost var w;
        accepted, w := Attempt(r);
        if accepted {
          BlockedExtends(initial, readers, was, run, |old(run)|, blocked);
          snapshot, x := LastLoad(call, r);
          break;
        }
        BlockedSnoc(initial, readers, was, run, |old(run)|, blocked, w);
        blocked := blocked + [w];
      }
      if old(st.writer.Idle?) && NoWriterStep(run, |old(run)|) && budget > 0 {
        QuietLoad(old(run), old(st), snapshot, x, blocked);
      }
    }

    lemma NothingBlocked(from: nat)
      ensures Blocked(initial, readers, run, from, [])
    {
    }

    /** What the bookkeeping of a load says when the writer was quiet since state s. */
    lemma QuietLoad(was: seq<Event<W>>, s: State<W>, snapshot: Option<seq<W>>, x: Return<W>, blocked: seq<Window>)
      requires Valid() && was <= run && s == Exec(Init(initial, readers), was) && s.writer.Idle?
      requires NoWriterStep(run, |was|) && Blocked(initial, readers, run, |was|, blocked)
      requires snapshot.None? ==> blocked != []
      requires snapshot.Some? ==> x.value == snapshot.value && |was| <= x.call && Linearized(initial, readers, run, x)
      ensures StoresCompleted(s) < |s.stores| && snapshot == Some(Register(s)) && blocked == [] && x.fails == 0
    {
      hide Blocked, NoWriterStep, Linearized, Exec;
      assert run[..|was|] == was;
      QuietNotBlocked(initial, readers, run, |was|, blocked);
      QuietValue(initial, readers, run, |was|, x);
    }

    method BeginCall(r: nat) returns (ghost call: nat)
      requires Valid() && r < readers && r < |st.readers| && st.readers[r].Away?
      modifies this
      ensures Valid() && old(run) <= run && |old(run)| <= call
      ensures |st.readers| == readers && st.readers[r].Spin? && st.readers[r].call == call
    {
      OthersRun(r);
      ExecInv(initial, readers, run);
      call := |run|;
      Atomic(Call(r));
    }

    method LastLoad(ghost call: nat, ghost r: nat) returns (snapshot: Option<seq<W>>, ghost x: Return<W>)
      requires Valid() && |st.loads| > 0
      requires st.loads[|st.loads| - 1].call == call && st.loads[|st.loads| - 1].reader == r
      ensures snapshot == Some(x.value) && x.call == call && x.reader == r
      ensures Linearized(initial, readers, run, x)
    {
      x := st.loads[|st.loads| - 1];
      snapshot := Some(st.loads[|st.loads| - 1].value);
      EveryLoadLinearized(initial, readers, run, |st.loads| - 1);
    }

    /** One round of the loop: read seq_, give up if odd, copy word by word, read seq_ again. It fails only
        if the writer was busy in its window w. */
    method Attempt(r: nat) returns (accepted: bool, ghost w: Window)
      requires Valid() && r < readers && r < |st.readers| && st.readers[r].Spin?
      modifies this
      ensures Valid() && old(run) <= run
      ensures |st.readers| == readers
      ensures !accepted ==> st.readers[r].Spin? && st.readers[r].call == old(st.readers[r].call)
      ensures !accepted ==> |old(run)| <= w.at && WriterBusy(initial, readers, run, w)
      ensures accepted ==> st.readers[r].Away? && |st.loads| > 0
      ensures accepted ==> st.loads[|st.loads| - 1].reader == r
      ensures accepted ==> st.loads[|st.loads| - 1].call == old(st.readers[r].call)
    {
      hide WriterBusy, Exec;
      OthersRun(r);
      ghost var first, before := st, run;
      Atomic(ReadFirst(r));
      w := Window(|before|, |run|);
      if st.readers[r].Spin? {
        assert run[..w.at] == before;
        OddMeansBusy(initial, readers, run, w);
        return false, w;
      }
      CopyAll(r);
      OthersRun(r);
      SameWidth(r);
      ghost var second, mid := st, run;
      w := Window(|before|, |mid|);
      Atomic(Validate(r));
      accepted := st.readers[r].Away?;
      if !accepted {
        assert run[..w.at] == before && run[..w.done] == mid;
        ChangedMeansBusy(initial, readers, run, w);
      }
    }

    lemma SameWidth(r: nat)
      requires Valid() && r < |st.readers| && st.readers[r].Copy?
      ensures |st.data| == |initial|
    {
      FirstStore(initial, readers, run);
    }

    method CopyAll(r: nat)
      requires Valid() && r < readers && r < |st.readers| && st.readers[r].Copy? && st.readers[r].snap == []
      modifies this
      ensures Valid() && old(run) <= run
      ensures |st.readers| == readers && st.readers[r].Copy? && st.readers[r].s1 == old(st.readers[r].s1)
      ensures st.readers[r].call == old(st.readers[r].call) && |st.readers[r].snap| == |initial|
    {
      ExecInv(initial, readers, run);
      var k := 0;
      while k < |initial|
        invariant Valid() && old(run) <= run && k <= |initial|
        invariant |st.readers| == readers && st.readers[r].Copy? && st.readers[r].s1 == old(st.readers[r].s1)
        invariant st.readers[r].call == old(st.readers[r].call) && |st.readers[r].snap| == k
      {
        OthersRun(r);
        SameWidth(r);
        Atomic(CopyWord(r));
        k := k + 1;
      }
    }

    /** generation(): completed stores modulo 2^31, even while a store is in progress. */
    method GetGeneration() returns (g: nat)
      requires Valid()
      ensures g == StoresCompleted(st) % 0x8000_0000
    {
      g := st.seqno / 2;
      GenerationCounts(initial, readers, run);
    }
  }
}
