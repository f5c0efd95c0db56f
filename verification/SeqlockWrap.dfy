/**
 The bound in Seqlock.LoadLinearizable is exact: with 2^31 stores inside one validation window the
 32-bit sequence number comes back to the value first read and a torn snapshot is accepted.
 */
module SeqlockWrap {
  import opened Seqlock

  function Words<W>(k: nat): seq<Event<W>> {
    if k == 0 then [] else Words(k - 1) + [WriteWord]
  }

  /** One undisturbed store(). */
  function StoreEvents<W>(w: seq<W>): seq<Event<W>> {
    [BeginStore(w)] + ([BumpOdd] + (Words(|w|) + [BumpEven]))
  }

  function {:tailrecursion false} Repeat<W>(n: nat, w: seq<W>): seq<Event<W>> {
    if n == 0 then [] else Repeat(n - 1, w) + StoreEvents(w)
  }

  predicate Quiet<W>(s: State<W>, w: seq<W>) {
    s.writer.Idle? && |s.stores| > 0 && |s.stores[0]| == |s.data| == |w| && s.seqno == Wrap(s.ctr)
  }

  /** t is s after n stores of w that no reader step interrupted. */
  ghost predicate Stored<W>(s: State<W>, t: State<W>, n: nat, w: seq<W>) {
    && Quiet(t, w) && t.ctr == s.ctr + 2 * n && t.data == w
    && t.readers == s.readers && t.loads == s.loads
    && |t.stores| == |s.stores| + n && s.stores <= t.stores
    && (forall i | |s.stores| <= i < |t.stores| :: t.stores[i] == w)
  }

  /** t is s with k words of w copied. */
  predicate Copied<W(==)>(s: State<W>, t: State<W>, w: seq<W>, c: nat, k: nat)
    requires |s.data| == |w| && k <= |w|
  {
    t == s.(data := w[..k] + s.data[k..], writer := Copying(c, w, k), now := s.now + k)
  }

  lemma CopyNone<W>(s: State<W>, w: seq<W>, c: nat)
    requires |s.stores| > 0 && s.writer == Copying(c, w, 0) && |s.data| == |w|
    ensures Copied(s, Exec(s, Words(0)), w, c, 0)
  {
    assert w[..0] + s.data[0..] == s.data;
  }

  lemma CopyNext<W>(s: State<W>, w: seq<W>, c: nat, k: nat)
    requires |s.stores| > 0 && |s.data| == |w| && k < |w| && Copied(s, Exec(s, Words(k)), w, c, k)
    ensures Copied(s, Exec(s, Words(k + 1)), w, c, k + 1)
  {
    hide Exec, Step;
    SnocExec(s, Words(k), WriteWord);
    CopyOne(Exec(s, Words(k)), s.data, w, c, k);
  }

  /** The copy loop, undisturbed: k words in, the first k are the new value's. */
  lemma {:induction false} CopyWords<W>(s: State<W>, w: seq<W>, c: nat, k: nat)
    requires |s.stores| > 0 && s.writer == Copying(c, w, 0) && |s.data| == |w| && k <= |w|
    ensures Copied(s, Exec(s, Words(k)), w, c, k)
  {
    hide Copied, Exec, Words;
    if k == 0 {
      CopyNone(s, w, c);
    } else {
      CopyWords(s, w, c, k - 1);
      CopyNext(s, w, c, k - 1);
    }
  }

  lemma CopyOne<W>(s: State<W>, data: seq<W>, w: seq<W>, c: nat, k: nat)
    requires |s.stores| > 0 && s.writer == Copying(c, w, k) && k < |w| == |data| && s.data == w[..k] + data[k..]
    ensures Step(s, WriteWord) == s.(data := w[..k + 1] + data[k + 1..], writer := Copying(c, w, k + 1), now := s.now + 1)
  {
    assert s.data[k := w[k]] == w[..k + 1] + data[k + 1..];
  }

  lemma StoreOnce<W>(s: State<W>, w: seq<W>)
    requires Quiet(s, w)
    ensures Stored(s, Exec(s, StoreEvents(w)), 1, w)
  {
    hide Exec, Words;
    var s1 := s.(writer := Loaded(s.seqno, w), now := s.now + 1);
    var s2 := s1.(seqno := Wrap(s.seqno + 1), ctr := s.ctr + 1, stores := s.stores + [w],
                  writer := Copying(s.seqno, w, 0), now := s.now + 2);
    var s3 := s2.(data := w, writer := Copying(s.seqno, w, |w|), now := s2.now + |w|);
    assert Step(s, BeginStore(w)) == s1;
    assert Step(s1, BumpOdd) == s2;
    CopyWords(s2, w, s.seqno, |w|);
    assert w[..|w|] + s2.data[|w|..] == w;
    ExecCons(s, BeginStore(w), [BumpOdd] + (Words(|w|) + [BumpEven]));
    ExecCons(s1, BumpOdd, Words(|w|) + [BumpEven]);
    ExecAppend(s2, Words(|w|), [BumpEven]);
    ExecOne(s3, BumpEven);
    WrapAdds(s.ctr, 2);
  }

  lemma StoredTrans<W>(s: State<W>, m: State<W>, t: State<W>, n: nat, w: seq<W>)
    requires Stored(s, m, n, w) && Stored(m, t, 1, w)
    ensures Stored(s, t, n + 1, w)
  {
  }

  lemma {:induction false} StoreMany<W>(s: State<W>, n: nat, w: seq<W>)
    requires Quiet(s, w) && n > 0
    ensures Stored(s, Exec(s, Repeat(n, w)), n, w)
  {
    if n == 1 {
      assert Repeat(0, w) + StoreEvents(w) == StoreEvents(w);
      StoreOnce(s, w);
    } else {
      StoreMany(s, n - 1, w);
      var m := Exec(s, Repeat(n - 1, w));
      StoreOnce(m, w);
      ExecAppend(s, Repeat(n - 1, w), StoreEvents(w));
      StoredTrans(s, m, Exec(m, StoreEvents(w)), n - 1, w);
    }
  }

  /** Read half of [a, a], let 2^31 stores of [b, b] pass, read the other half. */
  function TornRun<W>(a: W, b: W): seq<Event<W>> {
    [Call(0), ReadFirst(0), CopyWord(0)] + Repeat(0x8000_0000, [b, b]) + [CopyWord(0), Validate(0)]
  }

  lemma HalfRead<W>(a: W)
    ensures Exec(Init([a, a], 1), [Call(0), ReadFirst(0), CopyWord(0)])
            == Init([a, a], 1).(now := 3, readers := [Copy(0, 0, 0, 1, 0, 0, [a])])
  {
    var s0 := Init([a, a], 1);
    var s1 := s0.(now := 1, readers := [Spin(0, 0, 0)]);
    var s2 := s0.(now := 2, readers := [Copy(0, 0, 0, 1, 0, 0, [])]);
    assert Step(s0, Call(0)) == s1;
    assert Step(s1, ReadFirst(0)) == s2;
    var none: seq<W> := [];
    assert none + [a] == [a];
    assert Step(s2, CopyWord(0)) == s0.(now := 3, readers := [Copy(0, 0, 0, 1, 0, 0, [a])]);
    ExecCons(s0, Call(0), [ReadFirst(0), CopyWord(0)]);
    ExecCons(s1, ReadFirst(0), [CopyWord(0)]);
    ExecOne(s2, CopyWord(0));
    var tail: seq<Event<W>> := [ReadFirst(0), CopyWord(0)];
    assert [Event<W>.ReadFirst(0)] + [CopyWord(0)] == tail;
    assert [Event<W>.Call(0)] + tail == [Call(0), ReadFirst(0), CopyWord(0)];
  }

  lemma SecondHalf<W>(t: State<W>, a: W, b: W)
    requires |t.stores| > 0 && t.data == [b, b] && t.seqno == 0 && t.readers == [Copy(0, 0, 0, 1, 0, 0, [a])]
    ensures var z := Exec(t, [CopyWord(0), Validate(0)]);
            z.stores == t.stores
            && z.loads == t.loads + [Return(0, 0, 1, t.now + 1, 0, 0, t.ctr, 0, [a, b])]
  {
    var t1 := t.(now := t.now + 1, readers := [Copy(0, 0, 0, 1, 0, 0, [a, b])]);
    assert [a] + [b] == [a, b];
    assert Step(t, CopyWord(0)) == t1;
    ExecCons(t, CopyWord(0), [Validate(0)]);
    ExecOne(t1, Validate(0));
    assert [Event<W>.CopyWord(0)] + [Validate(0)] == [CopyWord(0), Validate(0)];
  }

  /** A concrete run that returns a value nobody ever stored. */
  lemma TornAfterWrap<W>(a: W, b: W)
    requires a != b
    ensures var z := Exec(Init([a, a], 1), TornRun(a, b));
            && |z.loads| == 1 && z.loads[0].value == [a, b]
            && (forall i | 0 <= i < |z.stores| :: z.stores[i] != [a, b])
            && StoresBegun(z) == 0x8000_0000
  {
    hide Step, Exec, Repeat;
    var s0 := Init([a, a], 1);
    var first: seq<Event<W>> := [Call(0), ReadFirst(0), CopyWord(0)];
    var last: seq<Event<W>> := [CopyWord(0), Validate(0)];
    var many := Repeat(0x8000_0000, [b, b]);
    HalfRead(a);
    var s := Exec(s0, first);
    StoreMany(s, 0x8000_0000, [b, b]);
    ExecAppend(s0, first, many);
    ExecAppend(s0, first + many, last);
    var t := Exec(s0, first + many);
    SecondHalf(t, a, b);
    assert [a, a][1] != [a, b][1] && [b, b][0] != [a, b][0];
  }
}
