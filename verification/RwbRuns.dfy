/** Runs of calls on the table of read-write blockers, each call atomic. */
module RwbRuns {
  import opened Common
  import opened RwBlocker
  import opened RwbTable

  datatype Call =
    | Create(i: int, count: int)
    | Read(i: int, pid: int)
    | Write(i: int, pid: int)
    | Leave(i: int, pid: int)

  /** rwbcreate gives a free entry its first count. */
  function Opened(s: Rwbs, i: int, count: int): Rwbs
    requires Shape(s) && IsRwb(i)
  {
    s.(tab := s.tab[i := s.tab[i].(used := true, rwcount := count)], who := s.who[i := s.who[i].(base := count)])
  }

  /** Every process tries only when it uses no blocker, and only those inside signal. */
  ghost predicate Step(s: Rwbs, c: Call, t: Rwbs) {
    && Shape(s) && IsRwb(c.i)
    && match c
       case Create(i, count) => !s.tab[i].used && count >= 0 && t == Opened(s, i, count)
       case Read(i, x) => s.tab[i].used && Pid(x) && s.flags[x] == 0 && t == ReadTried(s, i, x)
       case Write(i, x) => s.tab[i].used && Pid(x) && s.flags[x] == 0 && t == WriteTried(s, i, x)
       case Leave(i, x) =>
         s.tab[i].used && Pid(x) && (x in s.who[i].readers || x in s.who[i].writers) && t == SignalMade(s, i, x)
  }

  /** No entry is in use: as the system starts. */
  function Fresh(): Rwbs {
    Rwbs(seq(RWB_COUNT, _ => Rwbentry(false, 0, [], 0)), seq(NPROC, _ => 0),
        seq(RWB_COUNT, _ => Members(0, {}, {}, [], [])))
  }

  lemma FreshInv()
    ensures TabInv(Fresh())
  {
    var s := Fresh();
    forall i | IsRwb(i)
      ensures EntryInv(s, i)
    {
      forall x | Pid(x)
        ensures FlagOk(View(s, i), x)
      {
        assert !Uses(s, i, x);
      }
    }
    assert forall x :: Pid(x) ==> Single(s, x);
  }

  lemma OpenedInv(s: Rwbs, i: int, count: int)
    requires TabInv(s) && IsRwb(i) && !s.tab[i].used && count >= 0
    ensures TabInv(Opened(s, i, count))
  {
    var t := Opened(s, i, count);
    forall j, x | IsRwb(j) && Pid(x)
      ensures Uses(t, j, x) <==> Uses(s, j, x)
    {
    }
    forall j | IsRwb(j)
      ensures EntryInv(t, j)
    {
      assert EntryInv(s, j);
      assert Flags(t, j) == Flags(s, j);
      if j == i {
        forall x | Pid(x)
          ensures FlagOk(View(t, i), x)
        {
          assert FlagOk(View(s, i), x);
        }
      } else {
        assert View(t, j) == View(s, j);
      }
    }
    hide Inv;
    forall x | Pid(x)
      ensures Single(t, x)
    {
      assert Single(s, x);
      if s.flags[x] != 0 {
        var j :| UsesOnly(s, j, x);
        assert UsesOnly(t, j, x);
      }
    }
  }

  lemma StepInv(s: Rwbs, c: Call, t: Rwbs)
    requires TabInv(s) && Step(s, c, t)
    ensures TabInv(t)
  {
    hide TabInv;
    TabShape(s);
    match c
    case Create(i, count) => OpenedInv(s, i, count);
    case Read(i, x) => TryKeepsOrder(s, i, x);
    case Write(i, x) => TryKeepsOrder(s, i, x);
    case Leave(i, x) => SignalKeepsOrder(s, i, x);
  }

  lemma TabShape(s: Rwbs)
    requires TabInv(s)
    ensures Shape(s)
  {
  }

  ghost predicate Run(s: seq<Rwbs>, cs: seq<Call>) {
    |s| == |cs| + 1 && forall k :: 0 <= k < |cs| ==> Step(s[k], cs[k], s[k + 1])
  }

  lemma {:induction false} RunInv(s: seq<Rwbs>, cs: seq<Call>, k: nat)
    requires Run(s, cs) && s[0] == Fresh() && k <= |cs|
    ensures TabInv(s[k])
  {
    hide TabInv;
    if k == 0 {
      FreshInv();
    } else {
      RunInv(s, cs, k - 1);
      assert Step(s[k - 1], cs[k - 1], s[k - 1 + 1]);
      StepInv(s[k - 1], cs[k - 1], s[k]);
    }
  }

  /** In every state of every run each blocker has a writer alone or no writer, its count
      says which, and its processes enter in the order in which they came. */
  lemma RunIsExclusive(s: seq<Rwbs>, cs: seq<Call>, k: nat, i: int)
    requires Run(s, cs) && s[0] == Fresh() && k <= |cs| && IsRwb(i)
    ensures Shape(s[k]) && Exclusive(View(s[k], i)) && Counts(View(s[k], i))
    ensures s[k].who[i].asked == s[k].who[i].entered + s[k].tab[i].rwqueue
    ensures s[k].who[i].asked == AskedBy(cs, i, k)
  {
    RunInv(s, cs, k);
    assert EntryInv(s[k], i);
    InvIsExclusive(View(s[k], i));
    AskedInOrder(s, cs, k, i);
  }

  /** The processes that tried to enter blocker `i` in the first `k` calls, in order. */
  function AskedBy(cs: seq<Call>, i: int, k: nat): seq<int>
    requires k <= |cs|
  {
    if k == 0 then []
    else AskedBy(cs, i, k - 1)
         + if (cs[k - 1].Read? || cs[k - 1].Write?) && cs[k - 1].i == i then [cs[k - 1].pid] else []
  }

  lemma {:induction false} ReleasedAsk(t: Lock)
    ensures ReleaseReaders(t).asked == t.asked
    decreases |t.queue|
  {
    if t.queue != [] && Flag(t, t.queue[0]) == READER { ReleasedAsk(ReleaseReader(t)); }
  }

  lemma StepAsks(s: Rwbs, c: Call, t: Rwbs, i: int)
    requires Step(s, c, t) && IsRwb(i)
    ensures Shape(t)
    ensures t.who[i].asked == s.who[i].asked + if (c.Read? || c.Write?) && c.i == i then [c.pid] else []
  {
    if c.Leave? { ReleasedAsk(Left(View(s, c.i), c.pid)); }
  }

  lemma {:induction false} AskedInOrder(s: seq<Rwbs>, cs: seq<Call>, k: nat, i: int)
    requires Run(s, cs) && s[0] == Fresh() && k <= |cs| && IsRwb(i)
    ensures Shape(s[k]) && s[k].who[i].asked == AskedBy(cs, i, k)
  {
    hide Step;
    if k > 0 {
      AskedInOrder(s, cs, k - 1, i);
      assert Step(s[k - 1], cs[k - 1], s[k - 1 + 1]);
      StepAsks(s[k - 1], cs[k - 1], s[k], i);
    }
  }

  // ---- A process that uses two blockers at once -----------------------------------------

  /** Releasing readers changes the count and the number of readers alike. */
  lemma {:induction false} ReleaseKeepsError(s: Lock)
    requires NoDup(s.queue) && forall x :: x in s.queue ==> x !in s.readers
    ensures ReleaseReaders(s).rwcount - |ReleaseReaders(s).readers| == s.rwcount - |s.readers|
    ensures ReleaseReaders(s).writers == s.writers
    decreases |s.queue|
  {
    if s.queue != [] && Flag(s, s.queue[0]) == READER {
      assert s.queue == [s.queue[0]] + s.queue[1..];
      assert s.queue[0] in s.queue;
      ReleaseKeepsError(ReleaseReader(s));
    }
  }

  /** A writer whose flag says that it is a reader takes two from the count when it leaves. */
  lemma LeavesWrongly(s: Lock, x: int)
    requires |s.flags| == NPROC && Pid(x) && s.writers == {x}
    requires s.readers == {} && s.rwcount == -1 && s.flags[x] != WRITER
    requires NoDup(s.queue)
    ensures Signalled(s, x).writers == {} && Signalled(s, x).rwcount == |Signalled(s, x).readers| - 2
  {
    ReleaseKeepsError(Left(s, x));
  }

  /** The writer of blocker `a` that enters `b` as a reader and then signals `a` leaves the
      count of `a` two below its number of readers. */
  lemma NestedUse(s: Rwbs, a: int, b: int, x: int)
    requires TabInv(s) && !BadRwb(s, a) && !BadRwb(s, b) && a != b && Pid(x) && x in s.who[a].writers
    requires s.tab[b].rwcount >= 0 && s.tab[b].qcount == 0
    ensures var u := SignalMade(ReadTried(s, b, x), a, x);
            u.who[a].writers == {} && u.tab[a].rwcount == |u.who[a].readers| - 2
  {
    var t := ReadTried(s, b, x);
    assert EntryInv(s, a) && FlagOk(View(s, a), x) && Uses(s, a, x);
    assert View(t, a).queue == View(s, a).queue && Uses(t, a, x) && View(t, a).flags[x] == READER;
    assert s.who[a].writers == {x} by { OneWriter(s.who[a].writers, x); }
    LeavesWrongly(View(t, a), x);
  }

  /** With two readers waiting that makes the count 0 while both are inside, and a writer
      that comes next is let in beside them. */
  lemma WriterBesideReaders(s: Lock, x: int)
    requires |s.flags| == NPROC && Pid(x) && s.rwcount == |s.readers| - 2 && |s.readers| == 2 && s.qcount == 0
    ensures !Exclusive(TriedWrite(s, x))
  {
    assert x in TriedWrite(s, x).writers;
  }

  /** Blockers 0 and 1 exist, process 1 writes in the first, 2 and 3 wait there to read. */
  function TwoWait(): Rwbs {
    ReadTried(ReadTried(WriteTried(Opened(Opened(Fresh(), 0, 0), 1, 0), 0, 1), 0, 2), 0, 3)
  }

  lemma TwoWaitIs()
    ensures TabInv(TwoWait()) && !BadRwb(TwoWait(), 0) && !BadRwb(TwoWait(), 1)
    ensures var s := TwoWait();
            s.who[0] == Members(0, {}, {1}, [1, 2, 3], [1]) && s.tab[0] == Rwbentry(true, -1, [2, 3], 2)
            && s.tab[1] == Rwbentry(true, 0, [], 0) && s.flags[1] == WRITER && s.flags[2] == READER == s.flags[3]
            && forall x :: x > 3 && Pid(x) ==> s.flags[x] == 0
  {
    hide TabInv, Single, EntryInv;
    FreshInv();
    var s0 := Opened(Fresh(), 0, 0);
    OpenedInv(Fresh(), 0, 0);
    var s1 := Opened(s0, 1, 0);
    OpenedInv(s0, 1, 0);
    var s2 := WriteTried(s1, 0, 1);
    TryKeepsOrder(s1, 0, 1);
    assert s2.who[0] == Members(0, {}, {1}, [1], [1]) && s2.tab[0] == Rwbentry(true, -1, [], 0);
    var s3 := ReadTried(s2, 0, 2);
    TryKeepsOrder(s2, 0, 2);
    assert s3.who[0] == Members(0, {}, {1}, [1, 2], [1]) && s3.tab[0] == Rwbentry(true, -1, [2], 1);
    TryKeepsOrder(s3, 0, 3);
  }

  lemma TwoReleased(v: Lock)
    requires |v.flags| == NPROC && v.queue == [2, 3] && v.qcount == 2
    requires v.readers == {} && v.writers == {1} && v.rwcount == -1
    requires v.flags[1] == v.flags[2] == v.flags[3] == READER
    ensures var u := Signalled(v, 1); u.readers == {2, 3} && u.writers == {} && u.rwcount == 0 && u.qcount == 0
  {
    var w := Left(v, 1);
    var w1 := ReleaseReader(w);
    var w2 := ReleaseReader(w1);
    assert w1.queue == [3] && w2.queue == [];
    assert ReleaseReaders(w) == ReleaseReaders(w1) == ReleaseReaders(w2) == w2;
  }

  /** Process 1 now reads in the second blocker, leaves the first, and process 4 writes
      there: it is let in beside readers 2 and 3. */
  lemma NestedRun()
    ensures var u := SignalMade(ReadTried(TwoWait(), 1, 1), 0, 1);
            && u.who[0].readers == {2, 3} && u.tab[0].rwcount == 0 && u.flags[4] == 0
            && !Exclusive(TriedWrite(View(u, 0), 4))
  {
    hide TwoWait, Signalled, WriteEnters, ReadEnters, TriedWrite;
    TwoWaitIs();
    var s := TwoWait();
    var t := ReadTried(s, 1, 1);
    var v := View(t, 0);
    assert Uses(t, 0, 1) && Uses(t, 0, 2) && Uses(t, 0, 3);
    TwoReleased(v);
    WriterBesideReaders(View(SignalMade(t, 0, 1), 0), 4);
  }
}
