/** The table of read-write blockers.  All entries share one array that says for each
    process in which role it last tried to enter any of them. */
module RwbTable {
  import opened Common
  import opened RwBlocker

  const RWB_COUNT := 10

  datatype Rwbentry = Rwbentry(used: bool, rwcount: int, rwqueue: seq<int>, qcount: int)

  /** Who is inside a blocker and who came and entered in which order. */
  datatype Members = Members(base: int, readers: set<int>, writers: set<int>, asked: seq<int>, entered: seq<int>)

  datatype Rwbs = Rwbs(tab: seq<Rwbentry>, flags: seq<int>, who: seq<Members>)

  predicate IsRwb(i: int) { 0 <= i < RWB_COUNT }

  predicate Shape(s: Rwbs) { |s.tab| == RWB_COUNT && |s.who| == RWB_COUNT && |s.flags| == NPROC }

  predicate Uses(s: Rwbs, i: int, x: int)
    requires Shape(s) && IsRwb(i)
  {
    x in s.who[i].readers || x in s.who[i].writers || x in s.tab[i].rwqueue
  }

  /** The flags of the processes that use blocker `i`. */
  function Flags(s: Rwbs, i: int): (r: seq<int>)
    requires Shape(s) && IsRwb(i)
    ensures |r| == NPROC
  {
    seq(NPROC, x requires 0 <= x < NPROC => if Uses(s, i, x) then s.flags[x] else 0)
  }

  /** One blocker of the table as a lock of its own. */
  function View(s: Rwbs, i: int): (v: Lock)
    requires Shape(s) && IsRwb(i)
    ensures |v.flags| == NPROC
  {
    var e, m := s.tab[i], s.who[i];
    Lock(e.rwcount, e.qcount, e.rwqueue, Flags(s, i), m.base, m.readers, m.writers, m.asked, m.entered)
  }

  /** Blocker `i` goes over to `t`, and process `x` has flag `f` from now on. */
  function With(s: Rwbs, i: int, t: Lock, x: int, f: int): Rwbs
    requires Shape(s) && IsRwb(i) && Pid(x)
  {
    Rwbs(s.tab[i := Rwbentry(s.tab[i].used, t.rwcount, t.queue, t.qcount)], s.flags[x := f],
         s.who[i := Members(t.base, t.readers, t.writers, t.asked, t.entered)])
  }

  ghost predicate UsesOnly(s: Rwbs, i: int, x: int)
    requires Shape(s)
  {
    IsRwb(i) && Uses(s, i, x) && forall j :: IsRwb(j) && j != i ==> !Uses(s, j, x)
  }

  /** A process uses exactly one blocker if its flag is set and none otherwise. */
  ghost predicate Single(s: Rwbs, x: int)
    requires Shape(s) && Pid(x)
  {
    if s.flags[x] == 0 then forall i :: IsRwb(i) ==> !Uses(s, i, x) else exists i :: UsesOnly(s, i, x)
  }

  ghost predicate Unused(t: Lock) {
    t.rwcount == 0 && t.base == 0 && t.queue == [] && t.readers == {} && t.writers == {}
  }

  ghost predicate EntryInv(s: Rwbs, i: int)
    requires Shape(s) && IsRwb(i)
  {
    Inv(View(s, i)) && (!s.tab[i].used ==> Unused(View(s, i)))
  }

  /** Every blocker is in order, and no process uses two. */
  ghost predicate TabInv(s: Rwbs) {
    && Shape(s)
    && (forall i :: IsRwb(i) ==> EntryInv(s, i))
    && (forall x :: Pid(x) ==> Single(s, x))
  }

  predicate BadRwb(s: Rwbs, i: int) { !IsRwb(i) || i >= |s.tab| || !s.tab[i].used }

  // ---- The calls -----------------------------------------------------------------------

  function ReadTried(s: Rwbs, i: int, x: int): Rwbs
    requires Shape(s) && IsRwb(i) && Pid(x)
  {
    With(s, i, TriedRead(View(s, i), x), x, READER)
  }

  function WriteTried(s: Rwbs, i: int, x: int): Rwbs
    requires Shape(s) && IsRwb(i) && Pid(x)
  {
    With(s, i, TriedWrite(View(s, i), x), x, WRITER)
  }

  function SignalMade(s: Rwbs, i: int, x: int): Rwbs
    requires Shape(s) && IsRwb(i) && Pid(x)
  {
    With(s, i, Signalled(View(s, i), x), x, 0)
  }

  /** How one blocker may change: only `x` comes or goes, with the flag that the table gets. */
  ghost predicate Moves(s: Lock, t: Lock, x: int, f: int) {
    && |s.flags| == |t.flags| == NPROC && Pid(x)
    && (forall y :: Pid(y) && y != x ==> t.flags[y] == s.flags[y])
    && (forall y :: y != x ==> (In(t, y) <==> In(s, y)))
    && t.flags[x] == (if In(t, x) then f else 0)
  }

  /** The other blockers do not see it, and this one is what it was meant to be. */
  lemma WithView(s: Rwbs, i: int, t: Lock, x: int, f: int)
    requires Shape(s) && IsRwb(i) && Moves(View(s, i), t, x, f)
    ensures View(With(s, i, t, x, f), i) == t
    ensures forall j :: IsRwb(j) && j != i && !Uses(s, j, x) ==> View(With(s, i, t, x, f), j) == View(s, j)
  {
    var u := With(s, i, t, x, f);
    forall y | Pid(y)
      ensures Flags(u, i)[y] == t.flags[y]
    {
      assert Uses(u, i, y) <==> In(t, y);
      assert Uses(s, i, y) <==> In(View(s, i), y);
    }
    assert Flags(u, i) == t.flags;
    forall j | IsRwb(j) && j != i && !Uses(s, j, x)
      ensures View(u, j) == View(s, j)
    {
      forall y | Pid(y)
        ensures Flags(u, j)[y] == Flags(s, j)[y]
      {
        assert Uses(u, j, y) <==> Uses(s, j, y);
      }
      assert Flags(u, j) == Flags(s, j);
    }
  }

  /** A step on one blocker by a process that uses no other one. */
  lemma WithInv(s: Rwbs, i: int, t: Lock, x: int, f: int)
    requires TabInv(s) && !BadRwb(s, i) && Moves(View(s, i), t, x, f) && Inv(t) && (f != 0 <==> In(t, x))
    requires forall j :: IsRwb(j) && j != i ==> !Uses(s, j, x)
    ensures TabInv(With(s, i, t, x, f))
  {
    var u := With(s, i, t, x, f);
    WithView(s, i, t, x, f);
    forall j | IsRwb(j)
      ensures EntryInv(u, j)
    {
      assert EntryInv(s, j);
    }
    hide Inv, Unused;
    forall y | Pid(y)
      ensures Single(u, y)
    {
      assert forall j :: IsRwb(j) && j != i ==> (Uses(u, j, y) <==> Uses(s, j, y));
      assert Uses(u, i, y) <==> In(t, y);
      assert Uses(s, i, y) <==> In(View(s, i), y);
      assert Single(s, y);
      if y == x {
        assert f != 0 ==> UsesOnly(u, i, x);
      } else if s.flags[y] != 0 {
        var j :| UsesOnly(s, j, y);
        assert UsesOnly(u, j, y);
      }
    }
  }

  lemma TriedMoves(s: Lock, x: int)
    requires |s.flags| == NPROC && Pid(x)
    ensures Moves(s, TriedRead(s, x), x, READER) && Moves(s, TriedWrite(s, x), x, WRITER)
    ensures In(TriedRead(s, x), x) && In(TriedWrite(s, x), x)
  {
  }

  lemma {:induction false} ReleasedMoves(s: Lock)
    ensures ReleaseReaders(s).flags == s.flags
    ensures forall y :: In(ReleaseReaders(s), y) <==> In(s, y)
    decreases |s.queue|
  {
    if s.queue != [] && Flag(s, s.queue[0]) == READER {
      ReleasedMoves(ReleaseReader(s));
      assert s.queue == [s.queue[0]] + s.queue[1..];
    }
  }

  lemma SignalledMoves(s: Lock, x: int)
    requires Inv(s) && Pid(x) && (x in s.readers || x in s.writers)
    ensures Moves(s, Signalled(s, x), x, 0) && !In(Signalled(s, x), x)
  {
    var t := Left(s, x);
    assert FlagOk(s, x);
    if t.queue != [] {
      assert t.queue == [t.queue[0]] + t.queue[1..];
    }
    ReleasedMoves(t);
    hide Inv, ReleaseReaders;
  }

  /** A try keeps the table in order exactly when the process uses no blocker yet. */
  lemma TryKeepsOrder(s: Rwbs, i: int, x: int)
    requires TabInv(s) && !BadRwb(s, i) && Pid(x)
    ensures TabInv(ReadTried(s, i, x)) <==> s.flags[x] == 0
    ensures TabInv(WriteTried(s, i, x)) <==> s.flags[x] == 0
  {
    var v := View(s, i);
    TriedMoves(v, x);
    assert EntryInv(s, i) && Single(s, x);
    if s.flags[x] == 0 {
      assert v.flags[x] == 0;
      TriedInv(v, x);
      WithInv(s, i, TriedRead(v, x), x, READER);
      WithInv(s, i, TriedWrite(v, x), x, WRITER);
    } else {
      var j :| UsesOnly(s, j, x);
      TriedTwice(s, i, j, x, TriedRead(v, x), READER);
      TriedTwice(s, i, j, x, TriedWrite(v, x), WRITER);
    }
  }

  lemma TriedTwice(s: Rwbs, i: int, j: int, x: int, t: Lock, f: int)
    requires Shape(s) && IsRwb(i) && IsRwb(j) && Pid(x) && Uses(s, j, x) && Inv(View(s, i))
    requires (t == TriedRead(View(s, i), x) && f == READER) || (t == TriedWrite(View(s, i), x) && f == WRITER)
    ensures !TabInv(With(s, i, t, x, f))
  {
    var u := With(s, i, t, x, f);
    assert u.flags[x] == f != 0;
    if i != j {
      assert Uses(u, i, x) && Uses(u, j, x);
      forall k
        ensures !UsesOnly(u, k, x)
      {
      }
      assert !Single(u, x);
    } else {
      AgainInside(View(s, i), x, t);
      TriedMoves(View(s, i), x);
      WithView(s, i, t, x, f);
      assert !EntryInv(u, i);
    }
  }

  /** Entering again what one already uses breaks the count or the queue. */
  lemma AgainInside(s: Lock, x: int, t: Lock)
    requires Inv(s) && Pid(x) && In(s, x) && (t == TriedRead(s, x) || t == TriedWrite(s, x))
    ensures !Inv(t)
  {
    assert FlagOk(s, x);
    if x in t.queue && !(x in s.readers || x in s.writers) {
      var k :| 0 <= k < |s.queue| && s.queue[k] == x;
      assert t.queue[k] == t.queue[|s.queue|];
    } else if x in t.queue {
      assert !FlagOk(t, x);
    }
  }

  /** A holder signals. */
  lemma SignalKeepsOrder(s: Rwbs, i: int, x: int)
    requires TabInv(s) && !BadRwb(s, i) && Pid(x) && (x in s.who[i].readers || x in s.who[i].writers)
    ensures TabInv(SignalMade(s, i, x))
  {
    var v := View(s, i);
    assert EntryInv(s, i) && Single(s, x) && FlagOk(v, x) && Uses(s, i, x);
    SignalledInv(v, x);
    SignalledMoves(v, x);
    hide Inv;
    WithInv(s, i, Signalled(v, x), x, 0);
  }
}
