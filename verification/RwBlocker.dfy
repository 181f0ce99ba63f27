/** The read-write blocker: a first-come first-served lock for readers and writers.  Here
    every call is atomic: rwb_tryread, rwb_trywrite and signalrwb on one entry of the
    table, as functions. */
module RwBlocker {
  import opened Common

  const READER := 1
  const WRITER := -1

  /** A table entry and the flags of the processes that use it; `base` is the count it was
      created with, `readers` and `writers` are the active processes, `asked` and `entered`
      all that have asked to enter and that have entered, in order. */
  datatype Lock = Lock(rwcount: int, qcount: int, queue: seq<int>, flags: seq<int>, base: int,
                       readers: set<int>, writers: set<int>, asked: seq<int>, entered: seq<int>)

  /** The flag of a process says what it is doing. */
  ghost predicate FlagOk(s: Lock, x: int)
    requires |s.flags| == NPROC && Pid(x)
  {
    && (s.flags[x] == 0 || s.flags[x] == READER || s.flags[x] == WRITER)
    && (s.flags[x] == 0 <==> x !in s.readers && x !in s.writers && x !in s.queue)
    && (x in s.readers ==> s.flags[x] == READER && x !in s.queue)
    && (x in s.writers ==> s.flags[x] == WRITER && x !in s.queue)
  }

  /** `rwcount` is the number of active readers above the initial count, or -1 for exactly
      one active writer. */
  ghost predicate Counts(s: Lock) {
    && s.base >= 0
    && if s.writers == {} then s.rwcount == s.base + |s.readers|
       else s.base == 0 && s.readers == {} && |s.writers| == 1 && s.rwcount == -1
  }

  ghost predicate Inv(s: Lock) {
    && |s.flags| == NPROC && Counts(s) && s.qcount == |s.queue| && NoDup(s.queue)
    && (forall x :: x in s.readers || x in s.writers || x in s.queue ==> Pid(x))
    && (forall x :: Pid(x) ==> FlagOk(s, x))
    // a free lock has no waiters, and a waiter behind active readers sees a writer at the head
    && (s.rwcount == 0 ==> s.queue == [])
    && (s.rwcount > 0 && s.queue != [] ==> Flag(s, s.queue[0]) == WRITER)
    // first come, first served
    && s.asked == s.entered + s.queue
  }

  /** Never a writer together with anybody else. */
  ghost predicate Exclusive(s: Lock) { s.writers != {} ==> s.readers == {} && |s.writers| == 1 }

  function Flag(s: Lock, x: int): int { if 0 <= x < |s.flags| then s.flags[x] else 0 }

  predicate In(s: Lock, x: int) { x in s.readers || x in s.writers || x in s.queue }

  // ---- Entering ------------------------------------------------------------------------

  function Queued(s: Lock, x: int, flag: int): Lock
    requires 0 <= x < |s.flags|
  {
    s.(flags := s.flags[x := flag], qcount := s.qcount + 1, queue := s.queue + [x], asked := s.asked + [x])
  }

  function ReadEnters(s: Lock, x: int): Lock
    requires 0 <= x < |s.flags|
  {
    s.(flags := s.flags[x := READER], rwcount := s.rwcount + 1, readers := s.readers + {x},
       asked := s.asked + [x], entered := s.entered + [x])
  }

  function WriteEnters(s: Lock, x: int): Lock
    requires 0 <= x < |s.flags|
  {
    s.(flags := s.flags[x := WRITER], rwcount := s.rwcount - 1, writers := s.writers + {x},
       asked := s.asked + [x], entered := s.entered + [x])
  }

  /** rwb_tryread. */
  function TriedRead(s: Lock, x: int): Lock
    requires 0 <= x < |s.flags|
  {
    if s.rwcount < 0 || s.qcount > 0 then Queued(s, x, READER) else ReadEnters(s, x)
  }

  /** rwb_trywrite. */
  function TriedWrite(s: Lock, x: int): Lock
    requires 0 <= x < |s.flags|
  {
    if s.rwcount != 0 || s.qcount > 0 then Queued(s, x, WRITER) else WriteEnters(s, x)
  }

  // ---- Leaving -------------------------------------------------------------------------

  /** A holder leaves. */
  function Left(s: Lock, x: int): Lock
    requires 0 <= x < |s.flags|
  {
    s.(flags := s.flags[x := 0], rwcount := if s.flags[x] == WRITER then s.rwcount + 1 else s.rwcount - 1,
       readers := s.readers - {x}, writers := s.writers - {x})
  }

  /** The first waiting process is released as a reader or a writer. */
  function ReleaseReader(s: Lock): Lock
    requires s.queue != []
  {
    s.(qcount := s.qcount - 1, queue := s.queue[1..], rwcount := s.rwcount + 1,
       readers := s.readers + {s.queue[0]}, entered := s.entered + [s.queue[0]])
  }

  function ReleaseWriter(s: Lock): Lock
    requires s.queue != []
  {
    s.(qcount := s.qcount - 1, queue := s.queue[1..], rwcount := s.rwcount - 1,
       writers := s.writers + {s.queue[0]}, entered := s.entered + [s.queue[0]])
  }

  /** All readers at the head of the queue are released together. */
  function ReleaseReaders(s: Lock): (t: Lock)
    ensures |t.queue| <= |s.queue|
    decreases |s.queue|
  {
    if s.queue != [] && Flag(s, s.queue[0]) == READER then ReleaseReaders(ReleaseReader(s)) else s
  }

  /** Who may enter once a holder has left. */
  function Next(t: Lock): Lock {
    if t.queue == [] then t
    else if Flag(t, t.queue[0]) == WRITER then (if t.rwcount == 0 then ReleaseWriter(t) else t)
    else ReleaseReaders(t)
  }

  /** _signalrwb. */
  function Signalled(s: Lock, x: int): Lock
    requires 0 <= x < |s.flags|
  {
    Next(Left(s, x))
  }

  // ---- Every atomic call keeps the invariant --------------------------------------------

  lemma InvIsExclusive(s: Lock)
    requires Inv(s)
    ensures Exclusive(s)
  {
  }

  /** A process outside the lock tries to enter. */
  lemma TriedInv(s: Lock, x: int)
    requires Inv(s) && Pid(x) && s.flags[x] == 0
    ensures Inv(TriedRead(s, x)) && Inv(TriedWrite(s, x))
  {
    assert FlagOk(s, x);
    QueuedInv(s, x);
    if !(s.rwcount < 0 || s.qcount > 0) { ReadEntersInv(s, x); }
    if !(s.rwcount != 0 || s.qcount > 0) { WriteEntersInv(s, x); }
    hide Inv;
  }

  lemma QueuedInv(s: Lock, x: int)
    requires Inv(s) && Pid(x) && s.flags[x] == 0
    ensures s.rwcount < 0 || s.qcount > 0 ==> Inv(Queued(s, x, READER))
    ensures s.rwcount != 0 || s.qcount > 0 ==> Inv(Queued(s, x, WRITER))
  {
    assert FlagOk(s, x);
    forall y, f | Pid(y) && (f == READER || f == WRITER)
      ensures FlagOk(Queued(s, x, f), y)
    {
      assert FlagOk(s, y);
    }
    if s.queue != [] { assert s.queue[0] in s.queue && (s.queue + [x])[0] == s.queue[0]; }
  }

  lemma ReadEntersInv(s: Lock, x: int)
    requires Inv(s) && Pid(x) && s.flags[x] == 0 && s.rwcount >= 0 && s.qcount == 0
    ensures Inv(ReadEnters(s, x))
  {
    assert FlagOk(s, x);
    forall y | Pid(y)
      ensures FlagOk(ReadEnters(s, x), y)
    {
      assert FlagOk(s, y);
    }
  }

  lemma WriteEntersInv(s: Lock, x: int)
    requires Inv(s) && Pid(x) && s.flags[x] == 0 && s.rwcount == 0 && s.qcount == 0
    ensures Inv(WriteEnters(s, x))
  {
    assert FlagOk(s, x);
    forall y | Pid(y)
      ensures FlagOk(WriteEnters(s, x), y)
    {
      assert FlagOk(s, y);
    }
  }

  /** The invariant but for the two clauses about waiters, which hold again after release. */
  ghost predicate Loose(s: Lock) {
    && |s.flags| == NPROC && Counts(s) && s.qcount == |s.queue| && NoDup(s.queue)
    && (forall x :: x in s.readers || x in s.writers || x in s.queue ==> Pid(x))
    && (forall x :: Pid(x) ==> FlagOk(s, x))
    && s.asked == s.entered + s.queue
  }

  lemma LeftLoose(s: Lock, x: int)
    requires Inv(s) && Pid(x) && (x in s.readers || x in s.writers)
    ensures Loose(Left(s, x)) && (s.rwcount > 0 ==> Left(s, x).rwcount == s.rwcount - 1)
    ensures s.rwcount < 0 ==> Left(s, x).rwcount == 0
  {
    assert FlagOk(s, x);
    if x in s.writers { OneWriter(s.writers, x); }
    forall y | Pid(y)
      ensures FlagOk(Left(s, x), y)
    {
      assert FlagOk(s, y);
    }
  }

  lemma OneWriter(w: set<int>, x: int)
    requires |w| == 1 && x in w
    ensures w - {x} == {}
  {
    assert |w - {x}| == 0;
  }

  lemma ReleaseReaderLoose(s: Lock)
    requires Loose(s) && s.queue != [] && Flag(s, s.queue[0]) == READER && s.rwcount >= 0
    ensures Loose(ReleaseReader(s)) && ReleaseReader(s).rwcount > 0
  {
    var x := s.queue[0];
    assert FlagOk(s, x) && x in s.queue;
    forall y | Pid(y)
      ensures FlagOk(ReleaseReader(s), y)
    {
      assert FlagOk(s, y);
      assert s.queue == [x] + s.queue[1..];
    }
  }

  lemma ReleaseWriterInv(s: Lock)
    requires Loose(s) && s.queue != [] && Flag(s, s.queue[0]) == WRITER && s.rwcount == 0
    ensures Inv(ReleaseWriter(s))
  {
    var x := s.queue[0];
    assert FlagOk(s, x) && x in s.queue;
    forall y | Pid(y)
      ensures FlagOk(ReleaseWriter(s), y)
    {
      assert FlagOk(s, y);
      assert s.queue == [x] + s.queue[1..];
    }
  }

  /** Releasing readers stops at the end of the queue or at a writer. */
  lemma {:induction false} ReleaseReadersInv(s: Lock)
    requires Loose(s) && s.rwcount >= 0 && (s.rwcount > 0 || (s.queue != [] && Flag(s, s.queue[0]) == READER))
    ensures Inv(ReleaseReaders(s)) && ReleaseReaders(s).rwcount > 0
    decreases |s.queue|
  {
    if s.queue != [] && Flag(s, s.queue[0]) == READER {
      ReleaseReaderLoose(s);
      ReleaseReadersInv(ReleaseReader(s));
    } else if s.queue != [] {
      assert s.queue[0] in s.queue && FlagOk(s, s.queue[0]);
    }
  }

  /** A holder signals. */
  lemma SignalledInv(s: Lock, x: int)
    requires Inv(s) && Pid(x) && (x in s.readers || x in s.writers)
    ensures Inv(Signalled(s, x))
  {
    LeftLoose(s, x);
    var t := Left(s, x);
    if t.queue != [] {
      var h := t.queue[0];
      assert h in t.queue && FlagOk(t, h) && FlagOk(s, h);
      if t.flags[h] == WRITER {
        if t.rwcount == 0 { ReleaseWriterInv(t); }
      } else {
        ReleaseReadersInv(t);
      }
    }
  }

  // ---- What a wrong flag does to the count --------------------------------------------

  /** The count stays right when `x` leaves exactly when the flag of `x` still says in which
      role it entered. */
  lemma LeftCounts(s: Lock, x: int)
    requires |s.flags| == NPROC && Pid(x) && Counts(s) && (x in s.readers || x in s.writers)
    ensures Counts(Left(s, x)) <==> (s.flags[x] == WRITER <==> x in s.writers)
  {
    if x in s.writers { OneWriter(s.writers, x); }
  }

  /** A writer that finds nobody inside and nobody waiting enters exactly when the blocker was
      created with count 0. */
  lemma IdleWriter(s: Lock, x: int)
    requires Inv(s) && Pid(x) && s.readers == {} && s.writers == {} && s.queue == []
    ensures s.flags[x] == 0 && (x in TriedWrite(s, x).writers <==> s.base == 0)
  {
    assert FlagOk(s, x);
  }

  /** A reader enters at once exactly when nobody waits and no writer is inside. */
  lemma ReaderEnters(s: Lock, x: int)
    requires Inv(s) && Pid(x) && s.flags[x] == 0
    ensures x in TriedRead(s, x).readers <==> s.queue == [] && s.writers == {}
  {
    assert FlagOk(s, x);
  }

  /** Nobody waits in vain: when nobody is inside a blocker created with count 0 nobody waits,
      and behind readers a writer is first. */
  lemma NobodyInVain(s: Lock)
    requires Inv(s)
    ensures s.base == 0 && s.readers == {} && s.writers == {} ==> s.queue == []
    ensures s.writers == {} && s.queue != [] ==> s.flags != [] && Flag(s, s.queue[0]) == WRITER
  {
    if s.writers == {} && s.queue != [] { assert |s.readers| >= 0; }
  }
}
