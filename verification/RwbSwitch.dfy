/** A read-write blocker when rescheduling is not deferred: `_signalrwb` calls ready, which
    may switch the processor, before it has counted the process it releases. */
module RwbSwitch {
  import opened Common
  import opened RwBlocker

  /** What a process that was switched out inside ready has still to count. */
  datatype Due = ReaderDue | WriterDue

  datatype Open = Open(lock: Lock, due: map<int, Due>)

  datatype Call = Read(pid: int) | Write(pid: int) | Signal(pid: int) | GoOn(pid: int)

  /** The head of the queue is off the queue and may run, but is not counted. */
  function WriterReadied(t: Lock): Lock
    requires t.queue != []
  {
    t.(qcount := t.qcount - 1, queue := t.queue[1..], writers := t.writers + {t.queue[0]},
        entered := t.entered + [t.queue[0]])
  }

  function ReaderReadied(t: Lock): Lock
    requires t.queue != []
  {
    t.(qcount := t.qcount - 1, queue := t.queue[1..], readers := t.readers + {t.queue[0]},
        entered := t.entered + [t.queue[0]])
  }

  /** The loop of _signalrwb up to its next call of ready, or to its end. */
  function ReadersReadied(t: Lock, due: map<int, Due>, x: int): Open {
    if t.queue != [] && Flag(t, t.queue[0]) == READER then Open(ReaderReadied(t), due[x := ReaderDue])
        else Open(t, due - {x})
  }

  /** _signalrwb up to its first call of ready, or to its end. */
  function Begun(p: Open, x: int): Open
    requires 0 <= x < |p.lock.flags|
  {
    var t := Left(p.lock, x);
    if t.queue == [] then Open(t, p.due)
    else if Flag(t, t.queue[0]) != WRITER then ReadersReadied(t, p.due, x)
    else if t.rwcount == 0 then Open(WriterReadied(t), p.due[x := WriterDue])
    else Open(t, p.due)
  }

  /** A signalling process has the processor again. */
  function Resumed(p: Open, x: int): Open
    requires x in p.due
  {
    if p.due[x] == WriterDue then Open(p.lock.(rwcount := p.lock.rwcount - 1), p.due - {x})
    else ReadersReadied(p.lock.(rwcount := p.lock.rwcount + 1), p.due, x)
  }

  /** A process enters only what it does not use, only one inside signals, and one that was
      switched out in a signal does nothing else before that signal is over. */
  predicate Can(p: Open, c: Call) {
    && |p.lock.flags| == NPROC && Pid(c.pid)
    && match c
       case Read(x) => p.lock.flags[x] == 0 && x !in p.due
       case Write(x) => p.lock.flags[x] == 0 && x !in p.due
       case Signal(x) => x in p.lock.readers || x in p.lock.writers
       case GoOn(x) => x in p.due
  }

  function Do(p: Open, c: Call): Open
    requires Can(p, c)
  {
    match c
    case Read(x) => p.(lock := TriedRead(p.lock, x))
    case Write(x) => p.(lock := TriedWrite(p.lock, x))
    case Signal(x) => Begun(p, x)
    case GoOn(x) => Resumed(p, x)
  }

  function Start(base: int): Open {
    Open(Lock(base, 0, [], seq(NPROC, _ => 0), base, {}, {}, [], []), map[])
  }

  ghost predicate Run(s: seq<Open>, cs: seq<Call>) {
    |s| == |cs| + 1 && forall k :: 0 <= k < |cs| ==> Can(s[k], cs[k]) && s[k + 1] == Do(s[k], cs[k])
  }

  // ---- What every interleaving keeps ---------------------------------------------------

  ghost function Dues(due: map<int, Due>, d: Due): set<int> { set x | x in due && due[x] == d }

  ghost predicate Members(s: Lock) {
    && |s.flags| == NPROC && s.base >= 0 && s.qcount == |s.queue| && NoDup(s.queue)
    && (forall x :: In(s, x) ==> Pid(x))
    && (forall x :: Pid(x) ==> FlagOk(s, x))
    && s.asked == s.entered + s.queue
  }

  /** How far the count is above the number of readers less writers. */
  function Excess(s: Lock): int { s.rwcount - s.base - |s.readers| + |s.writers| }

  ghost predicate Out(s: Lock, x: int) { Pid(x) && !In(s, x) }

  /** The count is right but for the releases not counted yet. */
  ghost predicate Conserved(p: Open) {
    && Members(p.lock) && Excess(p.lock) == |Dues(p.due, WriterDue)| - |Dues(p.due, ReaderDue)|
    && forall x :: x in p.due ==> Out(p.lock, x)
  }

  lemma TriedMembers(s: Lock, x: int)
    requires Members(s) && Pid(x) && s.flags[x] == 0
    ensures Members(TriedRead(s, x)) && Members(TriedWrite(s, x))
    ensures forall y :: In(TriedRead(s, x), y) <==> In(s, y) || y == x
    ensures forall y :: In(TriedWrite(s, x), y) <==> In(s, y) || y == x
  {
    var r, w := TriedRead(s, x), TriedWrite(s, x);
    assert FlagOk(s, x);
    forall y | Pid(y)
      ensures FlagOk(r, y) && FlagOk(w, y)
    {
      assert FlagOk(s, y);
    }
  }

  lemma LeftMembers(s: Lock, x: int)
    requires Members(s) && Pid(x) && (x in s.readers || x in s.writers)
    ensures Members(Left(s, x)) && forall y :: In(Left(s, x), y) <==> In(s, y) && y != x
  {
    assert FlagOk(s, x);
    forall y | Pid(y)
      ensures FlagOk(Left(s, x), y)
    {
      assert FlagOk(s, y);
    }
  }

  lemma ReadiedMembers(s: Lock)
    requires Members(s) && s.queue != []
    ensures Flag(s, s.queue[0]) == WRITER ==> Members(WriterReadied(s))
    ensures Flag(s, s.queue[0]) == READER ==> Members(ReaderReadied(s))
    ensures forall y :: In(WriterReadied(s), y) <==> In(s, y)
    ensures forall y :: In(ReaderReadied(s), y) <==> In(s, y)
    ensures s.queue[0] !in s.readers && s.queue[0] !in s.writers
  {
    hide NoDup;
    var h := s.queue[0];
    NoDupTail(s.queue);
    assert h in s.queue && In(s, h) && FlagOk(s, h);
    assert s.entered + s.queue == (s.entered + [h]) + s.queue[1..];
    forall y | Pid(y)
      ensures Flag(s, h) == WRITER ==> FlagOk(WriterReadied(s), y)
      ensures Flag(s, h) == READER ==> FlagOk(ReaderReadied(s), y)
    {
      assert FlagOk(s, y);
    }
  }

  lemma NoDupTail(l: seq<int>)
    requires NoDup(l) && l != []
    ensures NoDup(l[1..]) && l[0] !in l[1..] && forall y :: y in l <==> y == l[0] || y in l[1..]
  {
    assert l == [l[0]] + l[1..];
  }

  lemma TriedExcess(s: Lock, x: int)
    requires |s.flags| == NPROC && Pid(x) && !In(s, x)
    ensures Excess(TriedRead(s, x)) == Excess(s) == Excess(TriedWrite(s, x))
  {
  }

  lemma LeftExcess(s: Lock, x: int)
    requires Members(s) && Pid(x) && (x in s.readers || x in s.writers)
    ensures |s.flags| == NPROC && Excess(Left(s, x)) == Excess(s)
  {
    assert FlagOk(s, x);
    if x in s.readers { assert |s.readers - {x}| == |s.readers| - 1 && s.writers - {x} == s.writers; }
    else { assert |s.writers - {x}| == |s.writers| - 1 && s.readers - {x} == s.readers; }
  }

  lemma ReadiedExcess(s: Lock)
    requires s.queue != [] && s.queue[0] !in s.readers && s.queue[0] !in s.writers
    ensures Excess(WriterReadied(s)) == Excess(s) + 1 && Excess(ReaderReadied(s)) == Excess(s) - 1
  {
  }

  lemma DuesPut(due: map<int, Due>, x: int, d: Due)
    requires x !in due
    ensures forall e :: |Dues(due[x := d], e)| == |Dues(due, e)| + if e == d then 1 else 0
  {
    forall e
      ensures |Dues(due[x := d], e)| == |Dues(due, e)| + if e == d then 1 else 0
    {
      DuesWith(due, x, d, e);
      assert x !in Dues(due, e);
    }
  }

  lemma DuesWith(due: map<int, Due>, x: int, d: Due, e: Due)
    requires x !in due
    ensures Dues(due[x := d], e) == if e == d then Dues(due, e) + {x} else Dues(due, e)
  {
  }

  lemma DuesDrop(due: map<int, Due>, x: int)
    ensures forall e :: |Dues(due - {x}, e)| == |Dues(due, e)| - if x in due && e == due[x] then 1 else 0
  {
    forall e
      ensures |Dues(due - {x}, e)| == |Dues(due, e)| - if x in due && e == due[x] then 1 else 0
    {
      assert Dues(due - {x}, e) == Dues(due, e) - if x in due && e == due[x] then {x} else {};
    }
  }

  lemma ReadersReadiedConserved(t: Lock, due: map<int, Due>, x: int)
    requires Members(t) && Out(t, x) && (x in due ==> due[x] == ReaderDue) && forall y :: y in due ==> Out(t, y)
    requires Excess(t) == |Dues(due - {x}, WriterDue)| - |Dues(due - {x}, ReaderDue)|
    ensures Conserved(ReadersReadied(t, due, x))
  {
    hide Members, Excess, Dues;
    if t.queue != [] && Flag(t, t.queue[0]) == READER {
      ReadiedMembers(t);
      ReadiedExcess(t);
      DuesPut(due - {x}, x, ReaderDue);
      assert (due - {x})[x := ReaderDue] == due[x := ReaderDue];
    }
  }

  lemma BegunConserved(p: Open, x: int)
    requires Conserved(p) && Can(p, Signal(x))
    ensures Conserved(Begun(p, x))
  {
    hide Members, Excess, Left, FlagOk, Dues;
    var t := Left(p.lock, x);
    LeftMembers(p.lock, x);
    LeftExcess(p.lock, x);
    assert p.due - {x} == p.due;
    if t.queue != [] {
      if Flag(t, t.queue[0]) != WRITER {
        ReadersReadiedConserved(t, p.due, x);
      } else if t.rwcount == 0 {
        ReadiedMembers(t);
        ReadiedExcess(t);
        DuesPut(p.due, x, WriterDue);
      }
    }
  }

  lemma ResumedConserved(p: Open, x: int)
    requires Conserved(p) && x in p.due
    ensures Conserved(Resumed(p, x))
  {
    hide Members, Excess, Dues;
    DuesDrop(p.due, x);
    if p.due[x] == WriterDue {
      CountOnly(p.lock, p.lock.rwcount - 1);
    } else {
      CountOnly(p.lock, p.lock.rwcount + 1);
      ReadersReadiedConserved(p.lock.(rwcount := p.lock.rwcount + 1), p.due, x);
    }
  }

  lemma CountOnly(s: Lock, n: int)
    requires Members(s)
    ensures Members(s.(rwcount := n)) && Excess(s.(rwcount := n)) == Excess(s) - s.rwcount + n
    ensures forall y :: In(s.(rwcount := n), y) <==> In(s, y)
  {
    forall y | Pid(y)
      ensures FlagOk(s.(rwcount := n), y)
    {
      assert FlagOk(s, y);
    }
  }

  lemma DoConserved(p: Open, c: Call)
    requires Conserved(p) && Can(p, c)
    ensures Conserved(Do(p, c))
  {
    var x := c.pid;
    if c.Read? || c.Write? {
      assert FlagOk(p.lock, x);
      TriedMembers(p.lock, x);
      TriedExcess(p.lock, x);
      hide Members, Excess;
    } else if c.Signal? {
      BegunConserved(p, x);
    } else {
      ResumedConserved(p, x);
    }
  }

  lemma StartConserved(base: nat)
    ensures Conserved(Start(base))
  {
  }

  /** Whatever the interleaving, processes enter in the order in which they came, and the
      count is the number of readers above the initial count, less the writers, but for
      the releases not counted yet. */
  lemma {:induction false} RunConserved(s: seq<Open>, cs: seq<Call>, base: nat, k: nat)
    requires Run(s, cs) && s[0] == Start(base) && k <= |cs|
    ensures Conserved(s[k])
  {
    hide Conserved, Can, Do;
    if k == 0 {
      StartConserved(base);
    } else {
      RunConserved(s, cs, base, k - 1);
      assert s[k - 1 + 1] == Do(s[k - 1], cs[k - 1]);
      DoConserved(s[k - 1], cs[k - 1]);
    }
  }

  // ---- Exactly when exclusion breaks ------------------------------------------------------

  /** The call lets somebody in beside others: by a try, by a reader whose signal finds the
      count 0 although other readers are inside, or by a signal that goes on releasing
      readers after a writer was let in. */
  predicate Breaks(p: Open, c: Call)
    requires Can(p, c)
  {
    var t := p.lock;
    match c
    case Read(_) => t.qcount == 0 && t.rwcount >= 0 && t.writers != {}
    case Write(_) => t.qcount == 0 && t.rwcount == 0 && (t.readers != {} || t.writers != {})
    case Signal(x) => t.rwcount == 1 && x in t.readers && t.readers != {x} && HeadIs(t, WRITER)
    case GoOn(x) => p.due[x] == ReaderDue && t.writers != {} && HeadIs(t, READER)
  }

  predicate HeadIs(t: Lock, flag: int) { t.queue != [] && Flag(t, t.queue[0]) == flag }

  lemma BreaksIff(p: Open, c: Call)
    requires Conserved(p) && Exclusive(p.lock) && Can(p, c)
    ensures !Exclusive(Do(p, c).lock) <==> Breaks(p, c)
  {
    var s, x := p.lock, c.pid;
    assert FlagOk(s, x);
    assert s.writers != {} && x !in s.writers ==> |s.writers + {x}| == |s.writers| + 1;
    match c
    case Read(_) =>
    case Write(_) =>
    case Signal(_) => SignalBreaks(p, x);
    case GoOn(_) => if p.due[x] == ReaderDue && s.queue != [] { ReaderBreaks(s.(rwcount := s.rwcount + 1)); }
  }

  lemma SignalBreaks(p: Open, x: int)
    requires Members(p.lock) && Exclusive(p.lock) && Can(p, Signal(x))
    ensures !Exclusive(Begun(p, x).lock) <==> Breaks(p, Signal(x))
  {
    var s, t := p.lock, Left(p.lock, x);
    assert FlagOk(s, x);
    if x in s.writers { OneWriter(s.writers, x); }
    assert t.writers == {} && (t.readers == {} <==> s.readers <= {x});
    if t.queue != [] {
      var h := t.queue[0];
      assert h in s.queue && FlagOk(s, h) && h != x && Flag(t, h) == Flag(s, h);
      assert t.writers + {h} == {h};
    }
  }

  /** A reader is released beside a writer exactly when there is one. */
  lemma ReaderBreaks(t: Lock)
    requires t.queue != [] && Exclusive(t)
    ensures !Exclusive(ReaderReadied(t)) <==> t.writers != {}
  {
    assert t.queue[0] in ReaderReadied(t).readers;
  }

  /** In a run exclusion holds throughout if and only if no call is one of those. */
  lemma {:induction false} RunExclusiveIff(s: seq<Open>, cs: seq<Call>, base: nat, n: nat)
    requires Run(s, cs) && s[0] == Start(base) && n <= |cs|
    ensures (forall k :: 0 <= k <= n ==> Exclusive(s[k].lock)) <==> (forall k :: 0 <= k < n ==> !Breaks(s[k], cs[k]))
  {
    hide Conserved, Can, Do, Breaks, Exclusive;
    if n == 0 {
      StartExclusive(base);
    } else {
      RunExclusiveIff(s, cs, base, n - 1);
      RunConserved(s, cs, base, n - 1);
      assert Can(s[n - 1], cs[n - 1]) && s[n - 1 + 1] == Do(s[n - 1], cs[n - 1]);
      if Exclusive(s[n - 1].lock) { BreaksIff(s[n - 1], cs[n - 1]); }
    }
  }

  lemma StartExclusive(base: nat)
    ensures Exclusive(Start(base).lock)
  {
  }

  /** The count that a try finds, in terms of the releases not counted yet: a reader is let
      in beside a writer exactly when that writer is not counted. */
  lemma ReaderSlipsIn(p: Open, x: int)
    requires Conserved(p) && Exclusive(p.lock) && Can(p, Read(x))
    ensures !Exclusive(TriedRead(p.lock, x)) <==>
            && p.lock.writers != {} && p.lock.qcount == 0
            && p.lock.base + |Dues(p.due, WriterDue)| > |Dues(p.due, ReaderDue)|
  {
    assert FlagOk(p.lock, x);
  }

  /** Likewise a writer that tries is let in beside whoever is inside exactly when the
      releases not counted yet make up for them. */
  lemma WriterSlipsIn(p: Open, x: int)
    requires Conserved(p) && Exclusive(p.lock) && Can(p, Write(x))
    ensures !Exclusive(TriedWrite(p.lock, x)) <==>
            && (p.lock.readers != {} || p.lock.writers != {}) && p.lock.qcount == 0
            && p.lock.base + |p.lock.readers| - |p.lock.writers| == |Dues(p.due, ReaderDue)| - |Dues(p.due, WriterDue)|
  {
    assert FlagOk(p.lock, x);
    assert |p.lock.writers + {x}| == |p.lock.writers| + 1;
    assert p.lock.writers != {} ==> |p.lock.writers| > 0;
  }

  // ---- With rescheduling deferred ------------------------------------------------------

  /** Nobody else runs between the start of a signal and its end. */
  ghost predicate Deferred(s: seq<Open>, cs: seq<Call>) {
    Run(s, cs) && forall k :: 0 <= k < |cs| && !cs[k].GoOn? ==> s[k].due == map[]
  }

  ghost predicate Halfway(s: Lock, d: Due) {
    if d == WriterDue then Inv(s.(rwcount := s.rwcount - 1)) else Loose(s.(rwcount := s.rwcount + 1)) && s.rwcount >= 0
  }

  /** In the middle of a signal the lock is in order once its release has been counted. */
  ghost predicate Mid(p: Open) {
    if p.due == map[] then Inv(p.lock)
    else exists x :: p.due.Keys == {x} && Halfway(p.lock, p.due[x])
  }

  lemma MidIsExclusive(p: Open)
    requires Mid(p)
    ensures Exclusive(p.lock)
  {
  }

  /** Readers go on being released one by one, or the signal is over. */
  lemma ReadersReadiedMid(t: Lock, due: map<int, Due>, x: int)
    requires Loose(t) && due.Keys <= {x} && t.rwcount >= 0
    requires t.rwcount > 0 || (t.queue != [] && Flag(t, t.queue[0]) == READER)
    ensures Mid(ReadersReadied(t, due, x))
  {
    if t.queue != [] && Flag(t, t.queue[0]) == READER {
      ReleaseReaderLoose(t);
      assert ReaderReadied(t).(rwcount := t.rwcount + 1) == ReleaseReader(t);
      assert due[x := ReaderDue].Keys == {x};
      assert Halfway(ReaderReadied(t), ReaderDue);
    } else {
      assert due - {x} == map[];
      NobodyMore(t);
    }
  }

  lemma NobodyMore(t: Lock)
    requires Loose(t) && t.rwcount > 0 && (t.queue == [] || Flag(t, t.queue[0]) != READER)
    ensures Inv(t)
  {
    if t.queue != [] { assert t.queue[0] in t.queue && FlagOk(t, t.queue[0]); }
  }

  lemma BegunMid(p: Open, x: int)
    requires Inv(p.lock) && p.due == map[] && Can(p, Signal(x))
    ensures Mid(Begun(p, x))
  {
    hide Inv, Loose, Left, Signalled;
    InvFlags(p.lock);
    var t := Left(p.lock, x);
    LeftLoose(p.lock, x);
    HeadFlag(p.lock, x);
    SignalledInv(p.lock, x);
    SignalledNone(p.lock, x);
    if t.queue != [] {
      if Flag(t, t.queue[0]) != WRITER {
        ReadersReadiedMid(t, p.due, x);
      } else if t.rwcount == 0 {
        ReleaseWriterInv(t);
        assert WriterReadied(t).(rwcount := t.rwcount - 1) == ReleaseWriter(t);
        assert p.due[x := WriterDue].Keys == {x} && Halfway(WriterReadied(t), WriterDue);
      }
    }
  }

  lemma InvFlags(s: Lock)
    requires Inv(s)
    ensures |s.flags| == NPROC
  {
  }

  /** A signal that releases nobody is over at once. */
  lemma SignalledNone(s: Lock, x: int)
    requires |s.flags| == NPROC && Pid(x)
    ensures var t := Left(s, x);
            t.queue == [] || (Flag(t, t.queue[0]) == WRITER && t.rwcount != 0) ==> Signalled(s, x) == t
  {
  }

  lemma HeadFlag(s: Lock, x: int)
    requires Inv(s) && Pid(x) && (x in s.readers || x in s.writers) && Loose(Left(s, x))
    ensures Left(s, x).rwcount >= 0 && |s.flags| == NPROC
    ensures var t := Left(s, x); t.queue != [] ==> Flag(t, t.queue[0]) == WRITER || Flag(t, t.queue[0]) == READER
  {
    var t := Left(s, x);
    if t.queue != [] { assert t.queue[0] in t.queue && FlagOk(t, t.queue[0]); }
    LeftLoose(s, x);
  }

  lemma DoMid(p: Open, c: Call)
    requires Mid(p) && Can(p, c) && (c.GoOn? || p.due == map[])
    ensures Mid(Do(p, c))
  {
    hide Inv, Loose;
    match c
    case Read(x) => TriedInv(p.lock, x);
    case Write(x) => TriedInv(p.lock, x);
    case Signal(x) => BegunMid(p, x);
    case GoOn(x) =>
      var t := p.lock.(rwcount := p.lock.rwcount + 1);
      assert p.due.Keys == {x};
      assert p.due - {x} == map[];
      if p.due[x] == ReaderDue { ReadersReadiedMid(t, p.due, x); }
  }

  /** With rescheduling deferred throughout every signal there is never a writer together
      with anybody else, not even in the middle of a signal, and between two signals the
      count is right. */
  lemma {:induction false} DeferredIsExclusive(s: seq<Open>, cs: seq<Call>, base: nat, k: nat)
    requires Deferred(s, cs) && s[0] == Start(base) && k <= |cs|
    ensures Exclusive(s[k].lock) && Mid(s[k]) && (s[k].due == map[] ==> Counts(s[k].lock))
  {
    hide Mid, Can, Do, Exclusive, Counts;
    if k == 0 {
      StartInv(base);
    } else {
      DeferredIsExclusive(s, cs, base, k - 1);
      var c := cs[k - 1];
      assert s[k - 1 + 1] == Do(s[k - 1], c);
      assert c.GoOn? || s[k - 1].due == map[];
      DoMid(s[k - 1], cs[k - 1]);
    }
    MidIsExclusive(s[k]);
    if s[k].due == map[] { MidCounts(s[k]); }
  }

  lemma MidCounts(p: Open)
    requires Mid(p) && p.due == map[]
    ensures Counts(p.lock)
  {
  }

  lemma StartInv(base: nat)
    ensures Mid(Start(base))
  {
    forall x | Pid(x)
      ensures FlagOk(Start(base).lock, x)
    {
    }
  }

  /** A signal carried to its end with nobody else running in between. */
  function Finished(p: Open, x: int): Lock
    decreases |p.lock.queue|, |p.due|
  {
    if x !in p.due then p.lock
    else
      assert |p.due - {x}| == |p.due| - 1 by { CountDrops(p.due, x); }
      Finished(Resumed(p, x), x)
  }

  lemma CountDrops(due: map<int, Due>, x: int)
    requires x in due
    ensures |due - {x}| == |due| - 1
  {
    assert (due - {x}).Keys == due.Keys - {x};
    assert |due.Keys| == |due| && |(due - {x}).Keys| == |due - {x}|;
  }

  lemma {:induction false} FinishedReaders(t: Lock, due: map<int, Due>, x: int)
    ensures Finished(ReadersReadied(t, due, x), x) == ReleaseReaders(t)
    decreases |t.queue|
  {
    if t.queue != [] && Flag(t, t.queue[0]) == READER {
      var p := ReadersReadied(t, due, x);
      var u := p.lock.(rwcount := p.lock.rwcount + 1);
      assert u == ReleaseReader(t);
      assert Finished(p, x) == Finished(ReadersReadied(u, p.due, x), x);
      FinishedReaders(u, p.due, x);
    }
  }

  /** It is the atomic signal. */
  lemma FinishedIsSignalled(p: Open, x: int)
    requires Can(p, Signal(x)) && x !in p.due
    ensures Finished(Do(p, Signal(x)), x) == Signalled(p.lock, x)
  {
    var t, q := Left(p.lock, x), Begun(p, x);
    hide Left;
    if t.queue != [] {
      if Flag(t, t.queue[0]) != WRITER {
        FinishedReaders(t, p.due, x);
        NoReaders(t);
      } else if t.rwcount == 0 {
        assert q.due[x] == WriterDue && x !in Resumed(q, x).due;
        assert Finished(q, x) == Finished(Resumed(q, x), x) == Resumed(q, x).lock;
      }
    }
  }

  lemma NoReaders(t: Lock)
    requires t.queue != [] && Flag(t, t.queue[0]) != WRITER
    ensures Next(t) == ReleaseReaders(t)
  {
  }

  // ---- What goes wrong otherwise -------------------------------------------------------

  function Flags(): (r: seq<int>)
    ensures |r| == NPROC
  {
    seq(NPROC, _ => 0)
  }

  /** Process 1 enters as a reader and writer 2 waits. */
  function OneWaits(): Open {
    OneWaitsIs();
    Do(Do(Start(0), Read(1)), Write(2))
  }

  lemma OneWaitsIs()
    ensures Can(Start(0), Read(1)) && Can(Do(Start(0), Read(1)), Write(2))
    ensures Do(Do(Start(0), Read(1)), Write(2))
         == Open(Lock(1, 1, [2], Flags()[1 := READER][2 := WRITER], 0, {1}, {}, [1, 2], [1]), map[])
  {
    var p := Do(Start(0), Read(1));
    assert p == Open(Lock(1, 0, [], Flags()[1 := READER], 0, {1}, {}, [1], [1]), map[]);
  }

  /** Reader 1 signals and is switched out in ready: writer 2 runs, but the count says that
      nobody is inside. */
  lemma WriterUncounted()
    ensures Can(OneWaits(), Signal(1))
    ensures Do(OneWaits(), Signal(1))
         == Open(Lock(0, 0, [], Flags()[1 := 0][2 := WRITER], 0, {}, {2}, [1, 2], [1, 2]), map[1 := WriterDue])
  {
    OneWaitsIs();
    var t := Left(OneWaits().lock, 1);
    assert t.flags == Flags()[1 := 0][2 := WRITER] && t.readers == {} && t.queue[1..] == [];
    assert WriterReadied(t).writers == {2} && WriterReadied(t).entered == [1, 2];
  }

  /** A reader or a second writer that tries now is let in beside the first. */
  lemma LetInBesideWriter()
    ensures var p := Do(OneWaits(), Signal(1));
            && Can(p, Read(3)) && !Exclusive(Do(p, Read(3)).lock)
            && Can(p, Write(3)) && !Exclusive(Do(p, Write(3)).lock)
  {
    WriterUncounted();
    var p := Do(OneWaits(), Signal(1));
    var r, w := Do(p, Read(3)).lock, Do(p, Write(3)).lock;
    assert 2 in r.writers && 3 in r.readers;
    assert {2, 3} == w.writers;
  }

  /** Another process waits behind writer 2. */
  function TwoWait(second: int, flag: int): Open
    requires 2 < second < NPROC && (flag == READER || flag == WRITER)
  {
    TwoWaitIs(second, flag);
    Do(OneWaits(), if flag == READER then Read(second) else Write(second))
  }

  lemma TwoWaitIs(second: int, flag: int)
    requires 2 < second < NPROC && (flag == READER || flag == WRITER)
    ensures Can(OneWaits(), Read(second)) && Can(OneWaits(), Write(second))
    ensures Do(OneWaits(), if flag == READER then Read(second) else Write(second))
         == Open(Lock(1, 2, [2, second], Flags()[1 := READER][2 := WRITER][second := flag], 0,
                      {1}, {}, [1, 2, second], [1]), map[])
  {
    OneWaitsIs();
  }

  /** 1 signals and is switched out; the writer 2 that it released runs. */
  lemma TwoSignal(second: int, flag: int)
    requires 2 < second < NPROC && (flag == READER || flag == WRITER)
    ensures Can(TwoWait(second, flag), Signal(1))
    ensures Do(TwoWait(second, flag), Signal(1))
         == Open(Lock(0, 1, [second], Flags()[1 := 0][2 := WRITER][second := flag], 0, {}, {2}, [1, 2, second],
             [1, 2]), map[1 := WriterDue])
  {
    TwoWaitIs(second, flag);
    var t := Left(TwoWait(second, flag).lock, 1);
    assert t.flags == Flags()[1 := 0][2 := WRITER][second := flag] && t.readers == {} && t.queue[1..] == [second];
    assert WriterReadied(t).writers == {2} && WriterReadied(t).entered == [1, 2];
  }

  /** 2 signals in turn.  A waiting reader is released at once; a waiting writer is not,
      because the count is 1 too high. */
  lemma SecondSignal(second: int, flag: int)
    requires 2 < second < NPROC && (flag == READER || flag == WRITER)
    ensures var p := Do(TwoWait(second, flag), Signal(1));
            var f := Flags()[1 := 0][2 := 0][second := flag];
            && Can(p, Signal(2))
            && Do(p, Signal(2)) ==
                 if flag == READER then
                   Open(Lock(1, 0, [], f, 0, {second}, {}, [1, 2, second], [1, 2, second]),
                       map[1 := WriterDue][2 := ReaderDue])
                 else
                   Open(Lock(1, 1, [second], f, 0, {}, {}, [1, 2, second], [1, 2]), map[1 := WriterDue])
  {
    TwoSignal(second, flag);
    var p := Do(TwoWait(second, flag), Signal(1));
    var t := Left(p.lock, 2);
    assert t.flags == Flags()[1 := 0][2 := 0][second := flag] && t.writers == {} && t.rwcount == 1;
    assert t.queue[1..] == [] && t.queue[0] == second;
    if flag == READER {
      assert ReaderReadied(t).readers == {second} && ReaderReadied(t).entered == [1, 2, second];
    }
  }

  /** Then 1 goes on and counts the writer, who has left: the count is 0 while reader 3 is
      inside, and 1 itself is let in beside it as a writer. */
  lemma LetInBesideReader()
    ensures var p := Do(Do(TwoWait(3, READER), Signal(1)), Signal(2));
            var q := Do(p, GoOn(1));
            Can(p, GoOn(1)) && Can(q, Write(1)) && q.lock.readers == {3} && !Exclusive(Do(q, Write(1)).lock)
  {
    SecondSignal(3, READER);
    var q := Do(Do(Do(TwoWait(3, READER), Signal(1)), Signal(2)), GoOn(1));
    assert 1 in Do(q, Write(1)).lock.writers && 3 in Do(q, Write(1)).lock.readers;
  }

  /** Readers 3 and 4 and then writer 2 wait behind writer 1. */
  function ThreeWait(): Open {
    ThreeWaitIs();
    Do(Do(Do(Do(Start(0), Write(1)), Read(3)), Read(4)), Write(2))
  }

  lemma ThreeWaitIs()
    ensures var p := Start(0); Can(p, Write(1))
    ensures var p := Do(Start(0), Write(1)); Can(p, Read(3)) && Can(Do(p, Read(3)), Read(4))
    ensures var p := Do(Do(Do(Start(0), Write(1)), Read(3)), Read(4));
            && Can(p, Write(2))
            && Do(p, Write(2)) == Open(Lock(-1, 3, [3, 4, 2],
                                            Flags()[1 := WRITER][3 := READER][4 := READER][2 := WRITER],
                                            0, {}, {1}, [1, 3, 4, 2], [1]), map[])
  {
    var p := Do(Start(0), Write(1));
    assert p == Open(Lock(-1, 0, [], Flags()[1 := WRITER], 0, {}, {1}, [1], [1]), map[]);
    var q := Do(Do(p, Read(3)), Read(4));
    assert q.lock.queue == [3, 4] && q.lock.asked == [1, 3, 4];
  }

  /** Writer 1 signals and is switched out twice; both readers are inside, but only one is
      counted. */
  lemma OneCounted()
    ensures Can(ThreeWait(), Signal(1)) && Can(Do(ThreeWait(), Signal(1)), GoOn(1))
    ensures Do(Do(ThreeWait(), Signal(1)), GoOn(1))
         == Open(Lock(1, 1, [2], Flags()[1 := 0][3 := READER][4 := READER][2 := WRITER],
                      0, {3, 4}, {}, [1, 3, 4, 2], [1, 3, 4]), map[1 := ReaderDue])
  {
    ThreeWaitIs();
    var f := Flags()[1 := 0][3 := READER][4 := READER][2 := WRITER];
    assert Left(ThreeWait().lock, 1).flags == f && f[3] == READER && f[4] == READER;
    assert [3, 4, 2][1..] == [4, 2] && [4, 2][1..] == [2];
    var p := Do(ThreeWait(), Signal(1));
    assert p == Open(Lock(0, 2, [4, 2], f, 0, {3}, {}, [1, 3, 4, 2], [1, 3]), map[1 := ReaderDue]);
    assert {3} + {4} == {3, 4};
  }

  /** The first of them signals: writer 2 is let in beside the other, by no try at all. */
  lemma LetInBySignal()
    ensures var p := Do(Do(ThreeWait(), Signal(1)), GoOn(1));
            Exclusive(p.lock) && Can(p, Signal(3)) && Breaks(p, Signal(3)) && !Exclusive(Do(p, Signal(3)).lock)
  {
    OneCounted();
    var p := Do(Do(ThreeWait(), Signal(1)), GoOn(1));
    assert 4 in p.lock.readers && p.lock.flags[3] == READER;
    var t := Left(p.lock, 3);
    assert t.rwcount == 0 && 4 in t.readers && t.queue == [2] && Flag(t, 2) == WRITER;
    assert 4 in WriterReadied(t).readers && 2 in WriterReadied(t).writers;
  }

  /** Nobody is inside and nobody is about to count, but somebody waits. */
  ghost predicate Stuck(p: Open) {
    && p.due == map[] && p.lock.readers == {} && p.lock.writers == {}
    && p.lock.queue != [] && p.lock.qcount > 0
  }

  /** Nobody will ever enter again. */
  lemma StuckStays(p: Open, c: Call)
    requires Stuck(p) && Can(p, c)
    ensures Stuck(Do(p, c)) && p.lock.queue <= Do(p, c).lock.queue
  {
  }

  /** Exactly which calls lead there.  A signaller that goes on as the last one does when
      those it released have left and a writer is first, or anybody if it released a
      writer; the other calls only where the initial count was positive. */
  predicate Strands(p: Open, c: Call)
    requires Can(p, c)
  {
    var t := p.lock;
    match c
    case Read(_) => false
    case Write(_) => t.base > 0 && p.due == map[] && t.queue == [] && t.readers == {} && t.writers == {}
    case Signal(x) => t.base > 0 && p.due == map[] && t.readers + t.writers == {x} && HeadIs(t, WRITER)
    case GoOn(x) =>
      && p.due.Keys == {x} && t.readers == {} && t.writers == {} && t.queue != []
      && (p.due[x] == WriterDue || HeadIs(t, WRITER))
  }

  lemma StrandsIff(p: Open, c: Call)
    requires Conserved(p) && !Stuck(p) && Can(p, c)
    ensures Stuck(Do(p, c)) <==> Strands(p, c)
  {
    var s, x := p.lock, c.pid;
    assert FlagOk(s, x);
    if p.due == map[] { assert Dues(p.due, WriterDue) == {} && Dues(p.due, ReaderDue) == {}; }
    match c
    case Read(_) =>
    case Write(_) =>
    case Signal(_) => SignalStrands(p, x);
    case GoOn(_) => GoOnStrands(p, x);
  }

  /** A waiting process has the flag of a reader or of a writer. */
  lemma WaitingFlag(t: Lock)
    requires Members(t) && t.queue != []
    ensures Flag(t, t.queue[0]) == READER || Flag(t, t.queue[0]) == WRITER
    ensures t.queue[0] !in t.readers && t.queue[0] !in t.writers && Pid(t.queue[0])
  {
    var h := t.queue[0];
    assert h in t.queue && In(t, h) && FlagOk(t, h);
  }

  /** The last one to leave leaves the initial count, but for the releases not counted yet. */
  lemma LeftAlone(s: Lock, x: int)
    requires Members(s) && Pid(x) && (x in s.readers || x in s.writers)
    ensures var t := Left(s, x);
            && (t.readers == {} && t.writers == {} <==> s.readers + s.writers == {x})
            && (t.readers == {} && t.writers == {} ==> t.rwcount == s.base + Excess(s))
  {
    var t := Left(s, x);
    LeftExcess(s, x);
    if t.readers == {} && t.writers == {} {
      assert forall y :: y in s.readers + s.writers <==> y == x;
    } else {
      assert forall y :: y in t.readers || y in t.writers ==> y != x && y in s.readers + s.writers;
    }
  }

  lemma LeftHead(s: Lock, x: int)
    requires Members(s) && Pid(x) && (x in s.readers || x in s.writers) && s.queue != []
    ensures var t := Left(s, x);
            |t.flags| == NPROC && Flag(t, t.queue[0]) == Flag(s, s.queue[0])
            && (Flag(t, t.queue[0]) == READER || Flag(t, t.queue[0]) == WRITER)
  {
    WaitingFlag(s);
  }

  lemma SignalStrands(p: Open, x: int)
    requires Conserved(p) && Can(p, Signal(x))
    requires p.due == map[] ==> Excess(p.lock) == 0
    ensures Stuck(Begun(p, x)) <==> Strands(p, Signal(x))
  {
    var s, t := p.lock, Left(p.lock, x);
    LeftAlone(s, x);
    assert t.queue == s.queue && t.qcount == s.qcount == |s.queue| && s.base >= 0;
    hide Members, Excess, Left;
    if s.queue != [] { LeftHead(s, x); }
    hide Flag;
  }

  lemma GoOnStrands(p: Open, x: int)
    requires Conserved(p) && Can(p, GoOn(x))
    ensures Stuck(Resumed(p, x)) <==> Strands(p, GoOn(x))
  {
    var t := p.lock;
    assert (p.due - {x}).Keys == p.due.Keys - {x};
    assert p.due - {x} == map[] <==> (p.due - {x}).Keys == {};
    if t.queue != [] { WaitingFlag(t); }
  }

  /** With writers 2 and 4 waiting the same run ends so, with 4 in the queue. */
  lemma WriterLeftWaiting()
    ensures var p := Do(Do(TwoWait(4, WRITER), Signal(1)), Signal(2));
            Can(p, GoOn(1)) && Stuck(Do(p, GoOn(1))) && Do(p, GoOn(1)).lock.rwcount == 0
  {
    SecondSignal(4, WRITER);
    assert map[1 := WriterDue] - {1} == map[];
  }

  /** In a run somebody is left waiting for ever, with nobody inside, if and only if one of
      the calls was such a one. */
  lemma {:induction false} RunStuckIff(s: seq<Open>, cs: seq<Call>, base: nat, n: nat)
    requires Run(s, cs) && s[0] == Start(base) && n <= |cs|
    ensures Stuck(s[n]) <==> exists k :: 0 <= k < n && Strands(s[k], cs[k])
  {
    if n > 0 {
      hide Conserved, Can, Do, Stuck, Strands;
      RunStuckIff(s, cs, base, n - 1);
      RunConserved(s, cs, base, n - 1);
      assert Can(s[n - 1], cs[n - 1]) && s[n - 1 + 1] == Do(s[n - 1], cs[n - 1]);
      if Stuck(s[n - 1]) {
        StuckStays(s[n - 1], cs[n - 1]);
      } else {
        StrandsIff(s[n - 1], cs[n - 1]);
      }
    }
  }

  // ---- The initial count -----------------------------------------------------------------

  /** With a positive initial count no signal ever releases anybody. */
  ghost predicate ReadersOnly(p: Open) {
    && Conserved(p) && p.due == map[] && p.lock.base > 0 && p.lock.writers == {}
    && (p.lock.queue != [] ==> HeadIs(p.lock, WRITER))
  }

  lemma ReadersOnlyStays(p: Open, c: Call)
    requires ReadersOnly(p) && Can(p, c)
    ensures ReadersOnly(Do(p, c))
  {
    var s, x := p.lock, c.pid;
    DoConserved(p, c);
    assert FlagOk(s, x);
    assert Dues(p.due, WriterDue) == {} && Dues(p.due, ReaderDue) == {};
    if s.queue != [] {
      WaitingFlag(s);
      assert (s.queue + [x])[0] == s.queue[0];
    }
    if c.Signal? { assert |s.readers - {x}| == |s.readers| - 1; }
  }

  lemma {:induction false} ReadersOnlyRun(s: seq<Open>, cs: seq<Call>, base: nat, k: nat)
    requires Run(s, cs) && s[0] == Start(base) && base > 0 && k <= |cs|
    ensures ReadersOnly(s[k])
  {
    if k == 0 {
      StartConserved(base);
    } else {
      hide Can, Do, ReadersOnly;
      ReadersOnlyRun(s, cs, base, k - 1);
      assert Can(s[k - 1], cs[k - 1]) && s[k - 1 + 1] == Do(s[k - 1], cs[k - 1]);
      ReadersOnlyStays(s[k - 1], cs[k - 1]);
    }
  }

  ghost predicate LetsWriterIn(s: seq<Open>, cs: seq<Call>, base: nat) {
    Run(s, cs) && s[0] == Start(base) && s[|cs|].lock.writers != {}
  }

  /** Some run lets a writer in if and only if the blocker was created with count 0. */
  lemma WriterEverIn(base: nat)
    ensures (exists s, cs :: LetsWriterIn(s, cs, base)) <==> base == 0
  {
    if base == 0 {
      var p := Start(0);
      assert LetsWriterIn([p, Do(p, Write(1))], [Write(1)], 0);
    }
    forall s, cs | LetsWriterIn(s, cs, base)
      ensures base == 0
    {
      if base > 0 { ReadersOnlyRun(s, cs, base, |cs|); }
    }
  }
}
