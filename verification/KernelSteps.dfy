/** Semaphores, messages, sleep and termination on the kernel state, each up to its call
    of resched, and why each keeps the invariant. */
module KernelSteps {
  import opened Common
  import opened QueueTab
  import opened DeltaList
  import opened KernelSpec

  // ---- Semaphores --------------------------------------------------------------------

  function AddCount(s: Sys, sem: int, d: int): Sys
    requires 0 <= sem < |s.sem|
  {
    s.(sem := s.sem[sem := s.sem[sem].(count := s.sem[sem].count + d)])
  }

  ghost predicate HasSem(s: Sys, sem: int) { 0 <= sem < NSEM == |s.sem| && SemQueue(sem) in s.lists }

  /** wait when the caller must block: it goes to the end of the queue. */
  function Blocked(s: Sys, sem: int): Sys
    requires HasSem(s, sem) && Typed(s)
  {
    var q := SemQueue(sem);
    PutAt(AddCount(s, sem, -1).(proc := s.proc[s.curr := s.proc[s.curr].(state := PrWait, sem := sem)]),
          q, |s.lists[q]|, s.curr)
  }

  /** wait up to its call of resched. */
  function Waited(s: Sys, sem: int): Sys
    requires HasSem(s, sem) && Typed(s)
  {
    if s.sem[sem].count - 1 < 0 then Blocked(s, sem) else AddCount(s, sem, -1)
  }

  /** The longest waiting process leaves the queue of the semaphore. */
  function Popped(s: Sys, sem: int): Sys
    requires HasSem(s, sem) && s.lists[SemQueue(sem)] != []
  {
    DropAt(AddCount(s, sem, 1), SemQueue(sem), 0)
  }

  /** signal up to its call of resched. */
  function Signalled(s: Sys, sp: seq<int>, sem: int): Sys
    requires HasSem(s, sem) && Typed(s) && |sp| == NPROC
    requires s.sem[sem].count < 0 ==> s.lists[SemQueue(sem)] != [] && Pid(s.lists[SemQueue(sem)][0])
  {
    if s.sem[sem].count < 0 then Made(Popped(s, sem), sp, s.lists[SemQueue(sem)][0]) else AddCount(s, sem, 1)
  }

  lemma SemNonEmpty(s: Sys, sem: int)
    requires Core(s) && s.resetting == -1 && IsSem(sem)
    ensures Typed(s) && HasSem(s, sem)
    ensures s.sem[sem].count < 0 ==> s.lists[SemQueue(sem)] != [] && Pid(s.lists[SemQueue(sem)][0])
  {
    Basics(s);
    assert SemOk(s, sem) && Allocated(SemQueue(sem));
  }

  /** The other semaphores do not notice. */
  lemma SemsKeep(s: Sys, t: Sys, sem: int)
    requires Shape(s) && Shape(t) && SemsOk(s) && IsSem(sem) && SemOk(t, sem)
    requires t.lists == s.lists[SemQueue(sem) := t.lists[SemQueue(sem)]] && t.resetting == s.resetting
    requires forall i :: 0 <= i < NSEM && i != sem ==> t.sem[i] == s.sem[i]
    ensures SemsOk(t)
  {
    forall i | 0 <= i < NSEM
      ensures SemOk(t, i)
    {
      if i != sem { assert SemOk(s, i); }
    }
  }

  lemma CountShape(s: Sys, sem: int, d: int)
    requires Shape(s) && IsSem(sem)
    ensures Shape(AddCount(s, sem, d))
  {
  }

  /** The ready and sleep lists do not notice a change of a semaphore queue and of processes on none of them. */
  lemma ListsKeep(s: Sys, t: Sys, q: int)
    requires Shape(s) && Shape(t) && ReadySorted(s) && Asleep(s) && s.lists[SCRATCH] == [] && Counted(s)
    requires Allocated(q) && q < READYLIST && t.lists == s.lists[q := t.lists[q]] && t.keys == s.keys
    requires forall x :: x in s.lists[READYLIST] && Pid(x) ==> t.proc[x].prio == s.proc[x].prio
    requires t.readycount == s.readycount && t.ndefers == s.ndefers && t.leaked == s.leaked
    requires t.waking == s.waking && t.stalled == s.stalled && t.resetting == s.resetting
    ensures ReadySorted(t) && Asleep(t) && t.lists[SCRATCH] == [] && Counted(t)
  {
    var l := s.lists[READYLIST];
    assert forall i :: 0 <= i < |l| ==> l[i] in l;
  }

  lemma UncountedInv(s: Sys, sem: int, d: int)
    requires Core(s) && s.resetting == -1 && IsSem(sem) && s.sem[sem].count >= 0 && s.sem[sem].count + d >= 0
    ensures Core(AddCount(s, sem, d))
  {
    var t := AddCount(s, sem, d);
    CountShape(s, sem, d);
    forall x | Pid(x)
      ensures AtHome(t, x)
    {
      assert AtHome(s, x);
    }
    assert SemOk(s, sem);
    SemsKeep(s, t, sem);
    ListsKeep(s, t, SemQueue(sem));
    hide ReadySorted, Asleep, SemsOk, Counted;
  }

  lemma BlockedInv(s: Sys, sem: int)
    requires Core(s) && s.resetting == -1 && IsSem(sem) && s.sem[sem].count <= 0 && s.proc[s.curr].state == PrCurr
    requires s.curr != NULLPROC
    ensures Typed(s) && HasSem(s, sem) && Core(Blocked(s, sem))
  {
    SemNonEmpty(s, sem);
    OnNoList(s, s.curr);
    var q := SemQueue(sem);
    var a, t := AddCount(s, sem, -1), Blocked(s, sem);
    CountShape(s, sem, -1);
    CountAgrees(s, sem, -1, s.curr);
    PutAgrees(a, t, q, |s.lists[q]|, s.curr);
    assert SemOk(s, sem);
    SemsKeep(s, t, sem);
    OnNoQueue(s, s.curr, READYLIST);
    ListsKeep(s, t, q);
    hide ReadySorted, Asleep, SemsOk, Counted, Agree, Shape;
  }

  lemma CountAgrees(s: Sys, sem: int, d: int, but: int)
    requires Shape(s) && Agree(s, but) && IsSem(sem)
    ensures Shape(AddCount(s, sem, d)) && Agree(AddCount(s, sem, d), but)
  {
    forall x | Pid(x) && x != but
      ensures AtHome(AddCount(s, sem, d), x)
    {
      assert AtHome(s, x);
    }
  }

  lemma PoppedInv(s: Sys, sem: int)
    requires Core(s) && s.resetting == -1 && IsSem(sem) && s.sem[sem].count < 0
    ensures Typed(s) && HasSem(s, sem) && s.lists[SemQueue(sem)] != [] && Pid(s.lists[SemQueue(sem)][0])
    ensures CoreBut(Popped(s, sem), s.lists[SemQueue(sem)][0])
  {
    SemNonEmpty(s, sem);
    var q := SemQueue(sem);
    var a, t := AddCount(s, sem, 1), Popped(s, sem);
    CountAgrees(s, sem, 1, EMPTY);
    DropAgrees(a, t, q, 0);
    assert SemOk(s, sem);
    SemsKeep(s, t, sem);
    ListsKeep(s, t, q);
    hide ReadySorted, Asleep, SemsOk, Counted, Agree, Shape;
  }

  lemma WaitedInv(s: Sys, sem: int)
    requires Core(s) && s.resetting == -1 && IsSem(sem) && s.proc[s.curr].state == PrCurr && s.curr != NULLPROC
    ensures Typed(s) && HasSem(s, sem) && Core(Waited(s, sem))
  {
    SemNonEmpty(s, sem);
    if s.sem[sem].count - 1 < 0 { BlockedInv(s, sem); } else { UncountedInv(s, sem, -1); }
  }

  lemma SignalledInv(s: Sys, sp: seq<int>, sem: int)
    requires Core(s) && s.resetting == -1 && IsSem(sem) && PrioOk(sp)
    ensures Typed(s) && HasSem(s, sem)
    ensures s.sem[sem].count < 0 ==> s.lists[SemQueue(sem)] != [] && Pid(s.lists[SemQueue(sem)][0])
    ensures Core(Signalled(s, sp, sem))
  {
    SemNonEmpty(s, sem);
    if s.sem[sem].count < 0 {
      PoppedInv(s, sem);
      hide Core, CoreBut;
      MadeCore(Popped(s, sem), sp, s.lists[SemQueue(sem)][0]);
    } else {
      UncountedInv(s, sem, 1);
    }
  }

  /** `n` signals while rescheduling is deferred. */
  ghost function Released(s: Sys, sp: seq<int>, sem: int, n: nat): (t: Sys)
    requires Core(s) && s.resetting == -1 && IsSem(sem) && PrioOk(sp)
    ensures Core(t) && t.curr == s.curr && t.ndefers == s.ndefers && t.waking == s.waking && t.resetting == s.resetting
    ensures (s.attempt ==> t.attempt) && (t.attempt || t.proc == s.proc)
  {
    if n == 0 then s
    else
      var r := Released(s, sp, sem, n - 1);
      SignalledInv(r, sp, sem);
      if r.sem[sem].count < 0 then
        DeferredInv(Signalled(r, sp, sem), true);
        Signalled(r, sp, sem).(attempt := true)
      else Signalled(r, sp, sem)
  }

  /** The effect of one deferred signal. */
  ghost predicate OneReleased(r: Sys, t: Sys, sem: int) {
    var q := SemQueue(sem);
    && HasSem(r, sem) && Pids(r.lists[q]) && q in t.lists && |t.proc| == |r.proc| == NPROC
    && t.sem == r.sem[sem := r.sem[sem].(count := r.sem[sem].count + 1)]
    && (if r.sem[sem].count < 0 then
          |r.lists[q]| == -r.sem[sem].count && t.lists[q] == r.lists[q][1..] && t.proc[r.lists[q][0]].state == PrReady
        else r.lists[q] == [] && t.lists[q] == [])
    && (forall x :: Pid(x) && r.proc[x].state == PrReady ==> t.proc[x].state == PrReady)
    && (forall p :: Allocated(p) && p != q && p != READYLIST ==>
        p in r.lists && p in t.lists && t.lists[p] == r.lists[p])
  }

  /** The `n` longest waiting processes, or all of them, have become ready, in order, and
      the count has risen by `n`. */
  ghost predicate AllReleased(s: Sys, t: Sys, sem: int, n: nat) {
    var q := SemQueue(sem);
    && HasSem(s, sem) && Pids(s.lists[q]) && q in t.lists && |t.proc| == |s.proc| == NPROC
    && |s.lists[q]| == Max(0, -s.sem[sem].count)
    && t.sem == s.sem[sem := s.sem[sem].(count := s.sem[sem].count + n)]
    && t.lists[q] == (if n <= |s.lists[q]| then s.lists[q][n..] else [])
    && (forall i :: 0 <= i < n && i < |s.lists[q]| ==> t.proc[s.lists[q][i]].state == PrReady)
    && (forall p :: Allocated(p) && p != q && p != READYLIST ==>
        p in s.lists && p in t.lists && t.lists[p] == s.lists[p])
  }

  lemma ReleaseAdds(s: Sys, r: Sys, t: Sys, sem: int, n: nat)
    requires AllReleased(s, r, sem, n) && OneReleased(r, t, sem)
    ensures AllReleased(s, t, sem, n + 1)
  {
    var l := s.lists[SemQueue(sem)];
    if n < |l| {
      assert l[n..][0] == l[n] && l[n..][1..] == l[n + 1..];
    }
  }

  lemma {:induction false} ReleasesInOrder(s: Sys, sp: seq<int>, sem: int, n: nat)
    requires Core(s) && s.resetting == -1 && IsSem(sem) && PrioOk(sp)
    ensures AllReleased(s, Released(s, sp, sem, n), sem, n)
  {
    hide Core, AllReleased, OneReleased, Signalled, PrioOk;
    if n == 0 {
      NoneReleased(s, sem);
    } else {
      ReleasesInOrder(s, sp, sem, n - 1);
      var r := Released(s, sp, sem, n - 1);
      ReleaseStep(r, sp, sem);
      ReleaseAdds(s, r, Released(s, sp, sem, n), sem, n - 1);
    }
  }

  lemma NoneReleased(s: Sys, sem: int)
    requires Core(s) && s.resetting == -1 && IsSem(sem)
    ensures AllReleased(s, s, sem, 0)
  {
    SemNonEmpty(s, sem);
    assert SemOk(s, sem);
  }

  lemma SignalFacts(r: Sys, sp: seq<int>, sem: int)
    requires Shape(r) && SemsOk(r) && r.resetting == -1 && IsSem(sem) && |sp| == NPROC && Typed(r) && HasSem(r, sem)
    requires r.sem[sem].count < 0 ==> r.lists[SemQueue(sem)] != [] && Pid(r.lists[SemQueue(sem)][0])
    ensures OneReleased(r, Signalled(r, sp, sem), sem)
    ensures OneReleased(r, Signalled(r, sp, sem).(attempt := true), sem)
  {
    assert SemOk(r, sem);
    assert Allocated(SemQueue(sem));
    hide Ahead;
  }

  lemma ReleaseStep(r: Sys, sp: seq<int>, sem: int)
    requires Core(r) && r.resetting == -1 && IsSem(sem) && PrioOk(sp)
    ensures OneReleased(r, Released(r, sp, sem, 1), sem)
  {
    SemNonEmpty(r, sem);
    SignalFacts(r, sp, sem);
    SignalledInv(r, sp, sem);
    hide Core, OneReleased, PrioOk, Signalled;
    assert Released(r, sp, sem, 0) == r;
  }

  // ---- Deferred rescheduling ---------------------------------------------------------

  /** resched_cntl(DEFER_START). */
  function Started(s: Sys): Sys {
    s.(ndefers := s.ndefers + 1, attempt := s.attempt && s.ndefers != 0)
  }

  /** resched_cntl(DEFER_STOP): a request made meanwhile is carried out by the last stop. */
  ghost function Stopped(s: Sys, sp: seq<int>): Sys
    requires Core(s) && PrioOk(sp) && s.ndefers > 0
  {
    var u := s.(ndefers := s.ndefers - 1);
    Recount(s, u);
    if u.ndefers == 0 && u.attempt then Done(u, sp) else u
  }

  lemma StartedInv(s: Sys)
    requires SysInv(s)
    ensures SysInv(Started(s)) && Started(s).ndefers > 0
  {
    Recount(s, Started(s));
    hide Agree, ReadySorted, Asleep, SemsOk;
  }

  lemma StoppedInv(s: Sys, sp: seq<int>)
    requires SysInv(s) && PrioOk(sp) && s.ndefers > 0
    ensures SysInv(Stopped(s, sp)) && Stopped(s, sp).ndefers == s.ndefers - 1
  {
    var u := s.(ndefers := s.ndefers - 1);
    Recount(s, u);
    if u.ndefers == 0 && u.attempt { ReschInv(u, sp); }
    hide Core;
  }

  /** A deferred request leaves everything but the note of it alone. */
  lemma DeferredRequest(s: Sys, sp: seq<int>)
    requires Core(s) && PrioOk(sp) && s.ndefers > 0
    ensures Done(s, sp) == s.(attempt := true)
  {
  }

  function Nested(s: Sys, n: nat): (t: Sys)
    ensures n > 0 ==> t.ndefers == s.ndefers + n
  {
    if n == 0 then s else Started(Nested(s, n - 1))
  }

  ghost function Unnested(s: Sys, sp: seq<int>, n: nat): (t: Sys)
    requires SysInv(s) && PrioOk(sp) && s.ndefers >= n
    ensures SysInv(t)
    decreases n
  {
    if n == 0 then s
    else
      StoppedInv(s, sp);
      Unnested(Stopped(s, sp), sp, n - 1)
  }

  lemma {:induction false} NestedInv(s: Sys, n: nat)
    requires SysInv(s)
    ensures SysInv(Nested(s, n))
    ensures Nested(s, n) == s.(ndefers := s.ndefers + n, attempt := s.attempt && (s.ndefers != 0 || n == 0))
  {
    if n > 0 {
      NestedInv(s, n - 1);
      hide SysInv;
      StartedInv(Nested(s, n - 1));
    }
  }

  /** `n` stops below the outermost one carry nothing out. */
  lemma {:induction false} InnerStops(s: Sys, sp: seq<int>, n: nat)
    requires SysInv(s) && PrioOk(sp) && s.ndefers > n
    ensures Unnested(s, sp, n) == s.(ndefers := s.ndefers - n)
    decreases n
  {
    if n > 0 {
      StoppedInv(s, sp);
      hide SysInv, PrioOk;
      InnerStops(Stopped(s, sp), sp, n - 1);
    }
  }

  /** A request made `n` deferrals deep runs exactly at the outermost stop, on the state
      that there was before the deferrals. */
  lemma RunsAtOutermostStop(s: Sys, sp: seq<int>, n: nat)
    requires SysInv(s) && PrioOk(sp) && s.ndefers == 0 && n > 0
    ensures var t := Nested(s, n);
            && SysInv(t) && SysInv(t.(attempt := true))
            && Unnested(t.(attempt := true), sp, n - 1) == s.(ndefers := 1, attempt := true)
            && Core(s.(attempt := true))
            && SysInv(s.(ndefers := 1, attempt := true))
            && Stopped(s.(ndefers := 1, attempt := true), sp) == Done(s.(attempt := true), sp)
  {
    hide Shape, ReadySorted;
    NestedInv(s, n);
    var t := Nested(s, n).(attempt := true);
    Recount(Nested(s, n), t);
    Recount(s, s.(attempt := true));
    Recount(s, s.(ndefers := 1, attempt := true));
    InnerStops(t, sp, n - 1);
    assert s.(ndefers := 1, attempt := true).(ndefers := 0) == s.(attempt := true);
    hide Core;
  }

  /** Released one signal further, as ready does it under deferral. */
  lemma ReleasedNext(s: Sys, sp: seq<int>, sem: int, n: nat)
    requires Core(s) && s.resetting == -1 && IsSem(sem) && PrioOk(sp) && s.ndefers > 0
    ensures var r := Released(s, sp, sem, n);
            && Typed(r) && HasSem(r, sem)
            && (r.sem[sem].count < 0 ==> r.lists[SemQueue(sem)] != [] && Pid(r.lists[SemQueue(sem)][0]))
            && Core(Signalled(r, sp, sem))
            && Released(s, sp, sem, n + 1) == if r.sem[sem].count < 0 then Done(Signalled(r, sp, sem), sp)
                else Signalled(r, sp, sem)
  {
    var r := Released(s, sp, sem, n);
    SignalledInv(r, sp, sem);
    hide Core, PrioOk, HasSem;
    DeferredRequest(Signalled(r, sp, sem), sp);
  }

  lemma ReleasedRuns(s: Sys, sp: seq<int>, sem: int, n: nat)
    requires SysInv(s) && IsSem(sem) && PrioOk(sp) && s.ndefers > 0
    ensures SysInv(Released(s, sp, sem, n))
  {
    var t := Released(s, sp, sem, n);
    hide Core, Released;
  }

  // ---- semreset ------------------------------------------------------------------------

  /** semreset makes the longest waiting process ready without touching the count. */
  function DrainOne(s: Sys, sp: seq<int>, sem: int): Sys
    requires Typed(s) && HasSem(s, sem) && s.lists[SemQueue(sem)] != []
    requires Pid(s.lists[SemQueue(sem)][0]) && |sp| == NPROC
  {
    Made(DropAt(s, SemQueue(sem), 0), sp, s.lists[SemQueue(sem)][0]).(attempt := true)
  }

  lemma DrainBasics(s: Sys, sem: int)
    requires Core(s) && IsSem(sem)
    ensures Typed(s) && HasSem(s, sem) && Pids(s.lists[SemQueue(sem)])
    ensures forall i :: 0 <= i < |s.lists[SemQueue(sem)]| ==> s.proc[s.lists[SemQueue(sem)][i]].state == PrWait
  {
    Basics(s);
    var q := SemQueue(sem);
    assert Allocated(q);
    forall i | 0 <= i < |s.lists[q]|
      ensures s.proc[s.lists[q][i]].state == PrWait
    {
      assert AtHome(s, s.lists[q][i]);
    }
  }

  lemma FirstDrained(s: Sys, sem: int)
    requires Core(s) && s.resetting == sem && IsSem(sem) && HasSem(s, sem) && s.lists[SemQueue(sem)] != []
    ensures CoreBut(DropAt(s, SemQueue(sem), 0), s.lists[SemQueue(sem)][0])
  {
    Basics(s);
    var q, t := SemQueue(sem), DropAt(s, SemQueue(sem), 0);
    DropAgrees(s, t, q, 0);
    SemsKeep(s, t, sem);
    ListsKeep(s, t, q);
    hide ReadySorted, Asleep, SemsOk, Counted, Agree, Shape;
  }

  ghost predicate DrainDoes(s: Sys, t: Sys, sem: int, n: nat) {
    var q := SemQueue(sem);
    && HasSem(s, sem) && HasSem(t, sem) && n <= |s.lists[q]| && Pids(s.lists[q]) && |s.proc| == |t.proc| == NPROC
    && t.lists[q] == s.lists[q][n..] && t.sem == s.sem && t.resetting == s.resetting && t.waking == s.waking
    && t.curr == s.curr && t.ndefers == s.ndefers && (s.attempt ==> t.attempt) && (t.attempt || t.proc == s.proc)
    && (forall i :: 0 <= i < n ==> t.proc[s.lists[q][i]].state == PrReady)
    && (forall x :: Pid(x) && s.proc[x].state == PrReady ==> t.proc[x].state == PrReady)
    && (forall p :: Allocated(p) && p != q && p != READYLIST ==>
        p in s.lists && p in t.lists && t.lists[p] == s.lists[p])
  }

  lemma DrainOneDoes(s: Sys, sp: seq<int>, sem: int)
    requires Shape(s) && Typed(s) && HasSem(s, sem)
    requires s.lists[SemQueue(sem)] != [] && Pids(s.lists[SemQueue(sem)]) && |sp| == NPROC
    ensures DrainDoes(s, DrainOne(s, sp, sem), sem, 1)
  {
    hide Ahead;
  }

  lemma DrainAdds(s: Sys, r: Sys, t: Sys, sem: int, n: nat)
    requires DrainDoes(s, r, sem, n) && DrainDoes(r, t, sem, 1)
    ensures DrainDoes(s, t, sem, n + 1)
  {
    var l := s.lists[SemQueue(sem)];
    assert l[n..][0] == l[n] && l[n..][1..] == l[n + 1..];
    assert r.lists[SemQueue(sem)][0] == l[n];
  }

  lemma DrainNone(s: Sys, sem: int)
    requires Core(s) && IsSem(sem) && HasSem(s, sem)
    ensures DrainDoes(s, s, sem, 0)
  {
    DrainBasics(s, sem);
    assert s.lists[SemQueue(sem)][0..] == s.lists[SemQueue(sem)];
    assert forall p :: Allocated(p) ==> p in s.lists;
  }

  lemma DrainLeft(s: Sys, r: Sys, sem: int, n: nat)
    requires DrainDoes(s, r, sem, n) && HasSem(s, sem) && n < |s.lists[SemQueue(sem)]|
    ensures HasSem(r, sem) && r.lists[SemQueue(sem)] != [] && r.resetting == s.resetting
  {
  }

  lemma DrainStep(r: Sys, sp: seq<int>, sem: int)
    requires Core(r) && r.resetting == sem && IsSem(sem) && HasSem(r, sem) && r.lists[SemQueue(sem)] != [] && PrioOk(sp)
    ensures Typed(r) && Pids(r.lists[SemQueue(sem)])
    ensures Core(DrainOne(r, sp, sem)) && DrainDoes(r, DrainOne(r, sp, sem), sem, 1)
  {
    DrainBasics(r, sem);
    FirstDrained(r, sem);
    DrainOneDoes(r, sp, sem);
    hide Core, CoreBut, DrainDoes, PrioOk;
    MadeCore(DropAt(r, SemQueue(sem), 0), sp, r.lists[SemQueue(sem)][0]);
    DeferredInv(Made(DropAt(r, SemQueue(sem), 0), sp, r.lists[SemQueue(sem)][0]), true);
  }

  lemma DrainMore(s: Sys, r: Sys, sp: seq<int>, sem: int, n: nat)
    requires Core(r) && DrainDoes(s, r, sem, n) && s.resetting == sem && IsSem(sem) && PrioOk(sp)
    requires HasSem(s, sem) && n < |s.lists[SemQueue(sem)]|
    ensures Typed(r) && HasSem(r, sem) && r.lists[SemQueue(sem)] != []
    ensures Pid(r.lists[SemQueue(sem)][0]) && |sp| == NPROC
    ensures Core(DrainOne(r, sp, sem)) && DrainDoes(s, DrainOne(r, sp, sem), sem, n + 1)
  {
    hide Core, CoreBut, DrainDoes, DrainOne;
    DrainLeft(s, r, sem, n);
    DrainStep(r, sp, sem);
    DrainAdds(s, r, DrainOne(r, sp, sem), sem, n);
  }

  /** The first `n` waiting processes made ready, in order, while rescheduling is deferred. */
  ghost function Drained(s: Sys, sp: seq<int>, sem: int, n: nat): (t: Sys)
    requires Core(s) && s.resetting == sem && IsSem(sem)
    requires PrioOk(sp) && HasSem(s, sem) && n <= |s.lists[SemQueue(sem)]|
    ensures Core(t) && DrainDoes(s, t, sem, n)
  {
    if n == 0 then DrainNone(s, sem); s
    else
      var r := Drained(s, sp, sem, n - 1);
      DrainMore(s, r, sp, sem, n - 1);
      DrainOne(r, sp, sem)
  }

  lemma ResettingInv(s: Sys, sem: int)
    requires Core(s)
    ensures Core(s.(resetting := sem)) || s.resetting != -1
  {
    var t := s.(resetting := sem);
    if s.resetting == -1 {
      forall x | Pid(x)
        ensures AtHome(t, x)
      {
        assert AtHome(s, x);
      }
      forall i | 0 <= i < NSEM
        ensures SemOk(t, i)
      {
        assert SemOk(s, i);
      }
    }
  }

  /** With the queue empty the count can be set. */
  lemma ResetDone(s: Sys, sem: int, count: int)
    requires Core(s) && IsSem(sem) && s.resetting == sem && HasSem(s, sem) && s.lists[SemQueue(sem)] == [] && count >= 0
    ensures Core(s.(sem := s.sem[sem := s.sem[sem].(count := count)], resetting := -1))
  {
    var t := s.(sem := s.sem[sem := s.sem[sem].(count := count)], resetting := -1);
    forall x | Pid(x)
      ensures AtHome(t, x)
    {
      assert AtHome(s, x);
    }
    forall i | 0 <= i < NSEM
      ensures SemOk(t, i)
    {
      assert SemOk(s, i);
    }
  }

  /** semreset up to its last step: the queue is empty and the count is set. */
  ghost function Emptied(s: Sys, sp: seq<int>, sem: int, count: int): (t: Sys)
    requires SysInv(s) && IsSem(sem) && PrioOk(sp) && count >= 0 && s.ndefers > 0
    ensures SysInv(t) && t.ndefers == s.ndefers
    ensures HasSem(s, sem)
    ensures DrainDoes(s.(resetting := sem), t.(sem := s.sem, resetting := sem), sem, |s.lists[SemQueue(sem)]|)
    ensures HasSem(t, sem) && t.lists[SemQueue(sem)] == [] && t.sem == s.sem[sem := s.sem[sem].(count := count)]
  {
    ResettingInv(s, sem);
    var r := s.(resetting := sem);
    DrainBasics(r, sem);
    assert HasSem(s, sem);
    var d := Drained(r, sp, sem, |r.lists[SemQueue(sem)]|);
    ResetDone(d, sem, count);
    EmptiedRuns(s, d, sem, count);
    d.(sem := d.sem[sem := d.sem[sem].(count := count)], resetting := -1)
  }

  lemma EmptiedRuns(s: Sys, d: Sys, sem: int, count: int)
    requires SysInv(s) && HasSem(s, sem)
    requires DrainDoes(s.(resetting := sem), d, sem, |s.lists[SemQueue(sem)]|) && s.ndefers > 0
    requires Core(d.(sem := d.sem[sem := d.sem[sem].(count := count)], resetting := -1))
    ensures SysInv(d.(sem := d.sem[sem := d.sem[sem].(count := count)], resetting := -1))
  {
    hide Core;
  }

  /** Freeing the table entry of a semaphore. */
  function Freed(s: Sys, sem: int): Sys
    requires 0 <= sem < |s.sem|
  {
    s.(sem := s.sem[sem := s.sem[sem].(used := false)])
  }

  lemma FreedInv(s: Sys, sem: int)
    requires SysInv(s) && IsSem(sem)
    ensures IsSem(sem) && |s.sem| == NSEM && SysInv(Freed(s, sem))
  {
    var t := Freed(s, sem);
    forall x | Pid(x)
      ensures AtHome(t, x)
    {
      assert AtHome(s, x);
    }
    forall i | 0 <= i < NSEM
      ensures SemOk(t, i)
    {
      assert SemOk(s, i);
    }
  }

  /** semdelete up to its last step: every waiting process is ready. */
  ghost function Deleted(s: Sys, sp: seq<int>, sem: int): (t: Sys)
    requires SysInv(s) && IsSem(sem) && PrioOk(sp) && s.ndefers > 0
    ensures |s.sem| == NSEM
    ensures var k := Max(0, -s.sem[sem].count);
            SysInv(t) && |t.sem| == NSEM && AllReleased(Freed(s, sem), AddCount(t, sem, -1), sem, k)
            && t.ndefers == s.ndefers
  {
    hide Core, AllReleased, PrioOk, Released;
    FreedInv(s, sem);
    var u, k := Freed(s, sem), Max(0, -s.sem[sem].count);
    ReleasesInOrder(u, sp, sem, k);
    ReleasedRuns(u, sp, sem, k);
    var r := Released(u, sp, sem, k);
    DeletedRuns(u, r, sem, k);
    AddCount(r, sem, 1)
  }

  lemma DeletedRuns(u: Sys, r: Sys, sem: int, k: nat)
    requires SysInv(r) && IsSem(sem) && AllReleased(u, r, sem, k) && u.sem[sem].count + k >= 0
    ensures SysInv(AddCount(r, sem, 1))
    ensures |r.sem| == NSEM && AddCount(AddCount(r, sem, 1), sem, -1) == r
  {
    UncountedInv(r, sem, 1);
    assert r.sem[sem].(count := r.sem[sem].count + 1).(count := r.sem[sem].count) == r.sem[sem];
    hide Core;
  }
}
