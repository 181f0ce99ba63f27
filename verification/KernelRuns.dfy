/** Runs of the kernel: any sequence of calls, clock ticks and rescheduling, and what holds from
    one call to a later one over everything that happens in between. */
module KernelRuns {
  import opened Common
  import opened QueueTab
  import opened DeltaList
  import opened KernelSpec
  import opened KernelSteps
  import opened KernelTime
  import opened KernelSched
  import opened KernelEffects

  /** A call, up to the point where the processor may be switched, by the process that runs.
      Await and Timed are the first parts of receive and recvtime, Take is their end; Kill is
      the end of kill. */
  datatype Call =
    | Wait(sem: int)
    | Signal(sem: int)
    | Signaln(sem: int, count: int)
    | Semreset(sem: int, count: int)
    | Semdelete(sem: int)
    | Semcreate(sem: int, count: int)
    | Sleep(delay: int)
    | Timed(delay: int)
    | Clock
    | Yield
    | Send(pid: int, msg: int)
    | Await
    | Take
    | Suspend(pid: int)
    | Resume(pid: int)
    | Kill(pid: int)
    | Create(pid: int, prio: int)
    | Defer
    | Undefer
    | Setsched

  predicate GoodSem(s: Sys, sem: int) { IsSem(sem) && |s.sem| == NSEM && s.sem[sem].used }

  predicate GoodPid(s: Sys, pid: int) { Pid(pid) && |s.proc| == NPROC && s.proc[pid].state != PrFree }

  /** The caller runs and may block, as the null process may not. */
  predicate MayBlock(s: Sys) {
    Pid(s.curr) && |s.proc| == NPROC && s.curr != NULLPROC && s.proc[s.curr].state == PrCurr
  }

  /** send to `pid` is accepted. */
  predicate Accepts(s: Sys, pid: int) { GoodPid(s, pid) && !s.proc[pid].hasmsg }

  ghost predicate SemStep(s: Sys, c: Call, sp: seq<int>, t: Sys)
    requires SysInv(s) && PrioOk(sp) && Typed(s) && |sp| == NPROC && s.ndefers >= 0
  {
    match c
    case Wait(sem) =>
      && MayBlock(s)
      && if !GoodSem(s, sem) then t == s
         else HasSem(s, sem) && Core(Waited(s, sem))
              && t == if s.sem[sem].count - 1 < 0 then Done(Waited(s, sem), sp) else Waited(s, sem)
    case Signal(sem) =>
      if !GoodSem(s, sem) then t == s
      else HasSem(s, sem)
           && (s.sem[sem].count < 0 ==> s.lists[SemQueue(sem)] != [] && Pid(s.lists[SemQueue(sem)][0]))
           && Core(Signalled(s, sp, sem))
           && t == if s.sem[sem].count < 0 then Done(Signalled(s, sp, sem), sp) else Signalled(s, sp, sem)
    case Signaln(sem, n) =>
      if !GoodSem(s, sem) || n < 0 then t == s
      else SysInv(Started(s)) && SysInv(Released(Started(s), sp, sem, n))
           && t == Stopped(Released(Started(s), sp, sem, n), sp)
    case Semreset(sem, n) =>
      if !GoodSem(s, sem) || n < 0 then t == s
      else SysInv(Started(s)) && t == Stopped(Emptied(Started(s), sp, sem, n), sp)
    case Semdelete(sem) =>
      if !GoodSem(s, sem) then t == s
      else SysInv(Started(s)) && t == Stopped(Deleted(Started(s), sp, sem), sp)
    case Semcreate(sem, n) =>
      IsSem(sem) && |s.sem| == NSEM && !s.sem[sem].used && n >= 0
      && t == s.(sem := s.sem[sem := s.sem[sem].(used := true, count := n)])
    case _ => false
  }

  ghost predicate OtherStep(s: Sys, c: Call, sp: seq<int>, t: Sys)
    requires SysInv(s) && PrioOk(sp) && Typed(s) && |sp| == NPROC && s.ndefers >= 0
  {
    match c
    case Sleep(delay) =>
      MayBlock(s) && delay > 0 && Core(Slept(s, delay, PrSleep)) && t == Done(Slept(s, delay, PrSleep), sp)
    case Timed(delay) =>
      && MayBlock(s) && delay >= 0
      && if s.proc[s.curr].hasmsg then t == s
         else Core(Slept(s, delay, PrRectim)) && t == Done(Slept(s, delay, PrRectim), sp)
    case Clock => t == AfterTick(s, sp)
    case Yield => t == Done(s, sp)
    case Send(pid, msg) =>
      if !Accepts(s, pid) then t == s
      else (s.proc[pid].state == PrRectim ==> pid in s.lists[SLEEPQ]) && Core(Sent(s, sp, pid, msg))
           && t == if s.proc[pid].state == PrRecv || s.proc[pid].state == PrRectim
                   then Done(Sent(s, sp, pid, msg), sp) else Sent(s, sp, pid, msg)
    case Await =>
      && MayBlock(s)
      && if s.proc[s.curr].hasmsg then t == s
         else Core(SetState(s, s.curr, PrRecv)) && t == Done(SetState(s, s.curr, PrRecv), sp)
    case Take => t == Messaged(s, s.curr, false, s.proc[s.curr].msg)
    case Suspend(pid) =>
      if !GoodPid(s, pid) || pid == NULLPROC || (s.proc[pid].state != PrCurr && s.proc[pid].state != PrReady) then
        t == s
      else if s.proc[pid].state == PrReady then
        pid in s.lists[READYLIST] && t == SetState(Unready(s, pid), pid, PrSusp)
      else Core(SetState(s, pid, PrSusp)) && t == Done(SetState(s, pid, PrSusp), sp)
    case Resume(pid) =>
      if !GoodPid(s, pid) || s.proc[pid].state != PrSusp then t == s
      else Core(Made(s, sp, pid)) && t == Done(Made(s, sp, pid), sp)
    case Kill(pid) =>
      && Pid(pid) && pid != NULLPROC && Endable(s, pid) && Core(Ended(s, pid))
      && t == if s.proc[pid].state == PrCurr then Done(Ended(s, pid), sp) else Ended(s, pid)
    case Create(pid, prio) =>
      && Pid(pid) && s.proc[pid].state == PrFree && prio >= 1
      && t == s.(proc := s.proc[pid := Proc(PrSusp, prio, EMPTY, false, s.proc[pid].msg, s.curr)])
    case Defer => t == Started(s)
    case Undefer => if s.ndefers > 0 then t == Stopped(s, sp) else t == s
    case Setsched => t == Rescheduled(s, sp)
    case _ => false
  }

  predicate OnSem(c: Call) { c.Wait? || c.Signal? || c.Signaln? || c.Semreset? || c.Semdelete? || c.Semcreate? }

  /** One call, with the priorities that setprio gives at that moment. */
  ghost predicate Step(s: Sys, c: Call, sp: seq<int>, t: Sys) {
    && SysInv(s) && SysInv(t) && PrioOk(sp) && |sp| == NPROC && Typed(s) && Typed(t) && s.ndefers >= 0
    && if OnSem(c) then SemStep(s, c, sp, t) else OtherStep(s, c, sp, t)
  }

  ghost predicate Run(s: seq<Sys>, cs: seq<Call>, sps: seq<seq<int>>) {
    |s| == |cs| + 1 == |sps| + 1 && forall k :: 0 <= k < |cs| ==> Step(s[k], cs[k], sps[k], s[k + 1])
  }

  // ---- What one step does ------------------------------------------------------------------------------

  ghost predicate Did(s: Sys, c: Call, t: Sys)
    requires Typed(s) && Typed(t)
  {
    match c
    case Wait(sem) => if GoodSem(s, sem) then WaitDid(s, t, sem) else Calm(s, t)
    case Signal(sem) => if GoodSem(s, sem) then SignalDid(s, t, sem) else Calm(s, t)
    case Signaln(sem, n) => if GoodSem(s, sem) && n >= 0 then QueueShrinks(s, t, sem) else Calm(s, t)
    case Semreset(sem, n) => if GoodSem(s, sem) && n >= 0 then QueueShrinks(s, t, sem) else Calm(s, t)
    case Semdelete(sem) => if GoodSem(s, sem) then QueueShrinks(s, t, sem) else Calm(s, t)
    case Semcreate(sem, n) => Steady(s, t) && t.lists == s.lists
    case Sleep(delay) => delay > 0 && SleepDid(s, t, delay)
    case Timed(delay) => delay >= 0 && if s.proc[s.curr].hasmsg then Calm(s, t) else SleepDid(s, t, delay)
    case Clock => ClockDid(s, t)
    case Send(pid, msg) => if Accepts(s, pid) then SendDid(s, t, pid, msg) else Calm(s, t)
    case Take => MailSet(s, t, s.curr, false, s.proc[s.curr].msg) && SameSleep(s, t) && SameQueues(s, t)
    case Create(pid, _) =>
      Pid(pid) && MailSet(s, t, pid, false, s.proc[pid].msg) && SameSleep(s, t) && SameQueues(s, t)
    case Kill(pid) => Pid(pid) && KillDid(s, t, pid)
    case _ => Calm(s, t)
  }

  lemma CalmSelf(s: Sys)
    requires Typed(s)
    ensures Calm(s, s)
  {
    assert forall x :: x in s.lists[SLEEPQ] ==> Pid(x);
  }

  lemma SysCore(s: Sys)
    requires SysInv(s)
    ensures Core(s) && !s.waking && s.resetting == -1 && Typed(s)
  {
    Basics(s);
  }

  lemma SemDid(s: Sys, c: Call, sp: seq<int>, t: Sys)
    requires SysInv(s) && PrioOk(sp) && Typed(s) && Typed(t) && |sp| == NPROC && s.ndefers >= 0
    requires (c.Wait? || c.Signal? || c.Semcreate?) && SemStep(s, c, sp, t)
    ensures Did(s, c, t)
  {
    hide Core, SysInv, PrioOk, Done, Waited, Signalled, WaitDid, SignalDid, Calm;
    SysCore(s);
    CalmSelf(s);
    match c
    case Wait(sem) => if GoodSem(s, sem) { WaitEffect(s, sp, sem); }
    case Signal(sem) => if GoodSem(s, sem) { SignalEffect(s, sp, sem); }
    case Semcreate(sem, n) => assert forall x :: x in s.lists[SLEEPQ] ==> Pid(x);
  }

  lemma ManyDid(s: Sys, c: Call, sp: seq<int>, t: Sys)
    requires SysInv(s) && PrioOk(sp) && Typed(s) && Typed(t) && |sp| == NPROC && s.ndefers >= 0
    requires (c.Signaln? || c.Semreset? || c.Semdelete?) && SemStep(s, c, sp, t)
    ensures Did(s, c, t)
  {
    hide Core, SysInv, PrioOk, Released, Emptied, Deleted, Stopped, QueueShrinks, Calm;
    SysCore(s);
    CalmSelf(s);
    if GoodSem(s, c.sem) && (c.Semdelete? || c.count >= 0) {
      var u := Started(s);
      SysCore(u);
      var v := if c.Signaln? then Released(u, sp, c.sem, c.count)
               else if c.Semreset? then Emptied(u, sp, c.sem, c.count) else Deleted(u, sp, c.sem);
      SysCore(v);
      if c.Signaln? { ReleasedShrinks(u, sp, c.sem, c.count); }
      if c.Semreset? { EmptiedShrinks(u, sp, c.sem, c.count); }
      if c.Semdelete? { DeletedShrinks(u, sp, c.sem); }
      StartedShrinks(s, v, c.sem);
      StoppedOnward(v, sp);
      ShrinksThen(s, v, Stopped(v, sp), c.sem);
    }
  }

  lemma StartedShrinks(s: Sys, v: Sys, sem: int)
    requires Typed(s) && Typed(v) && QueueShrinks(Started(s), v, sem)
    ensures QueueShrinks(s, v, sem)
  {
  }

  lemma SleepingDid(s: Sys, c: Call, sp: seq<int>, t: Sys)
    requires SysInv(s) && PrioOk(sp) && Typed(s) && Typed(t) && |sp| == NPROC && s.ndefers >= 0
    requires (c.Sleep? || c.Timed? || c.Clock? || c.Send?) && OtherStep(s, c, sp, t)
    ensures Did(s, c, t)
  {
    hide Core, SysInv, PrioOk, Done, Slept, Sent, AfterTick, SleepDid, SendDid, ClockDid, Calm;
    SysCore(s);
    CalmSelf(s);
    match c
    case Sleep(delay) => SleepEffect(s, sp, delay, PrSleep);
    case Timed(delay) => if !s.proc[s.curr].hasmsg { SleepEffect(s, sp, delay, PrRectim); }
    case Clock => ClockEffect(s, sp);
    case Send(pid, msg) => if Accepts(s, pid) { SendEffect(s, sp, pid, msg); }
  }

  lemma EndingDid(s: Sys, c: Call, sp: seq<int>, t: Sys)
    requires SysInv(s) && PrioOk(sp) && Typed(s) && Typed(t) && |sp| == NPROC && s.ndefers >= 0
    requires (c.Kill? || c.Create? || c.Take?) && OtherStep(s, c, sp, t)
    ensures Did(s, c, t)
  {
    hide Core, SysInv, PrioOk, Done, Ended, KillDid, Onward;
    SysCore(s);
    if c.Kill? {
      assert NoDup(s.lists[SLEEPQ]) by { QueueNoDup(s); }
      WaitersSem(s, c.pid);
      EndedDid(s, c.pid);
      if s.proc[c.pid].state == PrCurr {
        CoreTyped(Ended(s, c.pid));
        DoneOnward(Ended(s, c.pid), sp);
        KillThen(s, Ended(s, c.pid), Done(Ended(s, c.pid), sp), c.pid);
      }
    } else {
      assert forall x :: x in s.lists[SLEEPQ] ==> Pid(x);
    }
  }

  lemma QueueNoDup(s: Sys)
    requires Core(s)
    ensures Typed(s) && NoDup(s.lists[SLEEPQ])
  {
    Basics(s);
  }

  lemma WaitersSem(s: Sys, pid: int)
    requires SysInv(s) && Pid(pid)
    ensures |s.proc| == NPROC && (s.proc[pid].state == PrWait ==> IsSem(s.proc[pid].sem))
  {
    StatesAndQueues(s, pid);
  }

  lemma CalmDid(s: Sys, c: Call, sp: seq<int>, t: Sys)
    requires SysInv(s) && PrioOk(sp) && Typed(s) && Typed(t) && |sp| == NPROC && s.ndefers >= 0
    requires c.Yield? || c.Await? || c.Suspend? || c.Resume? || c.Defer? || c.Undefer? || c.Setsched?
    requires OtherStep(s, c, sp, t)
    ensures Did(s, c, t)
  {
    hide Core, SysInv, PrioOk, Done, Made, Unready, Stopped, Rescheduled, Calm, Onward;
    SysCore(s);
    CalmSelf(s);
    match c
    case Yield =>
      DoneOnward(s, sp);
      OnwardCalm(s, t);
    case Await => if !s.proc[s.curr].hasmsg { ParkedDone(s, sp, s.curr, PrRecv); }
    case Suspend(pid) =>
      if t != s {
        if s.proc[pid].state == PrReady { UnreadyCalm(s, pid, PrSusp); } else { ParkedDone(s, sp, pid, PrSusp); }
      }
    case Resume(pid) =>
      if t != s {
        NotAsleep(s, pid);
        MadeKeeps(s, sp, pid);
        CoreTyped(Made(s, sp, pid));
        DoneOnward(Made(s, sp, pid), sp);
        OnwardTwice(s, Made(s, sp, pid), t);
        OnwardCalm(s, t);
      }
    case Defer => assert Calm(s, t) by { StartedCalm(s); }
    case Undefer =>
      if s.ndefers > 0 {
        StoppedOnward(s, sp);
        OnwardCalm(s, t);
      }
    case Setsched => RescheduledCalm(s, sp);
  }

  lemma StartedCalm(s: Sys)
    requires Typed(s)
    ensures Calm(s, Started(s))
  {
    assert forall x :: x in s.lists[SLEEPQ] ==> Pid(x);
  }

  lemma ParkedDone(s: Sys, sp: seq<int>, pid: int, st: PrState)
    requires Typed(s) && Pid(pid) && PrioOk(sp) && Core(SetState(s, pid, st))
    ensures Calm(s, Done(SetState(s, pid, st), sp))
  {
    hide Core, Done, Calm, Onward, PrioOk;
    ParkedCalm(s, pid, st);
    DoneOnward(SetState(s, pid, st), sp);
    CalmThen(s, SetState(s, pid, st), Done(SetState(s, pid, st), sp));
  }

  lemma StepDid(s: Sys, c: Call, sp: seq<int>, t: Sys)
    requires Step(s, c, sp, t)
    ensures Did(s, c, t)
  {
    hide SysInv, PrioOk, SemStep, OtherStep, Did;
    if c.Wait? || c.Signal? || c.Semcreate? { SemDid(s, c, sp, t); }
    else if c.Signaln? || c.Semreset? || c.Semdelete? { ManyDid(s, c, sp, t); }
    else if c.Sleep? || c.Timed? || c.Clock? || c.Send? { SleepingDid(s, c, sp, t); }
    else if c.Kill? || c.Create? || c.Take? { EndingDid(s, c, sp, t); }
    else { CalmDid(s, c, sp, t); }
  }

  // ---- What one step does to the queue of a semaphore ------------------------------------------------

  predicate Releases(c: Call, sem: int) {
    (c.Signal? || c.Signaln? || c.Semreset? || c.Semdelete?) && c.sem == sem
  }

  /** The process that a step blocks on the semaphore, if any, as a list. */
  function BlockedBy(s: Sys, c: Call, sem: int): seq<int> {
    if c == Wait(sem) && GoodSem(s, sem) && s.sem[sem].count <= 0 then [s.curr] else []
  }

  /** A waiting process is killed. */
  predicate KillsWaiter(s: Sys, c: Call, sem: int) {
    c.Kill? && Pid(c.pid) && |s.proc| == NPROC && s.proc[c.pid].state == PrWait && s.proc[c.pid].sem == sem
  }

  ghost predicate QueueMoves(s: Sys, c: Call, t: Sys, sem: int)
    requires Typed(t)
  {
    var q := SemQueue(sem);
    && q in s.lists && q in t.lists
    && if Releases(c, sem) then
         exists n :: 0 <= n <= |s.lists[q]| && t.lists[q] == s.lists[q][n..] && AllReady(t, s.lists[q][..n])
                     && (c.Signal? && GoodSem(s, sem) ==> n == Min(1, |s.lists[q]|))
       else t.lists[q] == s.lists[q] + BlockedBy(s, c, sem)
  }

  ghost predicate AllReady(t: Sys, l: seq<int>)
    requires Typed(t)
  {
    forall i :: 0 <= i < |l| ==> Released1(t, l[i])
  }

  lemma SemHome(s: Sys, sem: int)
    requires SysInv(s) && IsSem(sem)
    ensures SemQueue(sem) in s.lists && SemQueue(sem) != READYLIST && SemQueue(sem) != SLEEPQ
  {
    assert Allocated(SemQueue(sem));
  }

  lemma StepQueue(s: Sys, c: Call, sp: seq<int>, t: Sys, sem: int)
    requires Step(s, c, sp, t) && IsSem(sem) && !KillsWaiter(s, c, sem)
    ensures QueueMoves(s, c, t, sem)
  {
    hide SysInv, PrioOk, SemStep, OtherStep, Steady, SameMail, SameSleep, WakesUp, SleepDid, TickDid;
    SemHome(s, sem);
    SemHome(t, sem);
    StepDid(s, c, sp, t);
    assert s.lists[SemQueue(sem)][0..] == s.lists[SemQueue(sem)];
    if c.Sleep? || (c.Timed? && !s.proc[s.curr].hasmsg) { SleepQueues(s, t, c.delay, SemQueue(sem)); }
    if Releases(c, sem) { ReleasesQueue(s, c, t, sem); }
  }

  lemma SleepQueues(s: Sys, t: Sys, delay: int, q: int)
    requires Typed(s) && SleepDid(s, t, delay) && q in s.lists && q != READYLIST && q != SLEEPQ
    ensures q in t.lists && t.lists[q] == s.lists[q]
  {
  }

  lemma ReleasesQueue(s: Sys, c: Call, t: Sys, sem: int)
    requires Typed(s) && Typed(t) && Did(s, c, t) && Releases(c, sem)
    requires SemQueue(sem) in s.lists && SemQueue(sem) in t.lists
    requires SemQueue(sem) != READYLIST
    ensures QueueMoves(s, c, t, sem)
  {
    hide Steady, SameMail, SameSleep;
    var l := s.lists[SemQueue(sem)];
    assert l[0..] == l && AllReady(t, l[..0]);
    if c.Signal? && GoodSem(s, sem) {
      if l != [] { assert AllReady(t, l[..1]); }
    } else if GoodSem(s, sem) && (c.Semdelete? || c.count >= 0) {
      var n :| 0 <= n <= |l| && t.lists[SemQueue(sem)] == l[n..] && forall i :: 0 <= i < n ==> Released1(t, l[i]);
      assert AllReady(t, l[..n]);
    }
  }

  /** The processes that a step releases from the semaphore, in the order of the queue. */
  ghost function ReleasedBy(s: Sys, c: Call, t: Sys, sem: int): seq<int> {
    var q := SemQueue(sem);
    if Releases(c, sem) && q in s.lists && q in t.lists && |t.lists[q]| <= |s.lists[q]|
    then s.lists[q][..|s.lists[q]| - |t.lists[q]|] else []
  }

  /** The processes that the first `k` steps block on the semaphore, in the order of their
      calls, and those that they release. */
  ghost function AllBlocked(s: seq<Sys>, cs: seq<Call>, sem: int, k: nat): seq<int>
    requires |s| == |cs| + 1 && k <= |cs|
  {
    if k == 0 then [] else AllBlocked(s, cs, sem, k - 1) + BlockedBy(s[k - 1], cs[k - 1], sem)
  }

  ghost function AllReleasedBy(s: seq<Sys>, cs: seq<Call>, sem: int, k: nat): seq<int>
    requires |s| == |cs| + 1 && k <= |cs|
  {
    if k == 0 then [] else AllReleasedBy(s, cs, sem, k - 1) + ReleasedBy(s[k - 1], cs[k - 1], s[k], sem)
  }

  /** Over every run in which no waiter is killed, the processes released from a semaphore are a
      prefix of those that blocked on it, in the order of their calls of wait, and the others
      are in the queue in that order. */
  lemma {:induction false} FirstComeFirstServed(s: seq<Sys>, cs: seq<Call>, sps: seq<seq<int>>, sem: int, k: nat)
    requires Run(s, cs, sps) && IsSem(sem) && k <= |cs| && SysInv(s[0])
    requires forall j :: 0 <= j < k ==> !KillsWaiter(s[j], cs[j], sem)
    ensures SemQueue(sem) in s[0].lists && SemQueue(sem) in s[k].lists
    ensures s[0].lists[SemQueue(sem)] + AllBlocked(s, cs, sem, k)
         == AllReleasedBy(s, cs, sem, k) + s[k].lists[SemQueue(sem)]
  {
    hide SysInv, Step, KillsWaiter, BlockedBy, ReleasedBy, QueueMoves;
    var q := SemQueue(sem);
    if k == 0 {
      SemHome(s[0], sem);
    } else {
      FirstComeFirstServed(s, cs, sps, sem, k - 1);
      var a, c, b := s[k - 1], cs[k - 1], s[k];
      assert Step(a, c, sps[k - 1], s[k - 1 + 1]);
      StepTyped(a, c, sps[k - 1], b);
      StepQueue(a, c, sps[k - 1], b, sem);
      QueueSum(a, c, b, sem);
      Prolonged(s[0].lists[q], AllBlocked(s, cs, sem, k - 1), AllReleasedBy(s, cs, sem, k - 1), a.lists[q],
                BlockedBy(a, c, sem), ReleasedBy(a, c, b, sem), b.lists[q]);
    }
  }

  lemma Prolonged(first: seq<int>, came: seq<int>, left: seq<int>, l: seq<int>, x: seq<int>, y: seq<int>, m: seq<int>)
    requires first + came == left + l && l + x == y + m
    ensures first + (came + x) == (left + y) + m
  {
    assert first + (came + x) == (first + came) + x;
    assert (left + l) + x == left + (l + x);
    assert left + (y + m) == (left + y) + m;
  }

  lemma StepTyped(s: Sys, c: Call, sp: seq<int>, t: Sys)
    requires Step(s, c, sp, t)
    ensures Typed(s) && Typed(t) && SysInv(s) && SysInv(t)
  {
    hide SysInv, SemStep, OtherStep;
  }

  lemma QueueSum(s: Sys, c: Call, t: Sys, sem: int)
    requires Typed(t) && QueueMoves(s, c, t, sem)
    ensures SemQueue(sem) in s.lists && SemQueue(sem) in t.lists
    ensures s.lists[SemQueue(sem)] + BlockedBy(s, c, sem) == ReleasedBy(s, c, t, sem) + t.lists[SemQueue(sem)]
  {
    hide GoodSem, AllReady;
    var l := s.lists[SemQueue(sem)];
    if Releases(c, sem) {
      var n :| 0 <= n <= |l| && t.lists[SemQueue(sem)] == l[n..];
      assert l == l[..n] + l[n..];
    }
  }

  /** A signal releases one process if any waits, and every process released is ready or
      running. */
  lemma SignalReleases(s: Sys, c: Call, sp: seq<int>, t: Sys, sem: int)
    requires Step(s, c, sp, t) && IsSem(sem) && !KillsWaiter(s, c, sem)
    ensures Typed(t) && AllReady(t, ReleasedBy(s, c, t, sem))
    ensures SemQueue(sem) in s.lists
    ensures c.Signal? && c.sem == sem && GoodSem(s, sem) ==>
              |ReleasedBy(s, c, t, sem)| == Min(1, |s.lists[SemQueue(sem)]|)
  {
    hide SysInv, PrioOk, SemStep, OtherStep;
    StepQueue(s, c, sp, t, sem);
  }

  // ---- Messages ------------------------------------------------------------------------------------------

  /** The step puts a message for `x`, takes it, or creates `x`. */
  predicate Touches(s: Sys, c: Call, x: int) {
    match c
    case Send(pid, _) => pid == x && Accepts(s, x)
    case Take => s.curr == x
    case Create(pid, _) => pid == x
    case _ => false
  }

  lemma StepMail(s: Sys, c: Call, sp: seq<int>, t: Sys, x: int)
    requires Step(s, c, sp, t) && Pid(x)
    ensures |s.proc| == NPROC == |t.proc|
    ensures if !Touches(s, c, x) then t.proc[x].hasmsg == s.proc[x].hasmsg && t.proc[x].msg == s.proc[x].msg
            else if c.Send? then t.proc[x].hasmsg && t.proc[x].msg == c.msg else !t.proc[x].hasmsg
  {
    hide SysInv, PrioOk, SemStep, OtherStep, SameSleep, SameQueues, WakesUp, TickDid, QueuesBut, Delays, FallsAsleep;
    StepDid(s, c, sp, t);
  }

  /** The latest of the first `k` steps that concerns the message of `x`, -1 for none. */
  function LastTouch(s: seq<Sys>, cs: seq<Call>, x: int, k: nat): (j: int)
    requires |s| == |cs| + 1 && k <= |cs|
    ensures -1 <= j < k
  {
    if k == 0 then -1 else if Touches(s[k - 1], cs[k - 1], x) then k - 1 else LastTouch(s, cs, x, k - 1)
  }

  /** Over every run there is a message for `x` exactly if the last thing that concerned it was
      an accepted send, and it is the one sent: so that is what receive and recvtime return. */
  lemma {:induction false} MessageIsLastSent(s: seq<Sys>, cs: seq<Call>, sps: seq<seq<int>>, x: int, k: nat)
    requires Run(s, cs, sps) && Pid(x) && k <= |cs| && |s[0].proc| == NPROC && !s[0].proc[x].hasmsg
    ensures |s[k].proc| == NPROC
    ensures var j := LastTouch(s, cs, x, k);
            && (s[k].proc[x].hasmsg <==> j >= 0 && cs[j].Send?)
            && (s[k].proc[x].hasmsg ==> cs[j].pid == x && s[k].proc[x].msg == cs[j].msg)
  {
    hide SysInv, Step;
    if k > 0 {
      MessageIsLastSent(s, cs, sps, x, k - 1);
      assert Step(s[k - 1], cs[k - 1], sps[k - 1], s[k - 1 + 1]);
      StepMail(s[k - 1], cs[k - 1], sps[k - 1], s[k], x);
    }
  }

  // ---- Sleeping ------------------------------------------------------------------------------------------

  /** A message ends a timed receive of `x`, or `x` is killed. */
  predicate Disturbs(s: Sys, c: Call, x: int) {
    match c
    case Send(pid, _) => pid == x && Accepts(s, x) && s.proc[x].state == PrRectim
    case Kill(pid) => pid == x
    case _ => false
  }

  /** `x` sleeps with `d` ticks left. */
  ghost predicate Sleeps(s: Sys, x: int, d: int)
    requires Typed(s)
  {
    Sleeper(x, d) in Delays(s)
  }

  lemma StepSleep(s: Sys, c: Call, sp: seq<int>, t: Sys, x: int, d: int)
    requires Step(s, c, sp, t) && Typed(s) && Sleeps(s, x, d) && !Disturbs(s, c, x) && !(c.Clock? && s.stalled)
    ensures Typed(t)
    ensures if !c.Clock? then Sleeps(t, x, d)
            else if d == 1 then x !in t.lists[SLEEPQ] && Released1(t, x) else d > 1 && Sleeps(t, x, d - 1)
  {
    hide SysInv, PrioOk, SemStep, OtherStep, SameMail, SameQueues, QueuesBut, TickDid, WakesUp, FallsAsleep, Sleeps,
         Delays, SameSleep;
    StepDid(s, c, sp, t);
    SleepersNoDup(s);
    match c
    case Clock => TickedSleep(s, t, x, d);
    case Sleep(delay) => OthersFallAsleep(s, t, s.curr, delay, x, d);
    case Timed(delay) =>
      if s.proc[s.curr].hasmsg { SteadySleep(s, t, x, d); } else { OthersFallAsleep(s, t, s.curr, delay, x, d); }
    case Send(pid, msg) =>
      if Accepts(s, pid) && s.proc[pid].state == PrRectim {
        OthersWakeUp(s, t, pid, x, d);
      } else {
        SteadySleep(s, t, x, d);
      }
    case Kill(pid) =>
      if s.proc[pid].state == PrSleep || s.proc[pid].state == PrRectim { OthersWakeUp(s, t, pid, x, d); }
      else { SteadySleep(s, t, x, d); }
    case Wait(sem) => SteadySleep(s, t, x, d);
    case _ => SteadySleep(s, t, x, d);
  }

  lemma SleepersNoDup(s: Sys)
    requires SysInv(s)
    ensures Typed(s) && NoDup(s.lists[SLEEPQ])
  {
    Basics(s);
  }

  lemma SteadySleep(s: Sys, t: Sys, x: int, d: int)
    requires Typed(s) && Typed(t) && SameSleep(s, t) && Sleeps(s, x, d)
    ensures Sleeps(t, x, d)
  {
    SameDelays(s, t);
  }

  lemma OthersFallAsleep(s: Sys, t: Sys, y: int, delay: int, x: int, d: int)
    requires Typed(s) && Typed(t) && FallsAsleep(s, t, y, delay) && Sleeps(s, x, d)
    ensures Sleeps(t, x, d)
  {
    hide Delays, Parts;
    var e := Delays(s);
    var p :| 0 <= p <= |e| && Delays(t) == e[..p] + [Sleeper(y, delay)] + e[p..];
    var j :| 0 <= j < |e| && e[j] == Sleeper(x, d);
    assert Delays(t)[if j < p then j else j + 1] == Sleeper(x, d);
  }

  lemma OthersWakeUp(s: Sys, t: Sys, y: int, x: int, d: int)
    requires Typed(s) && Typed(t) && WakesUp(s, t, y) && y != x && Sleeps(s, x, d)
    ensures Sleeps(t, x, d)
  {
    hide Delays;
    var e := Delays(s);
    var i :| 0 <= i < |e| && e[i].pid == y && Delays(t) == e[..i] + e[i + 1..];
    var j :| 0 <= j < |e| && e[j] == Sleeper(x, d);
    assert Delays(t)[if j < i then j else j - 1] == Sleeper(x, d);
  }

  lemma TickedSleep(s: Sys, t: Sys, x: int, d: int)
    requires Typed(s) && Typed(t) && ClockDid(s, t) && !s.stalled && Sleeps(s, x, d) && NoDup(s.lists[SLEEPQ])
    ensures if d == 1 then x !in t.lists[SLEEPQ] && Released1(t, x) else d > 1 && Sleeps(t, x, d - 1)
  {
    hide Due;
    var e, l := Delays(s), s.lists[SLEEPQ];
    var j :| 0 <= j < |e| && e[j] == Sleeper(x, d);
    assert l[j] == x && l != [];
    var n := |l| - |t.lists[SLEEPQ]|;
    if d == 1 {
      forall i | 0 <= i < |t.lists[SLEEPQ]|
        ensures t.lists[SLEEPQ][i] != x
      {
        assert t.lists[SLEEPQ][i] == l[n + i];
      }
    } else {
      assert Delays(t)[j - n] == Sleeper(x, d - 1);
    }
  }

  /** The ticks among the steps from `j` to `k`. */
  function Ticks(cs: seq<Call>, j: nat, k: nat): (n: nat)
    requires j <= k <= |cs|
    ensures n <= k - j
  {
    if k == j then 0 else Ticks(cs, j, k - 1) + if cs[k - 1].Clock? then 1 else 0
  }

  /** Nothing disturbs the sleep of `x` in the steps from `j` to `k`, and no tick finds the
      sleepers stalled by a delay of 0. */
  ghost predicate Undisturbed(s: seq<Sys>, cs: seq<Call>, x: int, j: nat, k: nat)
    requires |s| == |cs| + 1 && j <= k <= |cs|
  {
    forall i :: j <= i < k ==> !Disturbs(s[i], cs[i], x) && !(cs[i].Clock? && s[i].stalled)
  }

  /** A sleeper sleeps on, whatever else happens, until as many ticks have come as it had left. */
  lemma {:induction false} SleepsOn(s: seq<Sys>, cs: seq<Call>, sps: seq<seq<int>>, x: int, d: int, j: nat, k: nat)
    requires Run(s, cs, sps) && j <= k <= |cs| && Typed(s[j]) && Sleeps(s[j], x, d)
    requires Undisturbed(s, cs, x, j, k) && Ticks(cs, j, k) < d
    ensures Typed(s[k]) && Sleeps(s[k], x, d - Ticks(cs, j, k))
  {
    hide Step, Sleeps, Disturbs;
    if k > j {
      SleepsOn(s, cs, sps, x, d, j, k - 1);
      assert Step(s[k - 1], cs[k - 1], sps[k - 1], s[k - 1 + 1]);
      StepSleep(s[k - 1], cs[k - 1], sps[k - 1], s[k], x, d - Ticks(cs, j, k - 1));
    }
  }

  /** The caller of sleepms or recvtime in step `j` is asleep until its delay is over, and the
      tick that ends the delay makes it ready or running, unless it is disturbed. */
  lemma WokenInTime(s: seq<Sys>, cs: seq<Call>, sps: seq<seq<int>>, j: nat, k: nat)
    requires Run(s, cs, sps) && j < k < |cs| && |s[j].proc| == NPROC && Pid(s[j].curr)
    requires cs[j].Sleep? || (cs[j].Timed? && !s[j].proc[s[j].curr].hasmsg && cs[j].delay > 0)
    requires Undisturbed(s, cs, s[j].curr, j + 1, k + 1) && Ticks(cs, j + 1, k) < cs[j].delay
    ensures Typed(s[k]) && Sleeps(s[k], s[j].curr, cs[j].delay - Ticks(cs, j + 1, k))
    ensures cs[k].Clock? && Ticks(cs, j + 1, k + 1) == cs[j].delay ==>
              Typed(s[k + 1]) && s[j].curr !in s[k + 1].lists[SLEEPQ] && Released1(s[k + 1], s[j].curr)
  {
    hide Step, Sleeps, Disturbs;
    var x, d := s[j].curr, cs[j].delay;
    assert Step(s[j], cs[j], sps[j], s[j + 1]);
    FallenAsleep(s[j], cs[j], sps[j], s[j + 1]);
    SleepsOn(s, cs, sps, x, d, j + 1, k);
    assert Step(s[k], cs[k], sps[k], s[k + 1]);
    StepSleep(s[k], cs[k], sps[k], s[k + 1], x, d - Ticks(cs, j + 1, k));
  }

  lemma FallenAsleep(s: Sys, c: Call, sp: seq<int>, t: Sys)
    requires Step(s, c, sp, t) && |s.proc| == NPROC && Pid(s.curr)
    requires c.Sleep? || (c.Timed? && !s.proc[s.curr].hasmsg && c.delay > 0)
    ensures Typed(t) && Sleeps(t, s.curr, c.delay)
  {
    hide SysInv, PrioOk, SemStep, OtherStep, Delays, Parts, SameMail, QueuesBut;
    StepDid(s, c, sp, t);
    var e := Delays(s);
    var p :| 0 <= p <= |e| && Delays(t) == e[..p] + [Sleeper(s.curr, c.delay)] + e[p..];
    assert Delays(t)[p] == Sleeper(s.curr, c.delay);
  }
}
