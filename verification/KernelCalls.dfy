/** The calls of the kernel in place, each as a step of a run. */
module KernelCalls {
  import opened Common
  import opened QueueTab
  import opened DeltaList
  import opened KernelSpec
  import opened KernelSteps
  import opened KernelTime
  import opened KernelSched
  import opened KernelEffects
  import opened KernelRuns
  import opened Kernels

  /** What holds before every step. */
  lemma Start(s: Sys, sp: seq<int>)
    requires SysInv(s) && PrioOk(sp)
    ensures Typed(s) && |sp| == NPROC && s.ndefers >= 0
  {
    Basics(s);
  }

  lemma Finish(s: Sys, c: Call, sp: seq<int>, t: Sys)
    requires SysInv(s) && SysInv(t) && PrioOk(sp) && |sp| == NPROC && Typed(s) && s.ndefers >= 0
    requires if OnSem(c) then SemStep(s, c, sp, t) else OtherStep(s, c, sp, t)
    ensures Step(s, c, sp, t)
  {
    Basics(t);
  }

  method Wait(k: Kernel, sem: int) returns (r: int)
    requires k.Valid() && k.currpid != NULLPROC && k.proctab[k.currpid].state == PrCurr
    modifies k
    ensures k.Valid() && k.setprio == old(k.setprio)
    ensures Step(old(k.State()), KernelRuns.Wait(sem), k.setprio, k.State())
  {
    ghost var s := k.State();
    Start(s, k.setprio);
    hide Core, SysInv, PrioOk, TabOk, Done, Step;
    r := k.Wait(sem);
    Finish(s, KernelRuns.Wait(sem), k.setprio, k.State());
  }

  method Signal(k: Kernel, sem: int) returns (r: int)
    requires k.Valid()
    modifies k
    ensures k.Valid() && k.setprio == old(k.setprio)
    ensures Step(old(k.State()), KernelRuns.Signal(sem), k.setprio, k.State())
  {
    ghost var s := k.State();
    Start(s, k.setprio);
    hide Core, SysInv, PrioOk, TabOk, Done, Step;
    r := k.Signal(sem);
    Finish(s, KernelRuns.Signal(sem), k.setprio, k.State());
  }

  method Signaln(k: Kernel, sem: int, count: int) returns (r: int)
    requires k.Valid()
    modifies k
    ensures k.Valid() && k.setprio == old(k.setprio)
    ensures Step(old(k.State()), KernelRuns.Signaln(sem, count), k.setprio, k.State())
  {
    ghost var s := k.State();
    Start(s, k.setprio);
    hide Core, SysInv, PrioOk, TabOk, Done, Step;
    r := k.Signaln(sem, count);
    Finish(s, KernelRuns.Signaln(sem, count), k.setprio, k.State());
  }

  method Semreset(k: Kernel, sem: int, count: int) returns (r: int)
    requires k.Valid()
    modifies k
    ensures k.Valid() && k.setprio == old(k.setprio)
    ensures Step(old(k.State()), KernelRuns.Semreset(sem, count), k.setprio, k.State())
  {
    ghost var s := k.State();
    Start(s, k.setprio);
    hide Core, SysInv, PrioOk, TabOk, Done, Step;
    r := k.Semreset(sem, count);
    Finish(s, KernelRuns.Semreset(sem, count), k.setprio, k.State());
  }

  method Semdelete(k: Kernel, sem: int) returns (r: int)
    requires k.Valid()
    modifies k
    ensures k.Valid() && k.setprio == old(k.setprio)
    ensures Step(old(k.State()), KernelRuns.Semdelete(sem), k.setprio, k.State())
  {
    ghost var s := k.State();
    Start(s, k.setprio);
    hide Core, SysInv, PrioOk, TabOk, Done, Step;
    r := k.Semdelete(sem);
    Finish(s, KernelRuns.Semdelete(sem), k.setprio, k.State());
  }

  method Sleepms(k: Kernel, delay: int) returns (r: int)
    requires k.Valid() && k.currpid != NULLPROC && k.proctab[k.currpid].state == PrCurr && 0 < delay < 0x8000_0000
    modifies k
    ensures k.Valid() && k.setprio == old(k.setprio)
    ensures Step(old(k.State()), KernelRuns.Sleep(delay), k.setprio, k.State())
  {
    ghost var s := k.State();
    Start(s, k.setprio);
    hide Core, SysInv, PrioOk, TabOk, Done, Step;
    r := k.Sleepms(delay);
    Finish(s, KernelRuns.Sleep(delay), k.setprio, k.State());
  }

  method Recvtime(k: Kernel, maxwait: int) returns (r: int)
    requires k.Valid() && k.currpid != NULLPROC && k.proctab[k.currpid].state == PrCurr && 0 <= maxwait < 0x8000_0000
    modifies k
    ensures k.Valid() && k.setprio == old(k.setprio)
    ensures Step(old(k.State()), KernelRuns.Timed(maxwait), k.setprio, k.State())
  {
    ghost var s := k.State();
    Start(s, k.setprio);
    hide Core, SysInv, PrioOk, TabOk, Done, Step;
    r := k.Recvtime(maxwait);
    Finish(s, KernelRuns.Timed(maxwait), k.setprio, k.State());
  }

  method Tick(k: Kernel)
    requires k.Valid()
    modifies k
    ensures k.Valid() && k.setprio == old(k.setprio)
    ensures Step(old(k.State()), KernelRuns.Clock, k.setprio, k.State())
  {
    ghost var s := k.State();
    Start(s, k.setprio);
    hide Core, SysInv, PrioOk, TabOk, Done, Step;
    k.Tick();
    Finish(s, KernelRuns.Clock, k.setprio, k.State());
  }

  method Resched(k: Kernel)
    requires k.Valid()
    modifies k
    ensures k.Valid() && k.setprio == old(k.setprio)
    ensures Step(old(k.State()), KernelRuns.Yield, k.setprio, k.State())
  {
    ghost var s := k.State();
    Start(s, k.setprio);
    hide Core, SysInv, PrioOk, TabOk, Done, Step;
    k.Resched();
    Finish(s, KernelRuns.Yield, k.setprio, k.State());
  }

  method Send(k: Kernel, pid: int, msg: int) returns (r: int)
    requires k.Valid()
    modifies k
    ensures k.Valid() && k.setprio == old(k.setprio)
    ensures Step(old(k.State()), KernelRuns.Send(pid, msg), k.setprio, k.State())
  {
    ghost var s := k.State();
    Start(s, k.setprio);
    hide Core, SysInv, PrioOk, TabOk, Done, Step;
    r := k.Send(pid, msg);
    Finish(s, KernelRuns.Send(pid, msg), k.setprio, k.State());
  }

  method Receive(k: Kernel)
    requires k.Valid() && k.currpid != NULLPROC && k.proctab[k.currpid].state == PrCurr
    modifies k
    ensures k.Valid() && k.setprio == old(k.setprio)
    ensures Step(old(k.State()), KernelRuns.Await, k.setprio, k.State())
  {
    ghost var s := k.State();
    Start(s, k.setprio);
    hide Core, SysInv, PrioOk, TabOk, Done, Step;
    k.Receive();
    Finish(s, KernelRuns.Await, k.setprio, k.State());
  }

  method ReceiveEnd(k: Kernel) returns (msg: int)
    requires k.Valid()
    modifies k
    ensures k.Valid() && k.setprio == old(k.setprio)
    ensures Step(old(k.State()), KernelRuns.Take, k.setprio, k.State())
    // the message that MessageIsLastSent is about
    ensures Pid(k.currpid) && |old(k.proctab)| == NPROC && msg == old(k.proctab)[k.currpid].msg
  {
    ghost var s := k.State();
    Start(s, k.setprio);
    hide Core, SysInv, PrioOk, TabOk, Done, Step;
    msg := k.ReceiveEnd(k.currpid);
    Finish(s, KernelRuns.Take, k.setprio, k.State());
  }

  method RecvtimeEnd(k: Kernel) returns (msg: int)
    requires k.Valid()
    modifies k
    ensures k.Valid() && k.setprio == old(k.setprio)
    ensures Step(old(k.State()), KernelRuns.Take, k.setprio, k.State())
    ensures Pid(k.currpid) && |old(k.proctab)| == NPROC
    ensures msg == if old(k.proctab)[k.currpid].hasmsg then old(k.proctab)[k.currpid].msg else TIMEOUT
  {
    ghost var s := k.State();
    Start(s, k.setprio);
    hide Core, SysInv, PrioOk, TabOk, Done, Step;
    msg := k.RecvtimeEnd(k.currpid);
    Finish(s, KernelRuns.Take, k.setprio, k.State());
  }

  method Suspend(k: Kernel, pid: int) returns (r: int)
    requires k.Valid()
    modifies k
    ensures k.Valid() && k.setprio == old(k.setprio)
    ensures Step(old(k.State()), KernelRuns.Suspend(pid), k.setprio, k.State())
  {
    ghost var s := k.State();
    Start(s, k.setprio);
    hide Core, SysInv, PrioOk, TabOk, Done, Step;
    r := k.Suspend(pid);
    Finish(s, KernelRuns.Suspend(pid), k.setprio, k.State());
  }

  method Resume(k: Kernel, pid: int) returns (r: int)
    requires k.Valid()
    modifies k
    ensures k.Valid() && k.setprio == old(k.setprio)
    ensures Step(old(k.State()), KernelRuns.Resume(pid), k.setprio, k.State())
  {
    ghost var s := k.State();
    Start(s, k.setprio);
    hide Core, SysInv, PrioOk, TabOk, Done, Step;
    r := k.Resume(pid);
    Finish(s, KernelRuns.Resume(pid), k.setprio, k.State());
  }

  method KillEnd(k: Kernel, pid: int)
    requires k.Valid() && Pid(pid) && pid != NULLPROC
    modifies k
    ensures k.Valid() && k.setprio == old(k.setprio)
    ensures Step(old(k.State()), KernelRuns.Kill(pid), k.setprio, k.State())
  {
    ghost var s := k.State();
    Start(s, k.setprio);
    hide Core, SysInv, PrioOk, TabOk, Done, Step;
    k.KillEnd(pid);
    Finish(s, KernelRuns.Kill(pid), k.setprio, k.State());
  }

  /** The first part of kill sends the parent the number of the process. */
  method Kill(k: Kernel, pid: int) returns (r: int, halted: bool)
    requires k.Valid()
    modifies k
    ensures k.Valid() && k.setprio == old(k.setprio)
    ensures if r == SYSERR || halted then k.State() == old(k.State())
            else GoodPid(old(k.State()), pid)
                 && Step(old(k.State()), KernelRuns.Send(old(k.proctab)[pid].parent, pid), k.setprio, k.State())
  {
    ghost var s := k.State();
    Start(s, k.setprio);
    hide Core, SysInv, PrioOk, TabOk, Done, Step, SendDid;
    r, halted := k.Kill(pid);
    if r != SYSERR && !halted { Finish(s, KernelRuns.Send(s.proc[pid].parent, pid), k.setprio, k.State()); }
  }

  /** With a ready list that is not empty and a count that covers it. */
  method SetScheduler(k: Kernel, changed: bool) returns (r: int)
    requires k.Valid() && READYLIST in k.lists && 0 < |k.lists[READYLIST]| <= k.readycount
    modifies k
    ensures k.Valid() && k.setprio == old(k.setprio)
    ensures if changed then Step(old(k.State()), Setsched, k.setprio, k.State()) else k.State() == old(k.State())
  {
    ghost var s := k.State();
    Start(s, k.setprio);
    CoveredAll(s, k.setprio);
    hide Core, SysInv, PrioOk, TabOk, Done, Step, Covered, Rescheduled, Permuted, Resorted;
    r := k.SetScheduler(changed);
    if changed { Finish(s, Setsched, k.setprio, k.State()); }
  }

  method DeferStart(k: Kernel)
    requires k.Valid()
    modifies k
    ensures k.Valid() && k.setprio == old(k.setprio)
    ensures Step(old(k.State()), KernelRuns.Defer, k.setprio, k.State())
  {
    ghost var s := k.State();
    Start(s, k.setprio);
    hide Core, SysInv, PrioOk, TabOk, Done, Step;
    var _ := k.ReschedCntl(DEFER_START);
    Finish(s, KernelRuns.Defer, k.setprio, k.State());
  }

  method DeferStop(k: Kernel) returns (r: int)
    requires k.Valid()
    modifies k
    ensures k.Valid() && k.setprio == old(k.setprio)
    ensures Step(old(k.State()), KernelRuns.Undefer, k.setprio, k.State())
  {
    ghost var s := k.State();
    Start(s, k.setprio);
    hide Core, SysInv, PrioOk, TabOk, Done, Step, Stopped;
    r := k.ReschedCntl(DEFER_STOP);
    Finish(s, KernelRuns.Undefer, k.setprio, k.State());
  }

  method Semcreate(k: Kernel, count: int) returns (r: int)
    requires k.Valid() && k.Cursors()
    modifies k
    ensures k.Valid() && k.Cursors() && k.setprio == old(k.setprio)
    ensures if r == SYSERR then k.State() == old(k.State())
            else Step(old(k.State()), KernelRuns.Semcreate(r, count), k.setprio, k.State())
  {
    ghost var s := k.State();
    Start(s, k.setprio);
    hide Core, SysInv, PrioOk, TabOk, Done, Step;
    r := k.Semcreate(count);
    if r != SYSERR { Finish(s, KernelRuns.Semcreate(r, count), k.setprio, k.State()); }
  }

  method Create(k: Kernel, stack: bool, priority: int) returns (pid: int)
    requires k.Valid() && k.Cursors()
    modifies k
    ensures k.Valid() && k.Cursors() && k.setprio == old(k.setprio)
    ensures if pid == SYSERR then k.State() == old(k.State())
            else Step(old(k.State()), KernelRuns.Create(pid, priority), k.setprio, k.State())
  {
    ghost var s := k.State();
    Start(s, k.setprio);
    hide Core, SysInv, PrioOk, TabOk, Done, Step;
    pid := k.Create(stack, priority);
    if pid != SYSERR { Finish(s, KernelRuns.Create(pid, priority), k.setprio, k.State()); }
  }
}
