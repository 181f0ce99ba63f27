/** How far readycount can drift from the length of the ready list. */
module KernelCount {
  import opened Common
  import opened QueueTab
  import opened DeltaList
  import opened KernelSpec
  import opened KernelSteps
  import opened KernelTime
  import opened KernelSched
  import opened Kernels

  /** A ready process is suspended and resumed while rescheduling is deferred. */
  function Paired(s: Sys, sp: seq<int>, pid: int): Sys
    requires Typed(s) && Pid(pid) && pid in s.lists[READYLIST] && |sp| == NPROC
  {
    Made(SetState(Unready(s, pid), pid, PrSusp), sp, pid).(attempt := true)
  }

  /** The process can be suspended, and the null process cannot. */
  ghost predicate Pausable(s: Sys, sp: seq<int>, pid: int) {
    SysInv(s) && PrioOk(sp) && s.ndefers > 0 && Pid(pid) && pid != NULLPROC && s.proc[pid].state == PrReady
  }

  /** It is ready again, but the count is one higher than before. */
  lemma PairedInv(s: Sys, sp: seq<int>, pid: int)
    requires Pausable(s, sp, pid)
    ensures Typed(s) && pid in s.lists[READYLIST] && |sp| == NPROC
    ensures var t := Paired(s, sp, pid);
            && Pausable(t, sp, pid) && READYLIST in t.lists && |t.lists[READYLIST]| == |s.lists[READYLIST]|
            && t.leaked == s.leaked + 1
  {
    UnreadyInv(s, pid);
    var u := Unready(s, pid);
    ParkedInv(u, pid, PrSusp);
    var v := SetState(u, pid, PrSusp);
    PausedFacts(s, sp, pid);
    hide Core, CoreBut, Unready, PrioOk;
    OnNoListAgain(v, pid);
    MadeCore(v, sp, pid);
    DeferredInv(Made(v, sp, pid), true);
  }

  lemma OnNoListAgain(s: Sys, pid: int)
    requires Core(s) && Pid(pid) && |s.proc| == NPROC && s.proc[pid].state == PrSusp
    ensures CoreBut(s, pid)
  {
    OnNoList(s, pid);
  }

  lemma PausedFacts(s: Sys, sp: seq<int>, pid: int)
    requires Typed(s) && Pid(pid) && pid in s.lists[READYLIST] && |sp| == NPROC
    ensures var v, t := SetState(Unready(s, pid), pid, PrSusp), Paired(s, sp, pid);
            && Typed(v) && v.proc[pid].state == PrSusp && t.proc[pid].state == PrReady && t.ndefers == s.ndefers
            && t.curr == s.curr && (pid != s.curr ==> t.proc[s.curr] == s.proc[s.curr])
            && t.waking == s.waking && t.resetting == s.resetting && t.attempt && READYLIST in t.lists
            && |t.lists[READYLIST]| == |s.lists[READYLIST]| && t.leaked == s.leaked + 1
  {
    hide Ahead;
  }

  /** The same `k` times. */
  ghost function Pairs(s: Sys, sp: seq<int>, pid: int, k: nat): (t: Sys)
    requires Pausable(s, sp, pid)
    ensures Pausable(t, sp, pid) && t.leaked == s.leaked + k
    ensures READYLIST in s.lists && READYLIST in t.lists && |t.lists[READYLIST]| == |s.lists[READYLIST]| > 0
  {
    PairedInv(s, sp, pid);
    if k == 0 then s
    else
      var r := Pairs(s, sp, pid, k - 1);
      PairedInv(r, sp, pid);
      Paired(r, sp, pid)
  }

  lemma CountIs(s: Sys)
    requires SysInv(s) && READYLIST in s.lists
    ensures s.readycount == (|s.lists[READYLIST]| + s.leaked) % WRAP16
  {
  }

  /** The count takes every 16-bit value while the ready list keeps its length: 0, for which
      set_scheduler leaves the ready list linked to the scratch list, and values below the
      length, for which it loses processes. */
  lemma CountTakesEveryValue(s: Sys, sp: seq<int>, pid: int, value: nat) returns (k: nat)
    requires Pausable(s, sp, pid) && value < WRAP16
    ensures var t := Pairs(s, sp, pid, k);
            SysInv(t) && t.readycount == value && |t.lists[READYLIST]| == |s.lists[READYLIST]|
  {
    hide Pausable, SysInv;
    k := 0;
    var n := |Pairs(s, sp, pid, 0).lists[READYLIST]| + s.leaked;
    k := (value - n) % WRAP16;
    var t := Pairs(s, sp, pid, k);
    assert SysInv(t) by { PausableRuns(t, sp, pid); }
    CountIs(t);
    assert (n + (value - n) % WRAP16) % WRAP16 == value;
  }

  lemma PausableRuns(s: Sys, sp: seq<int>, pid: int)
    requires Pausable(s, sp, pid)
    ensures SysInv(s)
  {
  }

  // ---- From initialisation -------------------------------------------------------------------

  /** resume of the only process there is beside the null process. */
  lemma FirstResumed(s: Sys, sp: seq<int>, pid: int)
    requires Core(s) && PrioOk(sp) && s.ndefers > 0 && Pid(pid) && Typed(s) && s.lists[READYLIST] == []
    requires Core(Made(s, sp, pid))
    ensures var t := Done(Made(s, sp, pid), sp);
            && t == Made(s, sp, pid).(attempt := true) && Typed(t) && t.ndefers > 0
            && t.proc[pid].state == PrReady && t.lists[READYLIST] == [pid] && t.leaked == s.leaked
  {
  }

  /** suspend and then resume, while rescheduling is deferred. */
  method SuspendResume(k: Kernel, pid: int)
    requires k.Valid() && Pausable(k.State(), k.setprio, pid)
    modifies k`queuetab, k`lists, k`proctab, k`currpid, k`readycount, k`attempt, k`preempt, k`leaked
    ensures k.Valid() && Typed(old(k.State())) && pid in old(k.lists)[READYLIST] && |k.setprio| == NPROC
    ensures k.State() == Paired(old(k.State()), k.setprio, pid)
  {
    hide Core, Done, Made, Unready, SysInv, PrioOk;
    ghost var s := k.State();
    PairedInv(s, k.setprio, pid);
    PausedFacts(s, k.setprio, pid);
    var _ := k.Suspend(pid);
    ghost var v := k.State();
    assert v.ndefers == s.ndefers && k.proctab[pid].state == PrSusp;
    var _ := k.Resume(pid);
    DoneDeferred(Made(v, k.setprio, pid), k.setprio);
  }

  lemma DoneDeferred(s: Sys, sp: seq<int>)
    requires Core(s) && PrioOk(sp) && s.ndefers > 0
    ensures Done(s, sp) == s.(attempt := true)
  {
  }

  /** After initialisation a process is created and, with rescheduling deferred, resumed. */
  method Begun(prios: seq<int>) returns (k: Kernel, pid: int)
    requires PrioOk(prios)
    ensures fresh(k) && k.Valid() && k.setprio == prios && Pausable(k.State(), prios, pid)
    ensures READYLIST in k.lists && |k.lists[READYLIST]| == 1 && k.leaked == 0
  {
    hide SysInv, Core, PrioOk, Pausable, Done, Made, TabOk;
    k := new Kernel.Sysinit(prios);
    assert Pid(1);
    pid := k.Create(true, 20);
    assert pid != SYSERR && pid != NULLPROC && k.proctab[pid].state == PrSusp;
    var _ := k.ReschedCntl(DEFER_START);
    ghost var s := k.State();
    RunsNow(s);
    var _ := k.Resume(pid);
    FirstResumed(s, prios, pid);
    PausableNow(k.State(), prios, pid);
  }

  /** Every value of the count is reached from initialisation by a run of calls: the process is
      suspended and resumed again and again. */
  method CountReaches(prios: seq<int>, value: int) returns (k: Kernel)
    requires PrioOk(prios) && 0 <= value < WRAP16
    ensures fresh(k) && k.Valid() && k.setprio == prios && k.readycount == value
    ensures READYLIST in k.lists && |k.lists[READYLIST]| == 1
  {
    hide SysInv, Core, PrioOk, Pausable, Paired;
    var pid;
    k, pid := Begun(prios);
    for i := 0 to (value - 1) % WRAP16
      invariant k.Valid() && k.setprio == prios && Pausable(k.State(), prios, pid)
      invariant READYLIST in k.lists && |k.lists[READYLIST]| == 1 && k.leaked == i
    {
      PairedInv(k.State(), prios, pid);
      SuspendResume(k, pid);
    }
    CountIs(k.State());
  }

  lemma PausableNow(s: Sys, sp: seq<int>, pid: int)
    requires SysInv(s) && PrioOk(sp) && s.ndefers > 0 && Pid(pid) && pid != NULLPROC
    requires |s.proc| == NPROC && s.proc[pid].state == PrReady
    ensures Pausable(s, sp, pid)
  {
  }

  /** So calls that are all allowed lead to a change of the scheduler that breaks the queues. */
  method SchedulerBreaks(prios: seq<int>) returns (k: Kernel)
    requires PrioOk(prios)
    ensures fresh(k) && Crossed(k.queuetab, SCRATCH, READYLIST) && !k.Valid()
  {
    hide SysInv, Core, PrioOk, Crossed, TabOk, Covered, Permuted, Resorted;
    k := CountReaches(prios, 0);
    var _ := k.SetScheduler(true);
  }
}
