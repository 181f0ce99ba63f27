/** What each call leaves behind, said of the queues, delays, messages and counts alone: who
    waits and in which order, who sleeps for how long, and which message is where. */
module KernelEffects {
  import opened Common
  import opened QueueTab
  import opened DeltaList
  import opened KernelSpec
  import opened KernelSteps
  import opened KernelTime
  import opened KernelSched

  /** The sleepers in order, each with the ticks it has left. */
  ghost function Delays(s: Sys): (d: seq<Sleeper>)
    requires Typed(s)
    ensures |d| == |s.lists[SLEEPQ]| && forall i :: 0 <= i < |d| ==> d[i].pid == s.lists[SLEEPQ][i]
  {
    DuePids(s.keys, s.lists[SLEEPQ], 0);
    Due(s.keys, s.lists[SLEEPQ], 0)
  }

  lemma {:induction false} DuePids(keys: Keys, l: seq<int>, base: int)
    requires Keyed(keys, l)
    ensures |Due(keys, l, base)| == |l| && forall i :: 0 <= i < |l| ==> Due(keys, l, base)[i].pid == l[i]
  {
    if l != [] { DuePids(keys, l[1..], base + keys[l[0]]); }
  }

  /** Every queue but `q` and the ready list is as it was. */
  ghost predicate QueuesBut(s: Sys, t: Sys, q: int) {
    forall p :: p in s.lists && p != READYLIST && p != q ==> p in t.lists && t.lists[p] == s.lists[p]
  }

  /** The count of semaphore `sem` moves by `d`, and nothing else of any semaphore. */
  ghost predicate CountsBy(s: Sys, t: Sys, sem: int, d: int) {
    IsSem(sem) && |s.sem| == NSEM && t.sem == s.sem[sem := s.sem[sem].(count := s.sem[sem].count + d)]
  }

  // ---- wait and signal -------------------------------------------------------------------

  /** wait: the count falls, and the caller goes to the end of the queue if it was 0 or less. */
  ghost predicate WaitDid(s: Sys, t: Sys, sem: int)
    requires Typed(s)
  {
    var q := SemQueue(sem);
    && CountsBy(s, t, sem, -1) && SameMail(s, t) && SameSleep(s, t) && QueuesBut(s, t, q)
    && q in s.lists && q in t.lists
    && t.lists[q] == s.lists[q] + (if s.sem[sem].count <= 0 then [s.curr] else [])
  }

  /** signal: the count rises, and the first of the queue leaves it if there is one. */
  ghost predicate SignalDid(s: Sys, t: Sys, sem: int)
    requires Typed(s)
  {
    var q := SemQueue(sem);
    && CountsBy(s, t, sem, 1) && SameMail(s, t) && SameSleep(s, t) && QueuesBut(s, t, q)
    && q in s.lists && q in t.lists
    && if s.lists[q] == [] then t.lists[q] == []
       else t.lists[q] == s.lists[q][1..] && Released1(t, s.lists[q][0])
  }

  ghost predicate Released1(t: Sys, x: int)
    requires Typed(t)
  {
    Pid(x) && (t.proc[x].state == PrReady || t.proc[x].state == PrCurr)
  }

  lemma QueuesThen(s: Sys, u: Sys, t: Sys, q: int)
    requires QueuesBut(s, u, q) && SameQueues(u, t)
    ensures QueuesBut(s, t, q)
  {
  }

  lemma MailThen(s: Sys, u: Sys, t: Sys)
    requires SameMail(s, u) && SameMail(u, t)
    ensures SameMail(s, t)
  {
  }

  lemma SleepThen(s: Sys, u: Sys, t: Sys)
    requires Typed(s) && SameSleep(s, u) && SameSleep(u, t)
    ensures SameSleep(s, t)
  {
  }

  lemma WaitedDid(s: Sys, sem: int)
    requires HasSem(s, sem) && Typed(s)
    ensures WaitDid(s, Waited(s, sem), sem)
  {
    assert forall x :: x in s.lists[SLEEPQ] ==> Pid(x);
  }

  lemma WaitThen(s: Sys, u: Sys, t: Sys, sem: int)
    requires Typed(s) && WaitDid(s, u, sem) && Onward(u, t)
    ensures WaitDid(s, t, sem)
  {
    QueuesThen(s, u, t, SemQueue(sem));
    MailThen(s, u, t);
    SleepThen(s, u, t);
  }

  /** The queue is not empty exactly when the count is below zero. */
  lemma QueueCount(s: Sys, sem: int)
    requires Core(s) && s.resetting == -1 && IsSem(sem)
    ensures Typed(s) && HasSem(s, sem) && Pids(s.lists[SemQueue(sem)])
    ensures s.sem[sem].count < 0 <==> s.lists[SemQueue(sem)] != []
    ensures forall x :: x in s.lists[SemQueue(sem)] ==> x !in s.lists[SLEEPQ] && Pid(x)
  {
    SemNonEmpty(s, sem);
    assert SemOk(s, sem) && Allocated(SemQueue(sem));
    forall x | x in s.lists[SemQueue(sem)]
      ensures x !in s.lists[SLEEPQ] && Pid(x)
    {
      assert AtHome(s, x);
    }
  }

  lemma SignalledDid(s: Sys, sp: seq<int>, sem: int)
    requires Core(s) && s.resetting == -1 && IsSem(sem) && |sp| == NPROC && Typed(s) && HasSem(s, sem)
    requires s.sem[sem].count < 0 ==> s.lists[SemQueue(sem)] != [] && Pid(s.lists[SemQueue(sem)][0])
    ensures SignalDid(s, Signalled(s, sp, sem), sem)
  {
    QueueCount(s, sem);
    hide Core, Made, Onward;
    if s.sem[sem].count < 0 {
      var x, u := s.lists[SemQueue(sem)][0], Popped(s, sem);
      PoppedDid(s, sem);
      MadeKeeps(u, sp, x);
      PoppedThen(s, u, Made(u, sp, x), sem, x);
    } else {
      assert forall y :: y in s.lists[SLEEPQ] ==> Pid(y);
    }
  }

  lemma PoppedDid(s: Sys, sem: int)
    requires Typed(s) && HasSem(s, sem) && s.lists[SemQueue(sem)] != [] && |s.sem| == NSEM
    ensures var u := Popped(s, sem);
            && Typed(u) && CountsBy(s, u, sem, 1) && SameMail(s, u) && SameSleep(s, u) && QueuesBut(s, u, SemQueue(sem))
            && SemQueue(sem) in u.lists && u.lists[SemQueue(sem)] == s.lists[SemQueue(sem)][1..]
  {
    assert forall y :: y in s.lists[SLEEPQ] ==> Pid(y);
  }

  lemma PoppedThen(s: Sys, u: Sys, t: Sys, sem: int, x: int)
    requires Typed(s) && Typed(u) && HasSem(s, sem) && s.lists[SemQueue(sem)] != [] && s.lists[SemQueue(sem)][0] == x
    requires CountsBy(s, u, sem, 1) && SameMail(s, u) && SameSleep(s, u) && QueuesBut(s, u, SemQueue(sem))
    requires SemQueue(sem) in u.lists && u.lists[SemQueue(sem)] == s.lists[SemQueue(sem)][1..]
    requires Onward(u, t) && Pid(x) && t.proc[x].state == PrReady
    ensures SignalDid(s, t, sem)
  {
    QueuesThen(s, u, t, SemQueue(sem));
    MailThen(s, u, t);
    SleepThen(s, u, t);
  }

  lemma SignalThen(s: Sys, u: Sys, t: Sys, sem: int)
    requires Typed(s) && SignalDid(s, u, sem) && Onward(u, t)
    ensures SignalDid(s, t, sem)
  {
    QueuesThen(s, u, t, SemQueue(sem));
    MailThen(s, u, t);
    SleepThen(s, u, t);
  }

  // ---- Sleeping ------------------------------------------------------------------------------

  /** `x` is among the sleepers with `delay` ticks left, behind all that are due by then unless
      a delay of 0 has stalled them, and nobody else's delay has changed. */
  ghost predicate FallsAsleep(s: Sys, t: Sys, x: int, delay: int)
    requires Typed(s) && Typed(t)
  {
    var d := Delays(s);
    exists p :: 0 <= p <= |d| && Delays(t) == d[..p] + [Sleeper(x, delay)] + d[p..]
                && (s.stalled || Parts(d, p, delay))
  }

  /** Those before place `p` are due no later, the others later. */
  ghost predicate Parts(d: seq<Sleeper>, p: int, delay: int) {
    forall i :: 0 <= i < |d| ==> (i < p <==> d[i].due <= delay)
  }

  /** sleepms or recvtime. */
  ghost predicate SleepDid(s: Sys, t: Sys, delay: int)
    requires Typed(s)
  {
    && t.sem == s.sem && SameMail(s, t) && QueuesBut(s, t, SLEEPQ) && Typed(t)
    && FallsAsleep(s, t, s.curr, delay)
  }

  lemma SleptDid(s: Sys, delay: int, st: PrState)
    requires Core(s) && !s.waking && Typed(s) && s.curr !in s.lists[SLEEPQ]
    ensures SleepDid(s, Slept(s, delay, st), delay)
  {
    hide Core, FallsAsleep;
    SleptRest(s, delay, st);
    SleepersOk(s);
    SleptDelays(s, delay, st);
  }

  lemma SleepersOk(s: Sys)
    requires Core(s) && Typed(s)
    ensures NoDup(s.lists[SLEEPQ]) && (!s.stalled ==> NonNegative(s.keys, s.lists[SLEEPQ]))
  {
    assert NoDup(s.lists[SLEEPQ]) by { Basics(s); }
    assert Asleep(s);
  }

  lemma SleptRest(s: Sys, delay: int, st: PrState)
    requires Typed(s)
    ensures var t := Slept(s, delay, st); t.sem == s.sem && SameMail(s, t) && QueuesBut(s, t, SLEEPQ) && Typed(t)
  {
    InsPids(s.lists[SLEEPQ], Passed(s.keys, s.lists[SLEEPQ], delay), s.curr);
    hide InsdKeys, Passed;
  }

  lemma SleptDelays(s: Sys, delay: int, st: PrState)
    requires Typed(s) && s.curr !in s.lists[SLEEPQ] && NoDup(s.lists[SLEEPQ])
    requires (!s.stalled ==> NonNegative(s.keys, s.lists[SLEEPQ])) && Typed(Slept(s, delay, st))
    ensures FallsAsleep(s, Slept(s, delay, st), s.curr, delay)
  {
    hide Due, NoDup, InsdKeys, Passed;
    var l, p := s.lists[SLEEPQ], Passed(s.keys, s.lists[SLEEPQ], delay);
    Inserts(s.keys, l, s.curr, delay, 0);
    if !s.stalled {
      forall i | 0 <= i < |l|
        ensures i < p <==> Due(s.keys, l, 0)[i].due <= delay
      {
        PassedIsSorted(s.keys, l, delay, 0, i);
      }
      assert Parts(Delays(s), p, delay);
    }
    assert Delays(Slept(s, delay, st)) == Delays(s)[..p] + [Sleeper(s.curr, delay)] + Delays(s)[p..];
  }

  lemma SameDelays(u: Sys, t: Sys)
    requires Typed(u) && SameSleep(u, t)
    ensures Delays(t) == Delays(u)
  {
    DueFramed(u.keys, t.keys, u.lists[SLEEPQ], 0);
  }

  lemma SleepThenOn(s: Sys, u: Sys, t: Sys, delay: int)
    requires Typed(s) && SleepDid(s, u, delay) && Onward(u, t)
    ensures SleepDid(s, t, delay)
  {
    hide Delays, Parts;
    QueuesThen(s, u, t, SLEEPQ);
    MailThen(s, u, t);
    SameDelays(u, t);
  }

  /** unsleep: `x` is no longer among the sleepers, and nobody else's delay has changed. */
  ghost predicate WakesUp(s: Sys, t: Sys, x: int)
    requires Typed(s) && Typed(t)
  {
    var d := Delays(s);
    exists i :: 0 <= i < |d| && d[i].pid == x && Delays(t) == d[..i] + d[i + 1..]
  }

  lemma UnsleptDid(s: Sys, pid: int)
    requires Typed(s) && NoDup(s.lists[SLEEPQ]) && pid in s.lists[SLEEPQ]
    ensures Typed(Unslept(s, pid)) && WakesUp(s, Unslept(s, pid), pid)
    ensures SameMail(s, Unslept(s, pid)) && QueuesBut(s, Unslept(s, pid), SLEEPQ) && Unslept(s, pid).sem == s.sem
  {
    var l := s.lists[SLEEPQ];
    var i := IndexOf(l, pid);
    Unsleeps(s.keys, l, i, 0);
    hide Due, NoDup, UnslKeys, IndexOf;
    assert Delays(s)[i].pid == pid;
    assert Delays(Unslept(s, pid)) == Delays(s)[..i] + Delays(s)[i + 1..];
  }

  // ---- Messages ------------------------------------------------------------------------------

  /** The message of `pid` is `msg`, or none, and nobody else's message has changed. */
  ghost predicate MailSet(s: Sys, t: Sys, pid: int, has: bool, msg: int) {
    && |t.proc| == NPROC == |s.proc| && Pid(pid) && t.proc[pid].hasmsg == has && t.proc[pid].msg == msg
    && forall x :: Pid(x) && x != pid ==> t.proc[x].hasmsg == s.proc[x].hasmsg && t.proc[x].msg == s.proc[x].msg
  }

  /** send: the message is there, a receiver that waits with a timeout is no longer among the
      sleepers, and a receiver that waits is ready or running. */
  ghost predicate SendDid(s: Sys, t: Sys, pid: int, msg: int)
    requires Typed(s) && Pid(pid)
  {
    && MailSet(s, t, pid, true, msg) && t.sem == s.sem && QueuesBut(s, t, SLEEPQ) && Typed(t)
    && (if s.proc[pid].state == PrRectim then WakesUp(s, t, pid) else SameSleep(s, t))
    && (s.proc[pid].state == PrRecv || s.proc[pid].state == PrRectim ==> Released1(t, pid))
  }

  lemma MadeKeeps(s: Sys, sp: seq<int>, pid: int)
    requires Typed(s) && |sp| == NPROC && Pid(pid) && pid !in s.lists[SLEEPQ]
    ensures Onward(s, Made(s, sp, pid)) && Made(s, sp, pid).proc[pid].state == PrReady
  {
    MadeOnward(s, sp, pid);
    hide Ahead, Onward;
  }

  lemma SentDid(s: Sys, sp: seq<int>, pid: int, msg: int)
    requires Core(s) && !s.waking && Typed(s) && Pid(pid) && |sp| == NPROC
    requires s.proc[pid].state == PrRectim ==> pid in s.lists[SLEEPQ]
    ensures SendDid(s, Sent(s, sp, pid, msg), pid, msg)
  {
    var m := Messaged(s, pid, true, msg);
    MessagedDid(s, pid, msg);
    if s.proc[pid].state == PrRecv {
      NotAsleep(s, pid);
      hide Core, Made;
      MadeKeeps(m, sp, pid);
      SendThen(s, m, Made(m, sp, pid), pid, msg);
    } else if s.proc[pid].state == PrRectim {
      assert NoDup(s.lists[SLEEPQ]);
      hide Core, Made, Unslept, NoDup;
      UnslTyped(m, pid);
      UnsleptDid(m, pid);
      SentLate(s, m, Unslept(m, pid), sp, pid, msg);
    }
  }

  lemma MessagedDid(s: Sys, pid: int, msg: int)
    requires Typed(s) && Pid(pid)
    ensures var m := Messaged(s, pid, true, msg);
            && Typed(m) && MailSet(s, m, pid, true, msg) && m.sem == s.sem && SameSleep(s, m) && Delays(m) == Delays(s)
            && m.lists == s.lists
  {
    assert forall x :: x in s.lists[SLEEPQ] ==> Pid(x);
  }

  lemma NotAsleep(s: Sys, pid: int)
    requires Core(s) && Typed(s) && Pid(pid) && Home(s.proc[pid]) != SLEEPQ
    ensures pid !in s.lists[SLEEPQ]
  {
    assert AtHome(s, pid) && Allocated(SLEEPQ);
  }

  /** After a message for `pid` comes a step that leaves the messages alone. */
  lemma SendThen(s: Sys, u: Sys, t: Sys, pid: int, msg: int)
    requires Typed(s) && Pid(pid) && s.proc[pid].state == PrRecv && MailSet(s, u, pid, true, msg) && u.sem == s.sem
    requires Typed(u) && SameSleep(s, u) && QueuesBut(s, u, SLEEPQ) && Onward(u, t) && t.proc[pid].state == PrReady
    ensures SendDid(s, t, pid, msg)
  {
    QueuesThen(s, u, t, SLEEPQ);
    SleepThen(s, u, t);
  }

  lemma SentLate(s: Sys, m: Sys, u: Sys, sp: seq<int>, pid: int, msg: int)
    requires Typed(s) && Pid(pid) && s.proc[pid].state == PrRectim && |sp| == NPROC
    requires Typed(m) && MailSet(s, m, pid, true, msg) && m.sem == s.sem && m.lists == s.lists && Delays(m) == Delays(s)
    requires NoDup(m.lists[SLEEPQ]) && Typed(u) && WakesUp(m, u, pid) && SameMail(m, u) && QueuesBut(m, u, SLEEPQ)
    requires u.sem == m.sem
    ensures SendDid(s, Made(u, sp, pid), pid, msg)
  {
    hide Made, Delays;
    assert pid !in u.lists[SLEEPQ] by { Gone(m, u, pid); }
    MadeKeeps(u, sp, pid);
    QueuesThen(m, u, Made(u, sp, pid), SLEEPQ);
    MailThen(m, u, Made(u, sp, pid));
    SameDelays(u, Made(u, sp, pid));
  }

  /** A process that wakes up is not on the sleep queue. */
  lemma Gone(s: Sys, t: Sys, x: int)
    requires Typed(s) && Typed(t) && NoDup(s.lists[SLEEPQ]) && WakesUp(s, t, x)
    ensures x !in t.lists[SLEEPQ]
  {
    var d := Delays(s);
    var i :| 0 <= i < |d| && d[i].pid == x && Delays(t) == d[..i] + d[i + 1..];
    var l, l' := s.lists[SLEEPQ], t.lists[SLEEPQ];
    forall j | 0 <= j < |l'|
      ensures l'[j] != x
    {
      assert Delays(t)[j] == d[if j < i then j else j + 1];
    }
  }

  lemma SendThenOn(s: Sys, u: Sys, t: Sys, pid: int, msg: int)
    requires Typed(s) && Pid(pid) && SendDid(s, u, pid, msg) && Onward(u, t)
    ensures SendDid(s, t, pid, msg)
  {
    hide Delays;
    QueuesThen(s, u, t, SLEEPQ);
    SameDelays(u, t);
    if s.proc[pid].state != PrRectim { SleepThen(s, u, t); }
  }

  // ---- ready -----------------------------------------------------------------------------------

  /** ready: the process has the priority that setprio gives it, and is on the ready list behind
      all whose key is at least that. */
  ghost predicate ReadyDid(s: Sys, t: Sys, sp: seq<int>, pid: int)
    requires Typed(s) && Typed(t) && Pid(pid) && |sp| == NPROC
  {
    var l := s.lists[READYLIST];
    && t.proc == s.proc[pid := s.proc[pid].(state := PrReady, prio := sp[pid])]
    && t.keys == s.keys[pid := sp[pid]] && t.readycount == (s.readycount + 1) % WRAP16
    && t.lists == s.lists[READYLIST := t.lists[READYLIST]]
    && exists p :: 0 <= p <= |l| && t.lists[READYLIST] == l[..p] + [pid] + l[p..] && Yields(s.keys, l, p, sp[pid])
  }

  ghost predicate Yields(keys: Keys, l: seq<int>, p: int, prio: int)
    requires Keyed(keys, l)
  {
    forall i :: 0 <= i < |l| ==> (i < p <==> keys[l[i]] >= prio)
  }

  lemma MadeDid(s: Sys, sp: seq<int>, pid: int)
    requires Typed(s) && Pid(pid) && |sp| == NPROC && Descending(s.keys, s.lists[READYLIST])
    ensures ReadyDid(s, Made(s, sp, pid), sp, pid)
  {
    var l, p := s.lists[READYLIST], Ahead(s.keys, s.lists[READYLIST], sp[pid]);
    assert Yields(s.keys, l, p, sp[pid]) by {
      forall i | 0 <= i < |l|
        ensures i < p <==> s.keys[l[i]] >= sp[pid]
      {
        if p < i { assert s.keys[l[p]] >= s.keys[l[i]]; }
      }
    }
    hide Ahead;
  }

  /** resched gives a new priority to nobody but the process that calls it. */
  lemma DoneKeepsPrio(s: Sys, sp: seq<int>, x: int)
    requires Core(s) && PrioOk(sp) && Typed(s) && Pid(x) && !(x == s.curr && s.proc[x].state == PrCurr)
    ensures |Done(s, sp).proc| == NPROC && Done(s, sp).proc[x].prio == s.proc[x].prio
  {
    hide Core, PrioOk;
    PrioCount(sp);
    if s.ndefers <= 0 {
      if s.proc[s.curr].state != PrCurr { NullIsReady(s); }
      ReschKeepsPrio(s, sp, x);
    }
  }

  lemma ReschKeepsPrio(s: Sys, sp: seq<int>, x: int)
    requires Typed(s) && |sp| == NPROC && Pid(x) && !(x == s.curr && s.proc[x].state == PrCurr)
    requires s.proc[s.curr].state != PrCurr ==> s.lists[READYLIST] != []
    ensures |Resch(s, sp).proc| == NPROC && Resch(s, sp).proc[x].prio == s.proc[x].prio
  {
    hide Ahead;
  }

  /** A process that is neither ready nor running stays so. */
  lemma DoneKeepsState(s: Sys, sp: seq<int>, x: int)
    requires Core(s) && PrioOk(sp) && Typed(s) && Pid(x) && s.proc[x].state != PrReady && s.proc[x].state != PrCurr
    ensures |Done(s, sp).proc| == NPROC && Done(s, sp).proc[x].state == s.proc[x].state
  {
    assert x !in s.lists[READYLIST] by { assert AtHome(s, x) && Allocated(READYLIST); }
    hide Core, PrioOk;
    PrioCount(sp);
    if s.ndefers <= 0 {
      if s.proc[s.curr].state != PrCurr { NullIsReady(s); }
      ReschKeepsState(s, sp, x);
    }
  }

  lemma ReschKeepsState(s: Sys, sp: seq<int>, x: int)
    requires Typed(s) && |sp| == NPROC && Pid(x) && x !in s.lists[READYLIST] && s.proc[x].state != PrCurr
    requires s.proc[s.curr].state != PrCurr ==> s.lists[READYLIST] != []
    ensures |Resch(s, sp).proc| == NPROC && Resch(s, sp).proc[x].state == s.proc[x].state
  {
    hide Ahead;
    if s.proc[s.curr].state == PrCurr {
      var l, p := s.lists[READYLIST], Ahead(s.keys, s.lists[READYLIST], sp[s.curr]);
      InsIn(l, p, s.curr, x);
    }
  }

  lemma KilledIsFree(s: Sys, sp: seq<int>, pid: int)
    requires Typed(s) && Pid(pid) && Endable(s, pid) && Core(Ended(s, pid)) && PrioOk(sp)
    ensures var t := Ended(s, pid); |t.proc| == NPROC && t.proc[pid].state == PrFree
    ensures var t := Done(Ended(s, pid), sp); |t.proc| == NPROC && t.proc[pid].state == PrFree
  {
    CoreTyped(Ended(s, pid));
    assert Ended(s, pid).proc[pid].state == PrFree;
    hide Core, Done, Ended;
    DoneKeepsState(Ended(s, pid), sp, pid);
  }

  lemma MadePrio(s: Sys, sp: seq<int>, pid: int)
    requires Typed(s) && Pid(pid) && PrioOk(sp) && Core(Made(s, sp, pid)) && |sp| == NPROC
    ensures var t := Done(Made(s, sp, pid), sp); |t.proc| == NPROC && t.proc[pid].prio == sp[pid]
  {
    hide Core, Done;
    var u := Made(s, sp, pid);
    assert u.proc[pid].state == PrReady && u.proc[pid].prio == sp[pid] by { hide Ahead; }
    DoneKeepsPrio(u, sp, pid);
  }

  lemma MailIs(s: Sys, t: Sys, pid: int, msg: int)
    requires Typed(s) && Pid(pid) && SendDid(s, t, pid, msg)
    ensures |t.proc| == NPROC && t.proc[pid].hasmsg && t.proc[pid].msg == msg
  {
  }

  // ---- With the switch at the end --------------------------------------------------------------

  lemma WaitEffect(s: Sys, sp: seq<int>, sem: int)
    requires Typed(s) && HasSem(s, sem) && PrioOk(sp) && Core(Waited(s, sem))
    ensures WaitDid(s, if s.sem[sem].count - 1 < 0 then Done(Waited(s, sem), sp) else Waited(s, sem), sem)
  {
    hide Core, Waited, Done, WaitDid, Onward, PrioOk;
    WaitedDid(s, sem);
    assert Typed(Waited(s, sem)) by { WaitTyped(s, sem); }
    if s.sem[sem].count - 1 < 0 {
      DoneOnward(Waited(s, sem), sp);
      WaitThen(s, Waited(s, sem), Done(Waited(s, sem), sp), sem);
    }
  }

  lemma WaitTyped(s: Sys, sem: int)
    requires Typed(s) && HasSem(s, sem)
    ensures Typed(Waited(s, sem))
  {
  }

  lemma SignalEffect(s: Sys, sp: seq<int>, sem: int)
    requires Core(s) && s.resetting == -1 && IsSem(sem) && PrioOk(sp) && |sp| == NPROC && Typed(s) && HasSem(s, sem)
    requires s.sem[sem].count < 0 ==> s.lists[SemQueue(sem)] != [] && Pid(s.lists[SemQueue(sem)][0])
    requires Core(Signalled(s, sp, sem))
    ensures SignalDid(s, if s.sem[sem].count < 0 then Done(Signalled(s, sp, sem), sp) else Signalled(s, sp, sem), sem)
  {
    hide Core, Signalled, Done, SignalDid, Onward, PrioOk;
    SignalledDid(s, sp, sem);
    if s.sem[sem].count < 0 {
      CoreTyped(Signalled(s, sp, sem));
      DoneOnward(Signalled(s, sp, sem), sp);
      SignalThen(s, Signalled(s, sp, sem), Done(Signalled(s, sp, sem), sp), sem);
    }
  }

  lemma CoreTyped(s: Sys)
    requires Core(s)
    ensures Typed(s)
  {
    Basics(s);
  }

  lemma SleepEffect(s: Sys, sp: seq<int>, delay: int, st: PrState)
    requires Core(s) && !s.waking && Typed(s) && s.proc[s.curr].state == PrCurr && PrioOk(sp)
    requires Core(Slept(s, delay, st))
    ensures SleepDid(s, Done(Slept(s, delay, st), sp), delay)
  {
    hide Core, Slept, Done, SleepDid, Onward, PrioOk;
    CurrNotAsleep(s);
    SleptDid(s, delay, st);
    CoreTyped(Slept(s, delay, st));
    DoneOnward(Slept(s, delay, st), sp);
    SleepThenOn(s, Slept(s, delay, st), Done(Slept(s, delay, st), sp), delay);
  }

  lemma SendEffect(s: Sys, sp: seq<int>, pid: int, msg: int)
    requires Core(s) && !s.waking && Typed(s) && Pid(pid) && PrioOk(sp) && |sp| == NPROC
    requires (s.proc[pid].state == PrRectim ==> pid in s.lists[SLEEPQ]) && Core(Sent(s, sp, pid, msg))
    ensures SendDid(s, if s.proc[pid].state == PrRecv || s.proc[pid].state == PrRectim
                       then Done(Sent(s, sp, pid, msg), sp) else Sent(s, sp, pid, msg), pid, msg)
  {
    hide Core, Sent, Done, SendDid, Onward, PrioOk;
    SentDid(s, sp, pid, msg);
    if s.proc[pid].state == PrRecv || s.proc[pid].state == PrRectim {
      CoreTyped(Sent(s, sp, pid, msg));
      DoneOnward(Sent(s, sp, pid, msg), sp);
      SendThenOn(s, Sent(s, sp, pid, msg), Done(Sent(s, sp, pid, msg), sp), pid, msg);
    }
  }

  // ---- Calls that release many -------------------------------------------------------------------

  /** No message arrives or is taken, and the sleepers sleep on. */
  ghost predicate Steady(s: Sys, t: Sys)
    requires Typed(s)
  {
    SameMail(s, t) && SameSleep(s, t)
  }

  lemma SteadyThen(s: Sys, u: Sys, t: Sys)
    requires Typed(s) && Steady(s, u) && Steady(u, t)
    ensures Steady(s, t)
  {
  }

  lemma OnwardSteady(s: Sys, t: Sys)
    requires Typed(s) && Onward(s, t)
    ensures Steady(s, t)
  {
  }

  /** The queue of a semaphore has lost its first members, who are ready or running. */
  ghost predicate QueueShrinks(s: Sys, t: Sys, sem: int)
    requires Typed(s)
  {
    var q := SemQueue(sem);
    && q in s.lists && q in t.lists && Steady(s, t) && QueuesBut(s, t, q)
    && exists n :: 0 <= n <= |s.lists[q]| && t.lists[q] == s.lists[q][n..]
                   && forall i :: 0 <= i < n ==> Released1(t, s.lists[q][i])
  }

  lemma ShrinksThen(s: Sys, u: Sys, t: Sys, sem: int)
    requires Typed(s) && QueueShrinks(s, u, sem) && Onward(u, t) && SemQueue(sem) != READYLIST
    ensures QueueShrinks(s, t, sem)
  {
    hide SameSleep, SameMail;
    SteadyThen(s, u, t);
    QueuesThen(s, u, t, SemQueue(sem));
  }

  lemma {:induction false} ReleasedSteady(s: Sys, sp: seq<int>, sem: int, n: nat)
    requires Core(s) && s.resetting == -1 && IsSem(sem) && PrioOk(sp) && Typed(s)
    ensures Typed(Released(s, sp, sem, n)) && Steady(s, Released(s, sp, sem, n))
  {
    hide Core, Signalled, PrioOk, SignalDid, Steady;
    PrioCount(sp);
    if n == 0 {
      assert Steady(s, s) by { SteadySelf(s); }
    } else {
      var r := Released(s, sp, sem, n - 1);
      ReleasedSteady(s, sp, sem, n - 1);
      SignalledInv(r, sp, sem);
      SignalledDid(r, sp, sem);
      SignalSteady(r, Signalled(r, sp, sem), sem);
      SteadyThen(s, r, Released(s, sp, sem, n));
    }
  }

  lemma SteadySelf(s: Sys)
    requires Typed(s)
    ensures Steady(s, s)
  {
    assert forall x :: x in s.lists[SLEEPQ] ==> Pid(x);
  }

  lemma SignalSteady(r: Sys, t: Sys, sem: int)
    requires Typed(r) && SignalDid(r, t, sem)
    ensures Typed(t) && Steady(r, t) && Steady(r, t.(attempt := true)) && Typed(t.(attempt := true))
  {
  }

  /** signaln, semreset and semdelete on the queue. */
  lemma ReleasedShrinks(s: Sys, sp: seq<int>, sem: int, n: nat)
    requires Core(s) && s.resetting == -1 && IsSem(sem) && PrioOk(sp) && Typed(s)
    ensures QueueShrinks(s, Released(s, sp, sem, n), sem)
  {
    hide Core, Released, PrioOk, Steady;
    ReleasesInOrder(s, sp, sem, n);
    ReleasedSteady(s, sp, sem, n);
    AllAllocated(s);
    AllShrinks(s, Released(s, sp, sem, n), sem, n);
  }

  lemma AllShrinks(s: Sys, t: Sys, sem: int, n: nat)
    requires Typed(s) && Typed(t) && AllReleased(s, t, sem, n) && Steady(s, t)
    requires forall q :: q in s.lists ==> Allocated(q)
    ensures QueueShrinks(s, t, sem)
  {
    hide Steady;
    var l, m := s.lists[SemQueue(sem)], Min(n, |s.lists[SemQueue(sem)]|);
    assert t.lists[SemQueue(sem)] == l[m..];
    forall i | 0 <= i < m
      ensures Released1(t, l[i])
    {
      assert l[i] in l;
    }
  }

  lemma DrainOneSteady(s: Sys, sp: seq<int>, sem: int)
    requires Core(s) && IsSem(sem) && HasSem(s, sem) && s.lists[SemQueue(sem)] != [] && |sp| == NPROC && Typed(s)
    requires Pid(s.lists[SemQueue(sem)][0])
    ensures Typed(DrainOne(s, sp, sem)) && Steady(s, DrainOne(s, sp, sem))
  {
    var x := s.lists[SemQueue(sem)][0];
    WaiterAwake(s, sem, x);
    hide Core, Made, Onward, Steady;
    var u := DropAt(s, SemQueue(sem), 0);
    assert Typed(u) && Steady(s, u) by { DropSteady(s, SemQueue(sem)); }
    MadeKeeps(u, sp, x);
    AttemptSteady(s, u, Made(u, sp, x));
  }

  lemma DropSteady(s: Sys, q: int)
    requires Typed(s) && q in s.lists && s.lists[q] != [] && q != SLEEPQ && q != READYLIST
    ensures Typed(DropAt(s, q, 0)) && Steady(s, DropAt(s, q, 0))
  {
    assert forall y :: y in s.lists[SLEEPQ] ==> Pid(y);
  }

  lemma AttemptSteady(s: Sys, u: Sys, t: Sys)
    requires Typed(s) && Typed(u) && Steady(s, u) && Onward(u, t)
    ensures Typed(t.(attempt := true)) && Steady(s, t.(attempt := true))
  {
  }

  lemma WaiterAwake(s: Sys, sem: int, x: int)
    requires Core(s) && IsSem(sem) && HasSem(s, sem) && x in s.lists[SemQueue(sem)] && Typed(s)
    ensures x !in s.lists[SLEEPQ]
  {
    assert Allocated(SemQueue(sem)) && Allocated(SLEEPQ) && AtHome(s, x);
  }

  lemma {:induction false} DrainedSteady(s: Sys, sp: seq<int>, sem: int, n: nat)
    requires Core(s) && s.resetting == sem && IsSem(sem)
    requires PrioOk(sp) && HasSem(s, sem) && n <= |s.lists[SemQueue(sem)]| && Typed(s)
    ensures Typed(Drained(s, sp, sem, n)) && Steady(s, Drained(s, sp, sem, n))
  {
    hide Core, DrainOne, DrainDoes, PrioOk, Steady, HasSem;
    if n == 0 {
      SteadySelf(s);
    } else {
      var r := Drained(s, sp, sem, n - 1);
      DrainedSteady(s, sp, sem, n - 1);
      DrainMore(s, r, sp, sem, n - 1);
      DrainOneSteady(r, sp, sem);
      SteadyThen(s, r, DrainOne(r, sp, sem));
    }
  }

  lemma EmptiedShrinks(s: Sys, sp: seq<int>, sem: int, count: int)
    requires SysInv(s) && IsSem(sem) && PrioOk(sp) && count >= 0 && s.ndefers > 0 && Typed(s)
    ensures QueueShrinks(s, Emptied(s, sp, sem, count), sem)
  {
    var r, t := s.(resetting := sem), Emptied(s, sp, sem, count);
    ResettingInv(s, sem);
    hide Core, Steady, PrioOk;
    AllAllocated(s);
    var d := Drained(r, sp, sem, |r.lists[SemQueue(sem)]|);
    DrainedSteady(r, sp, sem, |r.lists[SemQueue(sem)]|);
    EmptiedFrom(s, r, d, t, sem);
  }

  lemma AllAllocated(s: Sys)
    requires Core(s)
    ensures forall q :: q in s.lists ==> Allocated(q)
  {
  }

  lemma EmptiedFrom(s: Sys, r: Sys, d: Sys, t: Sys, sem: int)
    requires Typed(s) && r == s.(resetting := sem) && Typed(d) && Steady(r, d) && HasSem(s, sem)
    requires DrainDoes(r, d, sem, |r.lists[SemQueue(sem)]|) && t == d.(sem := t.sem, resetting := t.resetting)
    requires forall q :: q in s.lists ==> Allocated(q)
    ensures QueueShrinks(s, t, sem)
  {
    var l := s.lists[SemQueue(sem)];
    assert t.lists[SemQueue(sem)] == l[|l|..];
  }

  lemma DeletedShrinks(s: Sys, sp: seq<int>, sem: int)
    requires SysInv(s) && IsSem(sem) && PrioOk(sp) && s.ndefers > 0 && Typed(s)
    ensures QueueShrinks(s, Deleted(s, sp, sem), sem)
  {
    hide Core, AllReleased, PrioOk, Released, QueueShrinks;
    FreedInv(s, sem);
    var u, k := Freed(s, sem), Max(0, -s.sem[sem].count);
    assert Typed(u);
    ReleasedShrinks(u, sp, sem, k);
    FreedShrinks(s, Released(u, sp, sem, k), Deleted(s, sp, sem), sem);
  }

  lemma FreedShrinks(s: Sys, r: Sys, t: Sys, sem: int)
    requires Typed(s) && IsSem(sem) && |s.sem| == NSEM && Typed(Freed(s, sem)) && QueueShrinks(Freed(s, sem), r, sem)
    requires t == r.(sem := t.sem)
    ensures QueueShrinks(s, t, sem)
  {
  }

  /** signaln: the count rises by `n` and the first `n` of the queue, or all, leave it. */
  ghost predicate ReleaseDid(s: Sys, t: Sys, sem: int, n: nat)
    requires Typed(s)
  {
    var q := SemQueue(sem);
    && CountsBy(s, t, sem, n) && QueueShrinks(s, t, sem) && q in s.lists && q in t.lists
    && t.lists[q] == if n <= |s.lists[q]| then s.lists[q][n..] else []
  }

  lemma SignalnEffect(s: Sys, sp: seq<int>, sem: int, n: nat)
    requires SysInv(s) && PrioOk(sp) && Typed(s) && IsSem(sem) && |s.sem| == NSEM
    requires SysInv(Started(s)) && SysInv(Released(Started(s), sp, sem, n)) && s.ndefers >= 0
    ensures ReleaseDid(s, Stopped(Released(Started(s), sp, sem, n), sp), sem, n)
  {
    hide Core, SysInv, PrioOk, Released, QueueShrinks, Onward;
    var u := Started(s);
    RunsNow(u);
    var v := Released(u, sp, sem, n);
    RunsNow(v);
    ReleasesInOrder(u, sp, sem, n);
    ReleasedShrinks(u, sp, sem, n);
    assert QueueShrinks(s, v, sem) by { StartShrinks(s, v, sem); }
    StoppedOnward(v, sp);
    ShrinksThen(s, v, Stopped(v, sp), sem);
    KeptQueue(v, Stopped(v, sp), SemQueue(sem));
  }

  lemma StartShrinks(s: Sys, v: Sys, sem: int)
    requires Typed(s) && Typed(v) && QueueShrinks(Started(s), v, sem)
    ensures QueueShrinks(s, v, sem)
  {
  }

  lemma KeptQueue(u: Sys, t: Sys, q: int)
    requires Typed(u) && Onward(u, t) && q in u.lists && q != READYLIST
    ensures q in t.lists && t.lists[q] == u.lists[q] && t.sem == u.sem
  {
  }

  lemma SemresetEffect(s: Sys, sp: seq<int>, sem: int, count: int)
    requires SysInv(s) && PrioOk(sp) && Typed(s) && IsSem(sem) && |s.sem| == NSEM && count >= 0 && s.ndefers >= 0
    requires SysInv(Started(s))
    ensures var t := Stopped(Emptied(Started(s), sp, sem, count), sp);
            && t.sem == s.sem[sem := s.sem[sem].(count := count)]
            && SemQueue(sem) in t.lists && t.lists[SemQueue(sem)] == []
  {
    hide Core, SysInv, PrioOk, Onward, DrainDoes;
    var v := Emptied(Started(s), sp, sem, count);
    RunsNow(v);
    StoppedOnward(v, sp);
    KeptQueue(v, Stopped(v, sp), SemQueue(sem));
  }

  lemma DeletedIs(s: Sys, t: Sys, sem: int)
    requires IsSem(sem) && |s.sem| == NSEM == |t.sem|
    requires AllReleased(Freed(s, sem), AddCount(t, sem, -1), sem, Max(0, -s.sem[sem].count))
    ensures !t.sem[sem].used && SemQueue(sem) in t.lists && t.lists[SemQueue(sem)] == []
    ensures forall i :: IsSem(i) && i != sem ==> t.sem[i] == s.sem[i]
  {
    var u := AddCount(t, sem, -1);
    assert u.sem[sem].used == t.sem[sem].used;
    assert forall i :: IsSem(i) && i != sem ==> u.sem[i] == t.sem[i];
  }

  lemma SemdeleteEffect(s: Sys, sp: seq<int>, sem: int)
    requires SysInv(s) && PrioOk(sp) && Typed(s) && IsSem(sem) && |s.sem| == NSEM && s.ndefers >= 0
    requires SysInv(Started(s))
    ensures var t := Stopped(Deleted(Started(s), sp, sem), sp);
            && |t.sem| == NSEM && !t.sem[sem].used && SemQueue(sem) in t.lists && t.lists[SemQueue(sem)] == []
            && forall i :: IsSem(i) && i != sem ==> t.sem[i] == s.sem[i]
  {
    hide Core, SysInv, PrioOk, Onward, Released, AllReleased, Deleted;
    var v := Deleted(Started(s), sp, sem);
    RunsNow(v);
    DeletedIs(Started(s), v, sem);
    StoppedOnward(v, sp);
    KeptQueue(v, Stopped(v, sp), SemQueue(sem));
  }

  // ---- The clock -----------------------------------------------------------------------------------

  /** A tick moves no message and no queue but that of the sleepers. */
  ghost predicate ClockDid(s: Sys, t: Sys)
    requires Typed(s)
  {
    && SameMail(s, t) && QueuesBut(s, t, SLEEPQ) && t.sem == s.sem && Typed(t)
    && if s.lists[SLEEPQ] == [] then t == s else !s.stalled ==> TickDid(s, t)
  }

  ghost predicate ApartFromSleep(s: Sys, t: Sys) { SameMail(s, t) && QueuesBut(s, t, SLEEPQ) && t.sem == s.sem }

  lemma ApartThen(s: Sys, u: Sys, t: Sys)
    requires ApartFromSleep(s, u) && ApartFromSleep(u, t)
    ensures ApartFromSleep(s, t)
  {
  }

  lemma OnwardApart(s: Sys, t: Sys)
    requires Typed(s) && Onward(s, t)
    ensures ApartFromSleep(s, t)
  {
  }

  lemma WokeOneApart(s: Sys, sp: seq<int>)
    requires Typed(s) && s.lists[SLEEPQ] != [] && |sp| == NPROC
    ensures ApartFromSleep(s, WokeOne(s, sp))
  {
    hide Ahead;
  }

  lemma {:induction false} WokenApart(s: Sys, sp: seq<int>, n: nat)
    requires Typed(s) && |sp| == NPROC && n <= |s.lists[SLEEPQ]|
    ensures ApartFromSleep(s, Woken(s, sp, n))
  {
    hide ApartFromSleep, WokeOne;
    if n == 0 {
      assert ApartFromSleep(s, s) by { ApartSelf(s); }
    } else {
      WokenApart(s, sp, n - 1);
      WokeOneApart(Woken(s, sp, n - 1), sp);
      ApartThen(s, Woken(s, sp, n - 1), Woken(s, sp, n));
    }
  }

  lemma ApartSelf(s: Sys)
    requires Typed(s)
    ensures ApartFromSleep(s, s)
  {
  }

  lemma ClockEffect(s: Sys, sp: seq<int>)
    requires SysInv(s) && PrioOk(sp) && Typed(s)
    ensures ClockDid(s, AfterTick(s, sp))
  {
    hide Core, SysInv, ApartFromSleep, TickDid, Woken, Onward, PrioOk, Woke;
    if s.lists[SLEEPQ] != [] {
      RunsNow(s);
      if !s.stalled { TickWakesDue(s, sp); }
      TickedInv(s);
      var u, v := Ticked(s), Started(Ticked(s));
      assert ApartFromSleep(s, u) && ApartFromSleep(s, v) by { TickedApart(s); }
      AfterTyped(s, sp);
      if u.waking {
        Recount(u, v);
        WokeApart(v, sp);
        ApartThen(s, v, Woke(v, sp));
        RunsNow(Woke(v, sp));
        StoppedOnward(Woke(v, sp), sp);
        OnwardApart(Woke(v, sp), Stopped(Woke(v, sp), sp));
        ApartThen(s, Woke(v, sp), Stopped(Woke(v, sp), sp));
      }
      ClockFrom(s, AfterTick(s, sp));
    } else {
      AfterTyped(s, sp);
      ClockIdle(s);
    }
  }

  lemma ClockFrom(s: Sys, t: Sys)
    requires Typed(s) && s.lists[SLEEPQ] != [] && ApartFromSleep(s, t) && Typed(t) && (!s.stalled ==> TickDid(s, t))
    ensures ClockDid(s, t)
  {
    hide TickDid;
  }

  lemma ClockIdle(s: Sys)
    requires Typed(s) && s.lists[SLEEPQ] == []
    ensures ClockDid(s, s)
  {
  }

  lemma TickedApart(s: Sys)
    requires Typed(s) && s.lists[SLEEPQ] != []
    ensures ApartFromSleep(s, Ticked(s)) && ApartFromSleep(s, Started(Ticked(s)))
  {
  }

  lemma AfterTyped(s: Sys, sp: seq<int>)
    requires SysInv(s) && PrioOk(sp)
    ensures Typed(AfterTick(s, sp))
  {
    hide SysInv;
    RunsNow(AfterTick(s, sp));
  }

  lemma WokeApart(v: Sys, sp: seq<int>)
    requires Core(v) && v.waking && PrioOk(sp) && Typed(v) && v.resetting == -1
    requires v.ndefers > 0 && (v.proc[v.curr].state == PrCurr || v.attempt)
    ensures ApartFromSleep(v, Woke(v, sp))
  {
    hide Core;
    PrioCount(sp);
    WokenApart(v, sp, Expired(v.keys, v.lists[SLEEPQ]));
  }

  // ---- kill ----------------------------------------------------------------------------------------

  /** The end of kill: the process leaves the sleepers if it slept and a queue if it waited. */
  ghost predicate KillDid(s: Sys, t: Sys, pid: int)
    requires Typed(s) && Pid(pid)
  {
    && SameMail(s, t) && Typed(t)
    && (if s.proc[pid].state == PrSleep || s.proc[pid].state == PrRectim then WakesUp(s, t, pid) else SameSleep(s, t))
    && (s.proc[pid].state != PrWait ==> t.sem == s.sem && QueuesBut(s, t, SLEEPQ))
    && (s.proc[pid].state == PrWait ==> QueuesBut(s, t, SemQueue(s.proc[pid].sem)))
  }

  lemma EndedDid(s: Sys, pid: int)
    requires Typed(s) && Pid(pid) && Endable(s, pid) && NoDup(s.lists[SLEEPQ])
    requires s.proc[pid].state == PrWait ==> IsSem(s.proc[pid].sem)
    ensures KillDid(s, Ended(s, pid), pid)
  {
    hide KillDid, Unslept, Unwaited, Unready, NoDup, Calm;
    match s.proc[pid].state
    case PrSleep => EndedAsleep(s, pid);
    case PrRectim => EndedAsleep(s, pid);
    case PrWait => EndedWaiting(s, pid);
    case PrReady =>
      UnreadyCalm(s, pid, PrFree);
      CalmKill(s, Ended(s, pid), pid);
    case _ =>
      ParkedCalm(s, pid, PrFree);
      CalmKill(s, Ended(s, pid), pid);
  }

  lemma CalmKill(s: Sys, t: Sys, pid: int)
    requires Typed(s) && Pid(pid) && Calm(s, t)
    requires s.proc[pid].state != PrSleep && s.proc[pid].state != PrRectim && s.proc[pid].state != PrWait
    ensures KillDid(s, t, pid)
  {
  }

  lemma EndedAsleep(s: Sys, pid: int)
    requires Typed(s) && Pid(pid) && NoDup(s.lists[SLEEPQ]) && pid in s.lists[SLEEPQ]
    requires s.proc[pid].state == PrSleep || s.proc[pid].state == PrRectim
    ensures KillDid(s, SetState(Unslept(s, pid), pid, PrFree), pid)
  {
    hide Unslept, Delays, NoDup;
    UnsleptDid(s, pid);
    ParkedDelays(Unslept(s, pid), pid);
  }

  lemma EndedWaiting(s: Sys, pid: int)
    requires Typed(s) && Pid(pid) && s.proc[pid].state == PrWait && IsSem(s.proc[pid].sem)
    requires HasSem(s, s.proc[pid].sem) && pid in s.lists[SemQueue(s.proc[pid].sem)]
    ensures KillDid(s, SetState(Unwaited(s, pid), pid, PrFree), pid)
  {
    assert forall x :: x in s.lists[SLEEPQ] ==> Pid(x);
  }

  lemma ParkedDelays(u: Sys, pid: int)
    requires Typed(u) && Pid(pid)
    ensures Typed(SetState(u, pid, PrFree)) && Delays(SetState(u, pid, PrFree)) == Delays(u)
    ensures SameMail(u, SetState(u, pid, PrFree))
  {
  }

  lemma KillThen(s: Sys, u: Sys, t: Sys, pid: int)
    requires Typed(s) && Pid(pid) && KillDid(s, u, pid) && Onward(u, t)
    ensures KillDid(s, t, pid)
  {
    hide Delays;
    MailThen(s, u, t);
    SameDelays(u, t);
    if s.proc[pid].state != PrWait {
      QueuesThen(s, u, t, SLEEPQ);
    } else {
      QueuesThen(s, u, t, SemQueue(s.proc[pid].sem));
    }
    if !(s.proc[pid].state == PrSleep || s.proc[pid].state == PrRectim) { SleepThen(s, u, t); }
  }

  // ---- Calls that touch none of these ---------------------------------------------------------------

  /** Queues but the ready list, semaphores, sleepers and messages are as they were. */
  ghost predicate Calm(s: Sys, t: Sys)
    requires Typed(s)
  {
    Steady(s, t) && SameQueues(s, t)
  }

  lemma OnwardCalm(s: Sys, t: Sys)
    requires Typed(s) && Onward(s, t)
    ensures Calm(s, t)
  {
  }

  lemma CalmThen(s: Sys, u: Sys, t: Sys)
    requires Typed(s) && Calm(s, u) && Onward(u, t)
    ensures Calm(s, t)
  {
  }

  lemma ParkedCalm(s: Sys, pid: int, st: PrState)
    requires Typed(s) && Pid(pid)
    ensures Typed(SetState(s, pid, st)) && Calm(s, SetState(s, pid, st))
  {
    assert forall x :: x in s.lists[SLEEPQ] ==> Pid(x);
  }

  lemma UnreadyCalm(s: Sys, pid: int, st: PrState)
    requires Typed(s) && Pid(pid) && pid in s.lists[READYLIST]
    ensures Typed(SetState(Unready(s, pid), pid, st)) && Calm(s, SetState(Unready(s, pid), pid, st))
  {
    assert forall x :: x in s.lists[SLEEPQ] ==> Pid(x);
  }

  lemma RescheduledCalm(s: Sys, sp: seq<int>)
    requires Core(s) && Typed(s) && |sp| == NPROC && PrioOk(sp)
    ensures Typed(Rescheduled(s, sp)) && Calm(s, Rescheduled(s, sp))
  {
    ReadyNotSleeping(s);
    RescheduledPermutes(s, sp);
    hide Core, Resort;
  }

  lemma ReadyNotSleeping(s: Sys)
    requires Core(s) && Typed(s)
    ensures Shape(s) && forall x :: x in s.lists[SLEEPQ] ==> Pid(x) && x !in s.lists[READYLIST]
  {
    forall x | x in s.lists[SLEEPQ]
      ensures Pid(x) && x !in s.lists[READYLIST]
    {
      assert AtHome(s, x) && Allocated(SLEEPQ) && Allocated(READYLIST);
    }
  }
}
