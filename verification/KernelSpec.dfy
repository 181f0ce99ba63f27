/** Processes, semaphores and queues as values: what each kernel call does between two
    points where the processor may be switched to another process. */
module KernelSpec {
  import opened Common
  import opened QueueTab
  import opened DeltaList

  const NSEM := 100
  const NULLPROC := 0
  const READYLIST := 320   // queue ids in the order in which sysinit and clkinit allocate them
  const SCRATCH := 322
  const SLEEPQ := 324
  const MAXPRIO := 32767

  datatype PrState = PrFree | PrCurr | PrReady | PrRecv | PrSleep | PrSusp | PrWait | PrRectim

  datatype Proc = Proc(state: PrState, prio: int, sem: int, hasmsg: bool, msg: int, parent: int)

  datatype Sem = Sem(used: bool, count: int, queue: int)

  /** `leaked` counts the ready processes that were taken off the ready list by kill or
      suspend, which do not lower readycount, since it was last exact; `waking` is true
      from a tick that brings a sleeper to 0 until wakeup has released it; `stalled` is true
      once a process has gone to the sleep queue with a delay of 0; `resetting` is the
      semaphore whose queue semreset is emptying, -1 for none. */
  datatype Sys = Sys(lists: Lists, keys: Keys, proc: seq<Proc>, sem: seq<Sem>, curr: int,
                     readycount: int, ndefers: int, attempt: bool, leaked: nat, waking: bool, stalled: bool,
                     resetting: int)

  predicate Allocated(q: int) { Qid(q) && q <= SLEEPQ }

  function SemQueue(i: int): int { NPROC + 2 * i }

  predicate IsSem(sem: int) { 0 <= sem < NSEM }

  /** The queue that a process in this state is on, -1 for none. */
  function Home(p: Proc): int {
    match p.state
    case PrReady => READYLIST
    case PrSleep => SLEEPQ
    case PrRectim => SLEEPQ
    case PrWait => if IsSem(p.sem) then SemQueue(p.sem) else EMPTY
    case _ => EMPTY
  }

  ghost predicate Shape(s: Sys) {
    && (forall q :: q in s.lists <==> Allocated(q))
    && (forall q :: Allocated(q) ==> Pids(s.lists[q]) && NoDup(s.lists[q]))
    && |s.keys| == NPROC && |s.proc| == NPROC && |s.sem| == NSEM && Pid(s.curr)
    && (forall i :: 0 <= i < NSEM ==> s.sem[i].queue == SemQueue(i))
  }

  /** Process `x` is on the queue that its state names and on no other. */
  ghost predicate AtHome(s: Sys, x: int)
    requires Shape(s)
  {
    forall q :: Allocated(q) ==> (Pid(x) && x in s.lists[q] <==> Pid(x) && Home(s.proc[x]) == q)
  }

  /** Queues agree with states, except that `but` is on no queue. */
  ghost predicate Agree(s: Sys, but: int)
    requires Shape(s)
  {
    && (forall x :: Pid(x) && x != but ==> AtHome(s, x))
    && (Pid(but) ==> OnNone(s.lists, but))
    && (forall x :: Pid(x) && x != but && s.proc[x].state == PrWait ==> IsSem(s.proc[x].sem))
  }

  /** The ready list is in descending order of priority. */
  ghost predicate ReadySorted(s: Sys)
    requires Shape(s)
  {
    var l := s.lists[READYLIST];
    && (forall i, j :: 0 <= i < j < |l| ==> s.keys[l[i]] >= s.keys[l[j]])
    && (forall i :: 0 <= i < |l| ==> 0 <= s.keys[l[i]] <= MAXPRIO && s.keys[l[i]] == s.proc[l[i]].prio)
  }

  /** Unless stalled the first sleeper has at least one tick left, except while sleepers are
      woken. */
  ghost predicate Asleep(s: Sys)
    requires Shape(s)
  {
    var l := s.lists[SLEEPQ];
    !s.stalled ==> NonNegative(s.keys, l) && (l != [] && !s.waking ==> s.keys[l[0]] >= 1)
  }

  /** The queue of a semaphore is as long as its count is negative. */
  ghost predicate SemOk(s: Sys, i: int)
    requires Shape(s) && IsSem(i)
  {
    i != s.resetting ==> |s.lists[SemQueue(i)]| == Max(0, -s.sem[i].count)
  }

  ghost predicate SemsOk(s: Sys)
    requires Shape(s)
  {
    forall i :: 0 <= i < NSEM ==> SemOk(s, i)
  }

  ghost predicate Counted(s: Sys)
    requires Shape(s)
  {
    s.readycount == (|s.lists[READYLIST]| + s.leaked) % WRAP16 && s.ndefers >= 0
  }

  /** Only the current process can be in state PrCurr, and the null process is current or ready. */
  ghost predicate Running(s: Sys)
    requires Shape(s)
  {
    && (forall x :: Pid(x) && s.proc[x].state == PrCurr ==> x == s.curr)
    && (s.proc[NULLPROC].state == PrCurr || s.proc[NULLPROC].state == PrReady)
  }

  /** What holds at every moment except that process `but` may be between two queues. */
  ghost predicate CoreBut(s: Sys, but: int) {
    && Shape(s) && Agree(s, but) && ReadySorted(s) && Asleep(s) && SemsOk(s) && Counted(s) && Running(s)
    && s.lists[SCRATCH] == []
  }

  ghost predicate Core(s: Sys) { CoreBut(s, EMPTY) }

  /** What holds at every point where the processor may be switched. */
  ghost predicate SysInv(s: Sys) {
    Core(s) && !s.waking && s.resetting == -1 && (s.proc[s.curr].state == PrCurr || (s.ndefers > 0 && s.attempt))
  }

  /** What setprio may return: any priority for a process, 0 for the null process. */
  ghost predicate PrioOk(sp: seq<int>) {
    |sp| == NPROC && sp[NULLPROC] == 0 && forall i :: 0 <= i < NPROC ==> 0 <= sp[i] <= MAXPRIO
  }

  // ---- Queue steps -------------------------------------------------------------------

  function SetState(s: Sys, pid: int, st: PrState): Sys
    requires 0 <= pid < |s.proc|
  {
    s.(proc := s.proc[pid := s.proc[pid].(state := st)])
  }

  function PutAt(s: Sys, q: int, k: int, pid: int): Sys
    requires q in s.lists && 0 <= k <= |s.lists[q]|
  {
    s.(lists := s.lists[q := Ins(s.lists[q], k, pid)])
  }

  function DropAt(s: Sys, q: int, i: int): Sys
    requires q in s.lists && 0 <= i < |s.lists[q]|
  {
    s.(lists := s.lists[q := Del(s.lists[q], i)])
  }

  /** How many processes insert passes: all with a key at least as high. */
  function Ahead(keys: Keys, l: seq<int>, key: int): (p: int)
    requires Keyed(keys, l)
    ensures 0 <= p <= |l|
    ensures forall i :: 0 <= i < p ==> keys[l[i]] >= key
    ensures p < |l| ==> keys[l[p]] < key
  {
    if l == [] || keys[l[0]] < key then 0
    else
      var p := Ahead(keys, l[1..], key);
      assert forall i :: 0 < i < p + 1 ==> l[i] == l[1..][i - 1];
      p + 1
  }

  /** Enough for the steps to make sense. */
  ghost predicate Typed(s: Sys) {
    && READYLIST in s.lists && SLEEPQ in s.lists && Pids(s.lists[READYLIST]) && Pids(s.lists[SLEEPQ])
    && |s.keys| == NPROC && |s.proc| == NPROC && Pid(s.curr)
  }

  /** ready up to its call of resched: the process joins the ready list at its priority. */
  function Made(s: Sys, sp: seq<int>, pid: int): (t: Sys)
    requires Typed(s) && Pid(pid) && |sp| == NPROC
    ensures Typed(t) && t.lists[READYLIST] != [] && t.ndefers == s.ndefers
  {
    var keys := s.keys[pid := sp[pid]];
    PutAt(s.(keys := keys, proc := s.proc[pid := s.proc[pid].(state := PrReady, prio := sp[pid])],
             readycount := (s.readycount + 1) % WRAP16),
          READYLIST, Ahead(s.keys, s.lists[READYLIST], sp[pid]), pid)
  }

  /** resched gives the processor to the head of the ready list. */
  function Switched(s: Sys): Sys
    requires Typed(s) && s.lists[READYLIST] != []
  {
    var pid := s.lists[READYLIST][0];
    SetState(DropAt(s, READYLIST, 0), pid, PrCurr).(curr := pid, readycount := (s.readycount - 1) % WRAP16)
  }

  /** The current process gets its present priority. */
  function Reprio(s: Sys, sp: seq<int>): Sys
    requires Typed(s) && |sp| == NPROC
  {
    s.(proc := s.proc[s.curr := s.proc[s.curr].(prio := sp[s.curr])])
  }

  /** resched: deferred, or the current process keeps the processor only if its priority
      is above every ready one. */
  function Resch(s: Sys, sp: seq<int>): Sys
    requires Typed(s) && |sp| == NPROC && (s.proc[s.curr].state != PrCurr ==> s.lists[READYLIST] != [])
  {
    var l := s.lists[READYLIST];
    if s.ndefers > 0 then s.(attempt := true)
    else if s.proc[s.curr].state != PrCurr then Switched(s)
    else if l == [] || sp[s.curr] > s.keys[l[0]] then Reprio(s, sp)
    else Switched(Made(s, sp, s.curr))
  }

  /** resched at the end of a call, deferred or not. */
  ghost function Done(s: Sys, sp: seq<int>): Sys
    requires Core(s) && PrioOk(sp)
  {
    Basics(s);
    if s.ndefers > 0 then s.(attempt := true)
    else if s.proc[s.curr].state != PrCurr then NullIsReady(s); Resch(s, sp)
    else Resch(s, sp)
  }

  // ---- Agreement ---------------------------------------------------------------------

  /** Putting `pid` on queue `q` or taking it off does not move any other process. */
  lemma StaysHome(s: Sys, t: Sys, q: int, pid: int, x: int)
    requires Shape(s) && Shape(t) && AtHome(s, x) && Pid(x) && x != pid && t.proc[x] == s.proc[x] && Allocated(q)
    requires t.lists == s.lists[q := t.lists[q]] && (x in t.lists[q] <==> x in s.lists[q])
    ensures AtHome(t, x)
  {
  }

  lemma PutShape(s: Sys, t: Sys, q: int, k: int, pid: int)
    requires Shape(s) && Allocated(q) && 0 <= k <= |s.lists[q]| && Pid(pid) && pid !in s.lists[q]
    requires t.lists == s.lists[q := Ins(s.lists[q], k, pid)]
    requires |t.keys| == NPROC && t.sem == s.sem && t.curr == s.curr && |t.proc| == NPROC
    ensures Shape(t)
  {
  }

  /** A process on no queue is put where its new state says it should be. */
  lemma PutAgrees(s: Sys, t: Sys, q: int, k: int, pid: int)
    requires Shape(s) && Agree(s, pid) && Pid(pid) && Allocated(q) && 0 <= k <= |s.lists[q]|
    requires t.lists == s.lists[q := Ins(s.lists[q], k, pid)] && |t.keys| == NPROC && t.sem == s.sem && t.curr == s.curr
    requires |t.proc| == NPROC && Home(t.proc[pid]) == q && forall x :: Pid(x) && x != pid ==> t.proc[x] == s.proc[x]
    ensures Shape(t) && Agree(t, EMPTY)
  {
    assert q in s.lists;
    PutShape(s, t, q, k, pid);
    InsIn(s.lists[q], k, pid, pid);
    assert AtHome(t, pid);
    forall x | Pid(x) && x != pid
      ensures AtHome(t, x)
    {
      InsIn(s.lists[q], k, pid, x);
      StaysHome(s, t, q, pid, x);
    }
    assert t.proc[pid].state == PrWait ==> IsSem(t.proc[pid].sem);
  }

  lemma DropShape(s: Sys, t: Sys, q: int, i: int)
    requires Shape(s) && Allocated(q) && 0 <= i < |s.lists[q]|
    requires t.lists == s.lists[q := Del(s.lists[q], i)]
    requires |t.keys| == NPROC && t.sem == s.sem && t.curr == s.curr && |t.proc| == NPROC
    ensures Shape(t)
  {
  }

  /** A process is taken off its queue. */
  lemma DropAgrees(s: Sys, t: Sys, q: int, i: int)
    requires Shape(s) && Agree(s, EMPTY) && Allocated(q) && 0 <= i < |s.lists[q]|
    requires t.lists == s.lists[q := Del(s.lists[q], i)] && |t.keys| == NPROC && t.sem == s.sem && t.curr == s.curr
    requires |t.proc| == NPROC && forall x :: Pid(x) && x != s.lists[q][i] ==> t.proc[x] == s.proc[x]
    ensures Shape(t) && Agree(t, s.lists[q][i])
  {
    var pid := s.lists[q][i];
    DropShape(s, t, q, i);
    assert AtHome(s, pid);
    DelIn(s.lists[q], i, pid);
    forall x | Pid(x) && x != pid
      ensures AtHome(t, x)
    {
      DelIn(s.lists[q], i, x);
      StaysHome(s, t, q, pid, x);
    }
  }

  /** A process that is on no queue gets a state that names none. */
  lemma FreeAgrees(s: Sys, t: Sys, pid: int)
    requires Shape(s) && Agree(s, pid) && Pid(pid)
    requires t.lists == s.lists && |t.keys| == NPROC && t.sem == s.sem && Pid(t.curr)
    requires |t.proc| == NPROC && forall x :: Pid(x) && x != pid ==> t.proc[x] == s.proc[x]
    requires Home(t.proc[pid]) == EMPTY && t.proc[pid].state != PrWait
    ensures Shape(t) && Agree(t, EMPTY)
  {
    forall x | Pid(x)
      ensures AtHome(t, x)
    {
      if x != pid { assert AtHome(s, x); }
    }
  }

  // ---- ready and resched -------------------------------------------------------------

  /** Insertion keeps the ready list sorted. */
  lemma AheadSorted(keys: Keys, l: seq<int>, pid: int, key: int)
    requires Keyed(keys, l) && Pid(pid) && pid !in l && forall i, j :: 0 <= i < j < |l| ==> keys[l[i]] >= keys[l[j]]
    ensures var p, keys' := Ahead(keys, l, key), keys[pid := key];
            var l' := Ins(l, p, pid);
            && Pids(l')
            && (forall i, j :: 0 <= i < j < |l'| ==> keys'[l'[i]] >= keys'[l'[j]])
            && (forall i :: 0 <= i < |l'| && i != p ==> l'[i] in l && keys'[l'[i]] == keys[l'[i]])
  {
    hide Ahead;
    var p, keys' := Ahead(keys, l, key), keys[pid := key];
    var l' := Ins(l, p, pid);
    forall i | 0 <= i < |l'| && i != p
      ensures l'[i] == l[if i < p then i else i - 1] && l'[i] in l && l'[i] != pid
    {
    }
    forall i, j | 0 <= i < j < |l'|
      ensures keys'[l'[i]] >= keys'[l'[j]]
    {
      if j > p && p < |l| { assert p < j - 1 ==> keys[l[p]] >= keys[l[j - 1]]; }
    }
  }

  lemma MadeSorted(s: Sys, sp: seq<int>, pid: int)
    requires Shape(s) && ReadySorted(s) && Pid(pid)
    requires pid !in s.lists[READYLIST] && PrioOk(sp) && Shape(Made(s, sp, pid))
    ensures ReadySorted(Made(s, sp, pid))
  {
    AheadSorted(s.keys, s.lists[READYLIST], pid, sp[pid]);
    var t, l := Made(s, sp, pid), s.lists[READYLIST];
    var l', p := t.lists[READYLIST], Ahead(s.keys, l, sp[pid]);
    forall i | 0 <= i < |l'| && i != p
      ensures l'[i] == l[if i < p then i else i - 1]
    {
    }
  }

  lemma MadeCore(s: Sys, sp: seq<int>, pid: int)
    requires CoreBut(s, pid) && Pid(pid) && PrioOk(sp)
    ensures Core(Made(s, sp, pid)) && Made(s, sp, pid).lists[READYLIST] != []
  {
    Basics(s);
    hide Shape, Agree, Asleep, SemsOk, ReadySorted, OnNone, Ahead, Running, Counted;
    OnNoQueue(s, pid, READYLIST);
    var t, l := Made(s, sp, pid), s.lists[READYLIST];
    PutAgrees(s, t, READYLIST, Ahead(s.keys, l, sp[pid]), pid);
    MadeSorted(s, sp, pid);
    OthersKeep(s, t, pid, READYLIST);
    MadeRest(s, sp, pid);
  }

  /** Facts that are kept in sight when the parts of the invariant are not. */
  lemma Basics(s: Sys)
    requires Shape(s)
    ensures Typed(s) && SCRATCH in s.lists && |s.sem| == NSEM && forall q :: Allocated(q) ==> q in s.lists
  {
    assert READYLIST in s.lists && SLEEPQ in s.lists;
  }

  lemma CoreBasics(s: Sys)
    requires Core(s)
    ensures Typed(s) && SCRATCH in s.lists && |s.sem| == NSEM && forall q :: Allocated(q) ==> q in s.lists
  {
    Basics(s);
  }

  lemma OnNoQueue(s: Sys, pid: int, q: int)
    requires OnNone(s.lists, pid) && q in s.lists
    ensures pid !in s.lists[q]
  {
  }

  lemma MadeRest(s: Sys, sp: seq<int>, pid: int)
    requires CoreBut(s, pid) && Pid(pid) && |sp| == NPROC && Typed(s) && Shape(Made(s, sp, pid))
    ensures Counted(Made(s, sp, pid)) && Running(Made(s, sp, pid))
  {
    hide Agree, Asleep, SemsOk, ReadySorted, Ahead;
  }

  /** Sleepers and semaphore queues do not notice a change to process `pid` and queue `q`. */
  lemma OthersKeep(s: Sys, t: Sys, pid: int, q: int)
    requires Shape(s) && Shape(t) && Asleep(s) && SemsOk(s) && Allocated(q)
    requires t.sem == s.sem && t.lists == s.lists[q := t.lists[q]] && t.waking == s.waking
    requires t.stalled == s.stalled && t.resetting == s.resetting && (Pid(pid) ==> OnNone(s.lists, pid))
    requires forall x :: Pid(x) && x != pid ==> t.keys[x] == s.keys[x]
    ensures q != SLEEPQ ==> Asleep(t)
    ensures q >= READYLIST ==> SemsOk(t)
  {
    var l := s.lists[SLEEPQ];
    assert SLEEPQ in s.lists;
    assert forall i :: 0 <= i < |l| ==> l[i] in l && l[i] != pid;
    if q >= READYLIST {
      forall i | 0 <= i < NSEM
        ensures SemOk(t, i)
      {
        assert SemOk(s, i);
      }
    }
  }

  lemma NullIsReady(s: Sys)
    requires Core(s) && s.proc[s.curr].state != PrCurr
    ensures s.lists[READYLIST] != []
  {
    assert AtHome(s, NULLPROC);
    assert NULLPROC in s.lists[READYLIST];
  }

  /** A process that is on no queue may be between two queues. */
  lemma OnNoList(s: Sys, x: int)
    requires Core(s) && Pid(x) && Home(s.proc[x]) == EMPTY
    ensures CoreBut(s, x)
  {
    assert AtHome(s, x);
    hide ReadySorted, Asleep, SemsOk;
  }

  /** The rest of the invariant after a process has left the ready list. */
  lemma LeftReady(s: Sys, t: Sys, i: int)
    requires Core(s) && Shape(t) && 0 <= i < |s.lists[READYLIST]|
    requires t.lists == s.lists[READYLIST := Del(s.lists[READYLIST], i)] && t.keys == s.keys
    requires t.sem == s.sem && t.waking == s.waking && t.stalled == s.stalled && t.resetting == s.resetting
    requires forall x :: Pid(x) && x != s.lists[READYLIST][i] ==> t.proc[x] == s.proc[x]
    ensures ReadySorted(t) && Asleep(t) && SemsOk(t) && t.lists[SCRATCH] == []
  {
    var l, l' := s.lists[READYLIST], t.lists[READYLIST];
    forall j | 0 <= j < |l'|
      ensures l'[j] == l[if j < i then j else j + 1] && l'[j] != l[i]
    {
    }
    forall k | 0 <= k < NSEM
      ensures SemOk(t, k)
    {
      assert SemOk(s, k);
    }
  }

  lemma SwitchedInv(s: Sys)
    requires Core(s) && !s.waking && s.resetting == -1 && s.lists[READYLIST] != [] && s.proc[s.curr].state != PrCurr
    ensures Typed(s) && SysInv(Switched(s))
  {
    Basics(s);
    var t, pid := Switched(s), s.lists[READYLIST][0];
    var d := DropAt(s, READYLIST, 0);
    DropAgrees(s, d, READYLIST, 0);
    FreeAgrees(d, t, pid);
    LeftReady(s, t, 0);
    SwitchedRest(s);
    hide Agree, ReadySorted, Asleep, SemsOk, Shape, Running, Counted;
  }

  lemma SwitchedRest(s: Sys)
    requires Core(s) && s.lists[READYLIST] != [] && s.proc[s.curr].state != PrCurr && Typed(s) && Shape(Switched(s))
    ensures Running(Switched(s)) && Counted(Switched(s)) && Switched(s).proc[Switched(s).curr].state == PrCurr
  {
    hide Agree, ReadySorted, Asleep, SemsOk;
    var n := |s.lists[READYLIST]| + s.leaked;
    assert (n % WRAP16 - 1) % WRAP16 == (n - 1) % WRAP16;
  }

  lemma ReprioInv(s: Sys, sp: seq<int>)
    requires SysInv(s) && PrioOk(sp) && s.proc[s.curr].state == PrCurr
    ensures Typed(s) && SysInv(Reprio(s, sp))
  {
    Basics(s);
    OnNoList(s, s.curr);
    FreeAgrees(s, Reprio(s, sp), s.curr);
    ReprioRest(s, sp);
    hide Agree, ReadySorted, Asleep, SemsOk, Running, Counted;
  }

  lemma ReprioRest(s: Sys, sp: seq<int>)
    requires CoreBut(s, s.curr) && PrioOk(sp) && Typed(s) && Shape(Reprio(s, sp)) && s.proc[s.curr].state == PrCurr
    ensures ReadySorted(Reprio(s, sp)) && Asleep(Reprio(s, sp))
    ensures SemsOk(Reprio(s, sp)) && Running(Reprio(s, sp)) && Counted(Reprio(s, sp))
  {
    var t := Reprio(s, sp);
    OnNoQueue(s, s.curr, READYLIST);
    forall k | 0 <= k < NSEM
      ensures SemOk(t, k)
    {
      assert SemOk(s, k);
    }
  }

  /** resched always leaves a current process, and never dequeues from an empty list. */
  lemma ReschInv(s: Sys, sp: seq<int>)
    requires Core(s) && !s.waking && s.resetting == -1 && PrioOk(sp)
    ensures Typed(s) && (s.proc[s.curr].state != PrCurr ==> s.lists[READYLIST] != [])
    ensures SysInv(Resch(s, sp))
  {
    Basics(s);
    if s.proc[s.curr].state != PrCurr { NullIsReady(s); }
    if s.ndefers > 0 {
      DeferredInv(s, true);
    } else if s.proc[s.curr].state != PrCurr {
      SwitchedInv(s);
    } else if s.lists[READYLIST] == [] || sp[s.curr] > s.keys[s.lists[READYLIST][0]] {
      ReprioInv(s, sp);
    } else {
      OnNoList(s, s.curr);
      MadeCore(s, sp, s.curr);
      hide Core;
      SwitchedInv(Made(s, sp, s.curr));
    }
  }

  lemma DoneInv(s: Sys, sp: seq<int>)
    requires Core(s) && PrioOk(sp)
    ensures Core(Done(s, sp)) || (s.ndefers == 0 && (s.waking || s.resetting != -1))
    ensures !s.waking && s.resetting == -1 ==> SysInv(Done(s, sp))
  {
    if s.ndefers > 0 {
      DeferredInv(s, true);
    } else if !s.waking && s.resetting == -1 {
      ReschInv(s, sp);
    }
    hide Core;
  }

  lemma DeferredInv(s: Sys, attempt: bool)
    requires Core(s)
    ensures Core(s.(attempt := attempt))
  {
    var t := s.(attempt := attempt);
    Recount(s, t);
  }

  /** Nothing but counters of the scheduler differs. */
  lemma Recount(s: Sys, t: Sys)
    requires Core(s) && t.lists == s.lists && t.keys == s.keys && t.proc == s.proc && t.sem == s.sem && t.curr == s.curr
    requires t.readycount == s.readycount && t.leaked == s.leaked && t.waking == s.waking
    requires t.stalled == s.stalled && t.resetting == s.resetting && t.ndefers >= 0
    ensures Core(t)
  {
    forall x | Pid(x)
      ensures AtHome(t, x)
    {
      assert AtHome(s, x);
    }
    forall k | 0 <= k < NSEM
      ensures SemOk(t, k)
    {
      assert SemOk(s, k);
    }
  }

  // ---- What resched chooses ----------------------------------------------------------

  /** No ready process has a priority above the current one. */
  ghost predicate HighestRuns(s: Sys)
    requires Typed(s)
  {
    forall i :: 0 <= i < |s.lists[READYLIST]| ==> s.keys[s.lists[READYLIST][i]] <= s.proc[s.curr].prio
  }

  /** Whether the caller still runs or has blocked, resched finds somebody to run, and no
      ready process has a priority above the chosen one's. */
  lemma ReschChooses(s: Sys, sp: seq<int>)
    requires Core(s) && !s.waking && s.resetting == -1 && PrioOk(sp) && s.ndefers == 0
    ensures Typed(s) && (s.proc[s.curr].state != PrCurr ==> s.lists[READYLIST] != [])
    ensures SysInv(Resch(s, sp)) && HighestRuns(Resch(s, sp))
  {
    ReschInv(s, sp);
    Basics(s);
    if s.proc[s.curr].state == PrCurr {
      GivesWay(s, sp);
    } else {
      hide Agree, Asleep, SemsOk, Counted, Running, OnNone, Ahead;
    }
  }

  lemma GivesWay(s: Sys, sp: seq<int>)
    requires SysInv(s) && PrioOk(sp) && s.ndefers == 0 && Typed(s) && SysInv(Resch(s, sp))
    ensures HighestRuns(Resch(s, sp))
  {
    hide Shape, AtHome, PrioOk, Made;
    OnNoList(s, s.curr);
    MadeCore(s, sp, s.curr);
    hide Agree, Asleep, SemsOk, Counted, Running, OnNone, Ahead;
    assert OnNone(s.lists, s.curr);
    OnNoQueue(s, s.curr, READYLIST);
  }

  /** A process that gives way to one of equal priority goes behind all its equals. */
  lemma ReschRotates(s: Sys, sp: seq<int>)
    requires SysInv(s) && PrioOk(sp) && s.ndefers == 0
    requires s.lists[READYLIST] != [] && sp[s.curr] <= s.keys[s.lists[READYLIST][0]]
    ensures Typed(s)
    ensures var t, p := Resch(s, sp), Ahead(s.keys, s.lists[READYLIST], sp[s.curr]) - 1;
            && t.curr == s.lists[READYLIST][0] && p >= 0
            && t.lists[READYLIST] == s.lists[READYLIST][1..p + 1] + [s.curr] + s.lists[READYLIST][p + 1..]
            && (forall i :: 0 <= i <= p ==> s.keys[s.lists[READYLIST][i]] >= sp[s.curr])
            && (forall i :: p < i < |s.lists[READYLIST]| ==> s.keys[s.lists[READYLIST][i]] < sp[s.curr])
  {
    Basics(s);
    var l, p := s.lists[READYLIST], Ahead(s.keys, s.lists[READYLIST], sp[s.curr]) - 1;
    assert p >= 0;
    forall i | p < i < |l|
      ensures s.keys[l[i]] < sp[s.curr]
    {
      assert s.keys[l[p + 1]] >= s.keys[l[i]] || i == p + 1;
    }
    assert Ins(l, p + 1, s.curr)[0] == l[0];
    assert Del(Ins(l, p + 1, s.curr), 0) == l[1..p + 1] + [s.curr] + l[p + 1..];
  }

  // ---- What the invariant means --------------------------------------------------------

  /** At every switch point a process is on exactly the queue that its state names. */
  lemma StatesAndQueues(s: Sys, x: int)
    requires SysInv(s) && Pid(x)
    ensures |s.proc| == NPROC && forall q :: Allocated(q) ==> q in s.lists
    ensures s.proc[x].state == PrReady <==> x in s.lists[READYLIST]
    ensures s.proc[x].state == PrSleep || s.proc[x].state == PrRectim <==> x in s.lists[SLEEPQ]
    ensures forall i :: IsSem(i) ==> (s.proc[x].state == PrWait && s.proc[x].sem == i <==> x in s.lists[SemQueue(i)])
    ensures s.proc[x].state == PrWait ==> IsSem(s.proc[x].sem)
    ensures forall q :: Allocated(q) && q > SemQueue(NSEM - 1) && q != READYLIST && q != SLEEPQ ==> x !in s.lists[q]
  {
    assert AtHome(s, x);
    forall i | IsSem(i)
      ensures s.proc[x].state == PrWait && s.proc[x].sem == i <==> x in s.lists[SemQueue(i)]
    {
      assert Allocated(SemQueue(i));
    }
  }

  /** The queue of every semaphore is as long as its count is negative, and the null
      process is current or ready. */
  lemma SemaphoresAndNull(s: Sys, i: int)
    requires SysInv(s) && IsSem(i)
    ensures SemQueue(i) in s.lists && |s.sem| == NSEM && |s.lists[SemQueue(i)]| == Max(0, -s.sem[i].count)
    ensures |s.proc| == NPROC && READYLIST in s.lists
    ensures (s.proc[NULLPROC].state == PrCurr && s.curr == NULLPROC) || NULLPROC in s.lists[READYLIST]
  {
    assert SemOk(s, i) && AtHome(s, NULLPROC) && Allocated(SemQueue(i));
  }
}
