/** Sleeping, messages, suspension, termination and the change of scheduler on the kernel
    state, each up to its call of resched. */
module KernelTime {
  import opened Common
  import opened QueueTab
  import opened DeltaList
  import opened KernelSpec
  import opened KernelSteps

  function IndexOf(l: seq<int>, x: int): (i: int)
    requires x in l
    ensures 0 <= i < |l| && l[i] == x
  {
    if l[0] == x then 0 else 1 + IndexOf(l[1..], x)
  }

  // ---- The sleep queue ---------------------------------------------------------------

  /** The current process sleeps for `key` ticks in state `st`. */
  function Slept(s: Sys, key: int, st: PrState): Sys
    requires Typed(s)
  {
    var l := s.lists[SLEEPQ];
    SetState(
      PutAt(s.(keys := InsdKeys(s.keys, l, s.curr, key), stalled := s.stalled || key == 0),
            SLEEPQ, Passed(s.keys, l, key), s.curr),
      s.curr, st)
  }

  lemma InsdAsleep(keys: Keys, l: seq<int>, pid: int, key: int)
    requires Keyed(keys, l) && NoDup(l) && Pid(pid) && pid !in l && NonNegative(keys, l) && key >= 0
    requires l != [] ==> keys[l[0]] >= 1
    ensures var l', keys' := Ins(l, Passed(keys, l, key), pid), InsdKeys(keys, l, pid, key);
            Keyed(keys', l') && NonNegative(keys', l') && (keys'[l'[0]] >= 1 <==> key >= 1)
  {
    LeftFits(keys, l, key);
    var p := Passed(keys, l, key);
    var l', keys' := Ins(l, p, pid), InsdKeys(keys, l, pid, key);
    forall i | 0 <= i < |l'|
      ensures Pid(l'[i]) && keys'[l'[i]] >= 0
    {
      if i != p { assert l'[i] == l[if i < p then i else i - 1]; }
    }
  }

  lemma InsdOthers(keys: Keys, l: seq<int>, pid: int, key: int)
    requires Keyed(keys, l) && Pid(pid)
    ensures forall x :: Pid(x) && x != pid && x !in l ==> InsdKeys(keys, l, pid, key)[x] == keys[x]
  {
  }

  /** Nothing but the sleep queue, its keys and process `pid` differs. */
  ghost predicate SleepOnly(s: Sys, t: Sys, pid: int)
    requires Shape(s) && Shape(t)
  {
    && t.lists == s.lists[SLEEPQ := t.lists[SLEEPQ]] && t.sem == s.sem && t.curr == s.curr
    && t.readycount == s.readycount && t.ndefers == s.ndefers
    && t.leaked == s.leaked && t.waking == s.waking && t.resetting == s.resetting
    && (forall x :: Pid(x) && x != pid ==> t.proc[x] == s.proc[x])
    && (forall x :: Pid(x) && x != pid && x !in s.lists[SLEEPQ] ==> t.keys[x] == s.keys[x])
  }

  lemma SleepKeeps(s: Sys, t: Sys, pid: int)
    requires Shape(s) && Shape(t) && SleepOnly(s, t, pid)
    requires ReadySorted(s) && SemsOk(s) && Counted(s) && s.lists[SCRATCH] == []
    requires pid !in s.lists[READYLIST]
    requires forall x :: x in s.lists[READYLIST] ==> x !in s.lists[SLEEPQ]
    ensures ReadySorted(t) && SemsOk(t) && Counted(t) && t.lists[SCRATCH] == []
  {
    var l := s.lists[READYLIST];
    assert forall i :: 0 <= i < |l| ==> l[i] in l;
    forall i | 0 <= i < NSEM
      ensures SemOk(t, i)
    {
      assert SemOk(s, i);
    }
  }

  lemma ReadyNotAsleep(s: Sys, but: int)
    requires Shape(s) && Agree(s, but)
    ensures forall x :: x in s.lists[READYLIST] ==> x !in s.lists[SLEEPQ]
  {
    forall x | x in s.lists[READYLIST]
      ensures x !in s.lists[SLEEPQ]
    {
      assert Pid(x);
      if x != but { assert AtHome(s, x); }
    }
  }

  lemma SleptInv(s: Sys, key: int, st: PrState)
    requires Core(s) && !s.waking && key >= 0 && (st == PrSleep || st == PrRectim)
    requires s.proc[s.curr].state == PrCurr && s.curr != NULLPROC
    ensures Typed(s) && Core(Slept(s, key, st))
  {
    Basics(s);
    OnNoList(s, s.curr);
    OnNoQueue(s, s.curr, SLEEPQ);
    OnNoQueue(s, s.curr, READYLIST);
    var t, l := Slept(s, key, st), s.lists[SLEEPQ];
    PutAgrees(s, t, SLEEPQ, Passed(s.keys, l, key), s.curr);
    InsdOthers(s.keys, l, s.curr, key);
    if !s.stalled { InsdAsleep(s.keys, l, s.curr, key); }
    ReadyNotAsleep(s, EMPTY);
    SleepKeeps(s, t, s.curr);
    hide ReadySorted, SemsOk, Counted, Agree, Shape, InsdKeys;
  }

  /** unsleep: the process leaves the sleep queue and its delay goes to the next one. */
  function Unslept(s: Sys, pid: int): Sys
    requires Typed(s) && pid in s.lists[SLEEPQ]
  {
    var l := s.lists[SLEEPQ];
    DropAt(s.(keys := UnslKeys(s.keys, l, IndexOf(l, pid))), SLEEPQ, IndexOf(l, pid))
  }

  lemma UnslAsleep(keys: Keys, l: seq<int>, i: int, head: int)
    requires Keyed(keys, l) && NoDup(l) && 0 <= i < |l| && NonNegative(keys, l) && 0 <= head <= 1 && keys[l[0]] >= head
    ensures var l', keys' := Del(l, i), UnslKeys(keys, l, i);
            Keyed(keys', l') && NonNegative(keys', l') && (l' != [] ==> keys'[l'[0]] >= head || i == 0)
    ensures i == 0 && |l| > 1 ==> UnslKeys(keys, l, i)[Del(l, i)[0]] >= head
  {
    var l', keys' := Del(l, i), UnslKeys(keys, l, i);
    forall j | 0 <= j < |l'|
      ensures Pid(l'[j]) && keys'[l'[j]] >= 0
    {
      assert l'[j] == l[if j < i then j else j + 1];
    }
  }

  lemma UnslOthers(keys: Keys, l: seq<int>, i: int)
    requires Keyed(keys, l) && 0 <= i < |l|
    ensures forall x :: Pid(x) && x !in l ==> UnslKeys(keys, l, i)[x] == keys[x]
  {
  }

  lemma SleeperIn(s: Sys, pid: int)
    requires Core(s) && Pid(pid) && (s.proc[pid].state == PrSleep || s.proc[pid].state == PrRectim)
    ensures Typed(s) && pid in s.lists[SLEEPQ] && pid !in s.lists[READYLIST]
  {
    Basics(s);
    assert AtHome(s, pid);
  }

  lemma UnsleptInv(s: Sys, pid: int)
    requires Core(s) && !s.waking && Pid(pid) && (s.proc[pid].state == PrSleep || s.proc[pid].state == PrRectim)
    ensures Typed(s) && pid in s.lists[SLEEPQ] && CoreBut(Unslept(s, pid), pid)
  {
    SleeperIn(s, pid);
    var l, t := s.lists[SLEEPQ], Unslept(s, pid);
    DropAgrees(s, t, SLEEPQ, IndexOf(l, pid));
    UnslOthers(s.keys, l, IndexOf(l, pid));
    if !s.stalled { UnslAsleep(s.keys, l, IndexOf(l, pid), 1); }
    ReadyNotAsleep(s, EMPTY);
    SleepKeeps(s, t, pid);
    hide ReadySorted, SemsOk, Counted, Agree, Shape, UnslKeys;
  }

  // ---- The clock ---------------------------------------------------------------------

  /** One less, in 32 bits. */
  function Less(key: int): int { if key == MINKEY then MAXKEY else key - 1 }

  /** The clock handler takes one from the first key. */
  function Ticked(s: Sys): Sys
    requires Typed(s) && s.lists[SLEEPQ] != []
  {
    var x := s.lists[SLEEPQ][0];
    s.(keys := s.keys[x := Less(s.keys[x])], waking := Less(s.keys[x]) == 0)
  }

  lemma TickedInv(s: Sys)
    requires Core(s) && !s.waking && s.lists[SLEEPQ] != []
    ensures Typed(s) && Core(Ticked(s))
  {
    Basics(s);
    ReadyNotAsleep(s, EMPTY);
    var t, l := Ticked(s), s.lists[READYLIST];
    assert forall i :: 0 <= i < |l| ==> l[i] in l;
    assert s.lists[SLEEPQ][0] in s.lists[SLEEPQ];
    forall x | Pid(x)
      ensures AtHome(t, x)
    {
      assert AtHome(s, x);
    }
    forall i | 0 <= i < NSEM
      ensures SemOk(t, i)
    {
      assert SemOk(s, i);
    }
  }

  /** wakeup makes the first sleeper ready while rescheduling is deferred. */
  function WokeOne(s: Sys, sp: seq<int>): Sys
    requires Typed(s) && s.lists[SLEEPQ] != [] && |sp| == NPROC
  {
    Made(DropAt(s, SLEEPQ, 0), sp, s.lists[SLEEPQ][0]).(attempt := true)
  }

  lemma FirstOutInv(s: Sys)
    requires Core(s) && s.waking && s.lists[SLEEPQ] != []
    ensures Typed(s) && CoreBut(DropAt(s, SLEEPQ, 0), s.lists[SLEEPQ][0])
  {
    Basics(s);
    var t, pid := DropAt(s, SLEEPQ, 0), s.lists[SLEEPQ][0];
    DropAgrees(s, t, SLEEPQ, 0);
    ReadyNotAsleep(s, EMPTY);
    assert pid in s.lists[SLEEPQ];
    SleepKeeps(s, t, pid);
    assert !s.stalled ==> NonNegative(t.keys, t.lists[SLEEPQ]);
    hide ReadySorted, SemsOk, Counted, Agree, Shape;
  }

  lemma WokeOneInv(s: Sys, sp: seq<int>)
    requires Core(s) && s.waking && s.lists[SLEEPQ] != [] && PrioOk(sp)
    ensures Typed(s) && Core(WokeOne(s, sp)) && WokeOneDoes(s, WokeOne(s, sp))
  {
    FirstOutInv(s);
    var d, pid := DropAt(s, SLEEPQ, 0), s.lists[SLEEPQ][0];
    WokeOneFacts(s, sp);
    hide Core, CoreBut, PrioOk, WokeOneDoes;
    MadeCore(d, sp, pid);
    DeferredInv(Made(d, sp, pid), true);
  }

  /** The effect of one turn of the loop in wakeup. */
  ghost predicate WokeOneDoes(s: Sys, t: Sys)
    requires Typed(s) && s.lists[SLEEPQ] != []
  {
    var l := s.lists[SLEEPQ];
    && Typed(t) && t.lists[SLEEPQ] == l[1..] && t.proc[l[0]].state == PrReady
    && t.waking == s.waking && t.resetting == s.resetting && t.ndefers == s.ndefers && t.curr == s.curr
    && (forall x :: x in l[1..] ==> Pid(x) && t.keys[x] == s.keys[x])
    && (forall x :: Pid(x) && s.proc[x].state == PrReady ==> t.proc[x].state == PrReady)
  }

  lemma WokeOneFacts(s: Sys, sp: seq<int>)
    requires Typed(s) && Shape(s) && s.lists[SLEEPQ] != [] && PrioOk(sp)
    ensures WokeOneDoes(s, WokeOne(s, sp))
  {
    var l := s.lists[SLEEPQ];
    assert Allocated(SLEEPQ);
    assert forall i :: 0 < i < |l| ==> l[i] == l[1..][i - 1] && l[i] != l[0];
    hide Ahead;
  }

  /** wakeup is done when the first key is above 0. */
  lemma AwakeInv(s: Sys)
    requires Core(s) && (s.lists[SLEEPQ] != [] ==> s.keys[s.lists[SLEEPQ][0]] > 0)
    ensures Core(s.(waking := false))
  {
    var t := s.(waking := false);
    forall x | Pid(x)
      ensures AtHome(t, x)
    {
      assert AtHome(s, x);
    }
    forall i | 0 <= i < NSEM
      ensures SemOk(t, i)
    {
      assert SemOk(s, i);
    }
  }

  // ---- Messages ----------------------------------------------------------------------

  /** The message fields of a process. */
  function Messaged(s: Sys, pid: int, has: bool, msg: int): Sys
    requires 0 <= pid < |s.proc|
  {
    s.(proc := s.proc[pid := s.proc[pid].(hasmsg := has, msg := msg)])
  }

  lemma MessagedInv(s: Sys, pid: int, has: bool, msg: int)
    requires Core(s) && Pid(pid)
    ensures Core(Messaged(s, pid, has, msg))
  {
    var t := Messaged(s, pid, has, msg);
    forall x | Pid(x)
      ensures AtHome(t, x)
    {
      assert AtHome(s, x);
    }
    forall i | 0 <= i < NSEM
      ensures SemOk(t, i)
    {
      assert SemOk(s, i);
    }
  }

  /** send up to its call of resched. */
  function Sent(s: Sys, sp: seq<int>, pid: int, msg: int): Sys
    requires Typed(s) && Pid(pid) && |sp| == NPROC && (s.proc[pid].state == PrRectim ==> pid in s.lists[SLEEPQ])
  {
    var m := Messaged(s, pid, true, msg);
    if s.proc[pid].state == PrRecv then Made(m, sp, pid)
    else if s.proc[pid].state == PrRectim then UnslTyped(m, pid); Made(Unslept(m, pid), sp, pid)
    else m
  }

  lemma UnslTyped(s: Sys, pid: int)
    requires Typed(s) && pid in s.lists[SLEEPQ]
    ensures Typed(Unslept(s, pid))
  {
  }

  lemma SentInv(s: Sys, sp: seq<int>, pid: int, msg: int)
    requires Core(s) && !s.waking && Pid(pid) && PrioOk(sp)
    ensures Typed(s) && (s.proc[pid].state == PrRectim ==> pid in s.lists[SLEEPQ])
    ensures Core(Sent(s, sp, pid, msg)) && !Sent(s, sp, pid, msg).waking
  {
    Basics(s);
    MessagedInv(s, pid, true, msg);
    var m := Messaged(s, pid, true, msg);
    if s.proc[pid].state == PrRecv {
      OnNoList(m, pid);
      hide Core, CoreBut;
      MadeCore(m, sp, pid);
    } else if s.proc[pid].state == PrRectim {
      SleeperIn(s, pid);
      UnsleptInv(m, pid);
      hide Core, CoreBut;
      UnslTyped(m, pid);
      MadeCore(Unslept(m, pid), sp, pid);
    }
  }

  /** A process on no queue gets another state without a queue. */
  lemma ParkedInv(s: Sys, pid: int, st: PrState)
    requires CoreBut(s, pid) && Pid(pid) && pid != NULLPROC && (st == PrRecv || st == PrSusp || st == PrFree)
    ensures Core(SetState(s, pid, st))
  {
    var t := SetState(s, pid, st);
    FreeAgrees(s, t, pid);
    ParkedRest(s, pid, st);
    hide ReadySorted, SemsOk, Counted, Agree, Shape, Running, Asleep;
  }

  lemma ParkedRest(s: Sys, pid: int, st: PrState)
    requires CoreBut(s, pid) && Pid(pid) && pid != NULLPROC && (st == PrRecv || st == PrSusp || st == PrFree)
    requires Shape(SetState(s, pid, st))
    ensures var t := SetState(s, pid, st); ReadySorted(t) && Asleep(t) && SemsOk(t) && Counted(t) && Running(t)
  {
    hide Agree;
    var t := SetState(s, pid, st);
    forall i | 0 <= i < NSEM
      ensures SemOk(t, i)
    {
      assert SemOk(s, i);
    }
  }

  // ---- kill and suspend --------------------------------------------------------------

  /** A ready process is taken off the ready list without lowering readycount. */
  function Unready(s: Sys, pid: int): Sys
    requires Typed(s) && pid in s.lists[READYLIST]
  {
    DropAt(s, READYLIST, IndexOf(s.lists[READYLIST], pid)).(leaked := s.leaked + 1)
  }

  lemma UnreadyInv(s: Sys, pid: int)
    requires Core(s) && Pid(pid) && s.proc[pid].state == PrReady
    ensures Typed(s) && pid in s.lists[READYLIST] && CoreBut(Unready(s, pid), pid)
  {
    Basics(s);
    assert AtHome(s, pid);
    var i, t := IndexOf(s.lists[READYLIST], pid), Unready(s, pid);
    DropAgrees(s, t, READYLIST, i);
    LeftReady(s, t, i);
    hide ReadySorted, SemsOk, Agree, Asleep;
  }

  /** A waiting process is taken out of the queue of its semaphore. */
  function Unwaited(s: Sys, pid: int): Sys
    requires Typed(s) && Pid(pid) && HasSem(s, s.proc[pid].sem) && pid in s.lists[SemQueue(s.proc[pid].sem)]
  {
    var sem := s.proc[pid].sem;
    DropAt(AddCount(s, sem, 1), SemQueue(sem), IndexOf(s.lists[SemQueue(sem)], pid))
  }

  lemma UnwaitedInv(s: Sys, pid: int)
    requires Core(s) && s.resetting == -1 && Pid(pid) && s.proc[pid].state == PrWait
    ensures Typed(s) && HasSem(s, s.proc[pid].sem) && pid in s.lists[SemQueue(s.proc[pid].sem)]
    ensures CoreBut(Unwaited(s, pid), pid)
  {
    Basics(s);
    var sem := s.proc[pid].sem;
    var q := SemQueue(sem);
    assert AtHome(s, pid) && Allocated(q) && SemOk(s, sem);
    var i := IndexOf(s.lists[q], pid);
    var a, t := AddCount(s, sem, 1), Unwaited(s, pid);
    CountAgrees(s, sem, 1, EMPTY);
    DropAgrees(a, t, q, i);
    SemsKeep(s, t, sem);
    ListsKeep(s, t, q);
    hide ReadySorted, Asleep, SemsOk, Counted, Agree, Shape;
  }

  /** The process is on the queue that its state names. */
  ghost predicate Endable(s: Sys, pid: int)
    requires Typed(s) && Pid(pid)
  {
    && (s.proc[pid].state == PrSleep || s.proc[pid].state == PrRectim ==> pid in s.lists[SLEEPQ])
    && (s.proc[pid].state == PrWait ==> HasSem(s, s.proc[pid].sem) && pid in s.lists[SemQueue(s.proc[pid].sem)])
    && (s.proc[pid].state == PrReady ==> pid in s.lists[READYLIST])
  }

  /** The end of kill, after the message to the parent: the process leaves whichever queue
      its present state names. */
  function Ended(s: Sys, pid: int): Sys
    requires Typed(s) && Pid(pid) && Endable(s, pid)
  {
    SetState(match s.proc[pid].state
             case PrSleep => Unslept(s, pid)
             case PrRectim => Unslept(s, pid)
             case PrWait => Unwaited(s, pid)
             case PrReady => Unready(s, pid)
             case _ => s,
             pid, PrFree)
  }

  lemma EndedInv(s: Sys, pid: int)
    requires Core(s) && !s.waking && s.resetting == -1 && Pid(pid) && pid != NULLPROC
    ensures Typed(s) && Endable(s, pid)
    ensures Core(Ended(s, pid)) && !Ended(s, pid).waking && Ended(s, pid).resetting == -1
  {
    Basics(s);
    match s.proc[pid].state
    case PrSleep =>
      UnsleptInv(s, pid);
      hide Core, CoreBut;
      ParkedInv(Unslept(s, pid), pid, PrFree);
    case PrRectim =>
      UnsleptInv(s, pid);
      hide Core, CoreBut;
      ParkedInv(Unslept(s, pid), pid, PrFree);
    case PrWait =>
      UnwaitedInv(s, pid);
      hide Core, CoreBut;
      ParkedInv(Unwaited(s, pid), pid, PrFree);
    case PrReady =>
      UnreadyInv(s, pid);
      hide Core, CoreBut;
      ParkedInv(Unready(s, pid), pid, PrFree);
    case _ =>
      OnNoList(s, pid);
      hide Core, CoreBut;
      ParkedInv(s, pid, PrFree);
  }

  // ---- A clock tick ------------------------------------------------------------------

  ghost predicate WokenDoes(s: Sys, t: Sys, n: nat)
    requires Typed(s)
  {
    var l := s.lists[SLEEPQ];
    && Typed(t) && n <= |l| && t.lists[SLEEPQ] == l[n..]
    && t.waking == s.waking && t.ndefers == s.ndefers && t.curr == s.curr && t.resetting == s.resetting
    && (s.attempt ==> t.attempt) && (t.attempt || t.proc == s.proc)
    && (forall i :: n <= i < |l| ==> t.keys[l[i]] == s.keys[l[i]])
    && (forall i :: 0 <= i < n ==> t.proc[l[i]].state == PrReady)
  }

  lemma WokenAdds(s: Sys, r: Sys, t: Sys, n: nat)
    requires Typed(s) && WokenDoes(s, r, n) && n < |s.lists[SLEEPQ]|
    requires WokeOneDoes(r, t) && t.attempt && t.resetting == r.resetting
    ensures WokenDoes(s, t, n + 1)
  {
    var l := s.lists[SLEEPQ];
    assert l[n..][0] == l[n] && l[n..][1..] == l[n + 1..];
    forall i | n + 1 <= i < |l|
      ensures t.keys[l[i]] == s.keys[l[i]]
    {
      assert l[i] == l[n + 1..][i - (n + 1)];
    }
  }

  /** The first `n` sleepers made ready by wakeup, while rescheduling is deferred. */
  function Woken(s: Sys, sp: seq<int>, n: nat): (t: Sys)
    requires Typed(s) && |sp| == NPROC && n <= |s.lists[SLEEPQ]|
    ensures Typed(t) && |t.lists[SLEEPQ]| == |s.lists[SLEEPQ]| - n
  {
    if n == 0 then s else WokeOne(Woken(s, sp, n - 1), sp)
  }

  lemma {:induction false} WokenInv(s: Sys, sp: seq<int>, n: nat)
    requires Core(s) && s.waking && PrioOk(sp) && Typed(s) && n <= |s.lists[SLEEPQ]|
    ensures Core(Woken(s, sp, n)) && WokenDoes(s, Woken(s, sp, n), n)
  {
    hide Core, PrioOk, WokeOne, WokeOneDoes;
    assert |sp| == NPROC by { PrioCount(sp); }
    if n > 0 {
      var r := Woken(s, sp, n - 1);
      WokenInv(s, sp, n - 1);
      WokeOneInv(r, sp);
      assert WokeOne(r, sp).attempt && WokeOne(r, sp).resetting == r.resetting by { WokeOneKeeps(r, sp); }
      WokenAdds(s, r, WokeOne(r, sp), n - 1);
    }
  }

  lemma PrioCount(sp: seq<int>)
    requires PrioOk(sp)
    ensures |sp| == NPROC
  {
  }

  lemma WokeOneKeeps(s: Sys, sp: seq<int>)
    requires Typed(s) && s.lists[SLEEPQ] != [] && |sp| == NPROC
    ensures WokeOne(s, sp).attempt && WokeOne(s, sp).resetting == s.resetting
  {
    hide Ahead;
  }

  /** wakeup has released everyone who is due. */
  ghost function Woke(s: Sys, sp: seq<int>): (t: Sys)
    requires Core(s) && s.waking && PrioOk(sp) && Typed(s) && s.resetting == -1
    requires s.ndefers > 0 && (s.proc[s.curr].state == PrCurr || s.attempt)
    ensures SysInv(t) && t.ndefers == s.ndefers
  {
    var n := Expired(s.keys, s.lists[SLEEPQ]);
    WokenInv(s, sp, n);
    var r := Woken(s, sp, n);
    WokeEnds(s, r, n);
    AwakeInv(r);
    r.(waking := false)
  }

  /** `n` is the number of expired sleepers if and only if the next one has time left. */
  lemma {:induction false} ExpiredIs(keys: Keys, l: seq<int>, n: nat)
    requires Keyed(keys, l) && n <= Expired(keys, l)
    ensures n == Expired(keys, l) <==> n == |l| || keys[l[n]] > 0
    decreases n
  {
    if n > 0 { ExpiredIs(keys, l[1..], n - 1); }
  }

  lemma WokeEnds(s: Sys, r: Sys, n: nat)
    requires Typed(s) && WokenDoes(s, r, n) && n == Expired(s.keys, s.lists[SLEEPQ])
    ensures r.lists[SLEEPQ] != [] ==> r.keys[r.lists[SLEEPQ][0]] > 0
  {
    ExpiredIs(s.keys, s.lists[SLEEPQ], n);
  }

  /** The processes that had one tick left are ready or running, the others sleep on with
      one tick less, and the first of them has at least one left. */
  ghost predicate TickDid(s: Sys, t: Sys)
    requires Typed(s)
  {
    var d, l := Due(s.keys, s.lists[SLEEPQ], 0), s.lists[SLEEPQ];
    Typed(t) &&
    var n := |l| - |t.lists[SLEEPQ]|;
    && 0 <= n && t.lists[SLEEPQ] == l[n..]
    && (forall i :: 0 <= i < |l| ==> d[i].due >= 1 && (i < n <==> d[i].due == 1))
    && (forall i :: 0 <= i < n ==> t.proc[l[i]].state == PrReady || t.proc[l[i]].state == PrCurr)
    && (forall i :: n <= i < |l| ==> Due(t.keys, l[n..], 0)[i - n] == Sleeper(l[i], d[i].due - 1))
    && (t.lists[SLEEPQ] != [] ==> t.keys[t.lists[SLEEPQ][0]] >= 1)
  }

  lemma WakesDue(s: Sys, u: Sys, r: Sys, n: nat)
    requires Core(s) && !s.waking && !s.stalled && Typed(s) && s.lists[SLEEPQ] != []
    requires Typed(u) && u.keys == Ticked(s).keys && u.lists == s.lists
    requires n == Expired(u.keys, s.lists[SLEEPQ]) && WokenDoes(u, r, n)
    ensures TickDid(s, r)
  {
    hide Core, Due, NoDup, Expired, TickDid;
    var l := s.lists[SLEEPQ];
    FirstHasTime(s);
    assert u.keys == s.keys[l[0] := s.keys[l[0]] - 1];
    WokeEnds(u, r, n);
    RestFramed(u.keys, r.keys, l, n);
    forall i | 0 <= i < |l|
      ensures TickMakes(s, r, n, i)
    {
      TickDue(s.keys, l, i);
    }
    TickAll(s, r, n);
  }

  /** What the tick makes of sleeper `i` when `n` are woken. */
  ghost predicate TickMakes(s: Sys, r: Sys, n: nat, i: nat)
    requires Typed(s) && Typed(r) && i < |s.lists[SLEEPQ]| && n <= |s.lists[SLEEPQ]|
  {
    var l := s.lists[SLEEPQ];
    var d := Due(s.keys, l, 0)[i].due;
    d >= 1 && (i < n <==> d == 1) && (i >= n ==> Due(r.keys, l[n..], 0)[i - n] == Sleeper(l[i], d - 1))
  }

  lemma TickAll(s: Sys, r: Sys, n: nat)
    requires Typed(s) && Typed(r) && n <= |s.lists[SLEEPQ]| && r.lists[SLEEPQ] == s.lists[SLEEPQ][n..]
    requires forall i :: 0 <= i < |s.lists[SLEEPQ]| ==> TickMakes(s, r, n, i)
    requires forall i :: 0 <= i < n ==> r.proc[s.lists[SLEEPQ][i]].state == PrReady
    requires r.lists[SLEEPQ] != [] ==> r.keys[r.lists[SLEEPQ][0]] >= 1
    ensures TickDid(s, r)
  {
    hide Due;
    var d, l := Due(s.keys, s.lists[SLEEPQ], 0), s.lists[SLEEPQ];
    forall i | 0 <= i < |l|
      ensures d[i].due >= 1 && (i < n <==> d[i].due == 1)
      ensures i >= n ==> Due(r.keys, l[n..], 0)[i - n] == Sleeper(l[i], d[i].due - 1)
    {
      assert TickMakes(s, r, n, i);
    }
  }

  lemma FirstHasTime(s: Sys)
    requires Core(s) && !s.stalled && !s.waking && Typed(s) && s.lists[SLEEPQ] != []
    ensures NoDup(s.lists[SLEEPQ]) && NonNegative(s.keys, s.lists[SLEEPQ]) && s.keys[s.lists[SLEEPQ][0]] >= 1
  {
    assert Asleep(s);
  }

  lemma RestFramed(keys: Keys, keys': Keys, l: seq<int>, n: nat)
    requires Keyed(keys, l) && |keys'| == |keys| && n <= |l|
    requires forall i :: n <= i < |l| ==> keys'[l[i]] == keys[l[i]]
    ensures Keyed(keys', l[n..]) && Due(keys', l[n..], 0) == Due(keys, l[n..], 0)
  {
    forall x | x in l[n..]
      ensures Pid(x) && keys'[x] == keys[x]
    {
      var j :| 0 <= j < |l[n..]| && l[n..][j] == x;
      assert l[n + j] == x;
    }
    DueFramed(keys, keys', l[n..], 0);
  }

  /** The sleepers and their delays are the same. */
  ghost predicate SameSleep(r: Sys, t: Sys)
    requires Typed(r)
  {
    && Typed(t) && t.lists[SLEEPQ] == r.lists[SLEEPQ] && t.stalled == r.stalled
    && (forall x :: x in r.lists[SLEEPQ] ==> Pid(x) && t.keys[x] == r.keys[x])
  }

  /** No message arrives or is taken. */
  ghost predicate SameMail(r: Sys, t: Sys) {
    && |t.proc| == NPROC == |r.proc|
    && forall x :: Pid(x) ==> t.proc[x].hasmsg == r.proc[x].hasmsg && t.proc[x].msg == r.proc[x].msg
  }

  /** Every queue but the ready list, and every semaphore. */
  ghost predicate SameQueues(r: Sys, t: Sys) {
    t.sem == r.sem && forall q :: q in r.lists && q != READYLIST ==> q in t.lists && t.lists[q] == r.lists[q]
  }

  /** What resched leaves alone: all that, and that a ready process is ready or running. */
  ghost predicate Onward(r: Sys, t: Sys)
    requires Typed(r)
  {
    && SameSleep(r, t) && SameMail(r, t) && SameQueues(r, t)
    && (forall x :: Pid(x) && (r.proc[x].state == PrReady || r.proc[x].state == PrCurr) ==>
          t.proc[x].state == PrReady || t.proc[x].state == PrCurr)
  }

  lemma SwitchedOnward(s: Sys)
    requires Typed(s) && s.lists[READYLIST] != []
    ensures Onward(s, Switched(s))
  {
    assert forall x :: x in s.lists[SLEEPQ] ==> Pid(x);
  }

  lemma MadeOnward(s: Sys, sp: seq<int>, pid: int)
    requires Typed(s) && |sp| == NPROC && Pid(pid) && pid !in s.lists[SLEEPQ]
    ensures Onward(s, Made(s, sp, pid))
  {
    hide Ahead;
    assert forall x :: x in s.lists[SLEEPQ] ==> Pid(x);
  }

  lemma ReschOnward(s: Sys, sp: seq<int>)
    requires Core(s) && PrioOk(sp) && Typed(s) && (s.proc[s.curr].state != PrCurr ==> s.lists[READYLIST] != [])
    ensures Onward(s, Resch(s, sp))
  {
    hide Core, Made, Switched, Onward, PrioOk;
    PrioCount(sp);
    if s.ndefers > 0 || (s.proc[s.curr].state == PrCurr && s.lists[READYLIST] == []) {
      SameOnward(s, Resch(s, sp));
    } else if s.proc[s.curr].state != PrCurr {
      SwitchedOnward(s);
    } else if sp[s.curr] > s.keys[s.lists[READYLIST][0]] {
      SameOnward(s, Resch(s, sp));
    } else {
      CurrNotAsleep(s);
      MadeOnward(s, sp, s.curr);
      SwitchedOnward(Made(s, sp, s.curr));
      OnwardTwice(s, Made(s, sp, s.curr), Switched(Made(s, sp, s.curr)));
    }
  }

  lemma SameOnward(r: Sys, t: Sys)
    requires Typed(r) && t.lists == r.lists && t.keys == r.keys && |t.proc| == NPROC && t.curr == r.curr
    requires t.sem == r.sem && t.stalled == r.stalled
    requires forall x :: Pid(x) ==>
               && t.proc[x].state == r.proc[x].state && t.proc[x].hasmsg == r.proc[x].hasmsg
               && t.proc[x].msg == r.proc[x].msg
    ensures Onward(r, t)
  {
    assert forall x :: x in r.lists[SLEEPQ] ==> Pid(x);
  }

  lemma OnwardTwice(r: Sys, t: Sys, u: Sys)
    requires Typed(r) && Onward(r, t) && Onward(t, u)
    ensures Onward(r, u)
  {
  }

  lemma CurrNotAsleep(s: Sys)
    requires Core(s) && Typed(s) && s.proc[s.curr].state == PrCurr
    ensures s.curr !in s.lists[SLEEPQ]
  {
    OnNoList(s, s.curr);
    OnNoQueue(s, s.curr, SLEEPQ);
  }

  lemma DoneOnward(s: Sys, sp: seq<int>)
    requires Core(s) && PrioOk(sp) && Typed(s)
    ensures Onward(s, Done(s, sp))
  {
    hide Core, Resch, Onward, PrioOk;
    PrioCount(sp);
    if s.ndefers > 0 {
      SameOnward(s, s.(attempt := true));
    } else {
      if s.proc[s.curr].state != PrCurr { NullIsReady(s); }
      ReschOnward(s, sp);
    }
  }

  lemma StoppedOnward(s: Sys, sp: seq<int>)
    requires Core(s) && PrioOk(sp) && s.ndefers > 0 && Typed(s)
    ensures Onward(s, Stopped(s, sp))
  {
    hide Core, Done, Onward, PrioOk;
    var u := s.(ndefers := s.ndefers - 1);
    Recount(s, u);
    SameOnward(s, u);
    if u.ndefers == 0 && u.attempt {
      DoneOnward(u, sp);
      OnwardTwice(s, u, Done(u, sp));
    }
  }

  lemma TickDidOnward(s: Sys, r: Sys, t: Sys)
    requires Typed(s) && TickDid(s, r) && Onward(r, t)
    ensures TickDid(s, t)
  {
    hide Due;
    DueFramed(r.keys, t.keys, r.lists[SLEEPQ], 0);
  }

  /** The clock handler on the sleep queue, with the switch at the end of wakeup. */
  ghost function AfterTick(s: Sys, sp: seq<int>): (t: Sys)
    requires SysInv(s) && PrioOk(sp)
    ensures SysInv(t)
  {
    Basics(s);
    if s.lists[SLEEPQ] == [] then s
    else
      var u := Ticked(s);
      TickedInv(s);
      if !u.waking then u
      else
        Recount(u, Started(u));
        var r := Woke(Started(u), sp);
        StoppedInv(r, sp);
        Stopped(r, sp)
  }

  /** A tick makes ready exactly the processes that had one tick left and lowers the delay
      of the others by one. */
  lemma TickWakesDue(s: Sys, sp: seq<int>)
    requires SysInv(s) && PrioOk(sp) && !s.stalled
    ensures Typed(s) && (s.lists[SLEEPQ] != [] ==> TickDid(s, AfterTick(s, sp)))
  {
    Basics(s);
    if s.lists[SLEEPQ] != [] {
      var u := Ticked(s);
      TickedInv(s);
      if u.waking {
        WakingTick(s, sp);
      } else {
        QuietTick(s);
      }
    }
  }

  lemma QuietTick(s: Sys)
    requires SysInv(s) && !s.stalled && Typed(s) && s.lists[SLEEPQ] != [] && !Ticked(s).waking
    ensures TickDid(s, Ticked(s))
  {
    var u, l := Ticked(s), s.lists[SLEEPQ];
    assert Asleep(s);
    assert l[0..] == l && Expired(u.keys, l) == 0;
    WakesDue(s, u, u, 0);
  }

  lemma WakingTick(s: Sys, sp: seq<int>)
    requires SysInv(s) && PrioOk(sp) && !s.stalled && Typed(s) && s.lists[SLEEPQ] != [] && Ticked(s).waking
    ensures TickDid(s, AfterTick(s, sp))
  {
    hide Core, SysInv, TickDid, Woken, WokenDoes, Onward;
    RunsNow(s);
    var u, v := Ticked(s), Started(Ticked(s));
    TickedInv(s);
    Recount(u, v);
    var n := Expired(v.keys, v.lists[SLEEPQ]);
    WokenInv(v, sp, n);
    var r, w := Woken(v, sp, n), Woke(v, sp);
    WakesDue(s, v, r, n);
    assert Onward(r, w) by { AwakeOnward(r); }
    TickDidOnward(s, r, w);
    RunsNow(w);
    StoppedOnward(w, sp);
    TickDidOnward(s, w, Stopped(w, sp));
  }

  lemma RunsNow(s: Sys)
    requires SysInv(s)
    ensures Core(s) && !s.waking && s.resetting == -1 && s.ndefers >= 0 && Typed(s)
    ensures s.proc[s.curr].state == PrCurr || (s.ndefers > 0 && s.attempt)
  {
    Basics(s);
  }

  lemma AwakeOnward(r: Sys)
    requires Typed(r)
    ensures Onward(r, r.(waking := false))
  {
    assert forall x :: x in r.lists[SLEEPQ] ==> Pid(x);
  }

  // ---- A delay of 0 ------------------------------------------------------------------

  /** `n` ticks, none of which wakes anybody. */
  function Ticks(s: Sys, n: nat): (t: Sys)
    requires Typed(s) && s.lists[SLEEPQ] != []
    ensures Typed(t) && t.lists == s.lists && t.proc == s.proc
  {
    if n == 0 then s else Ticked(Ticks(s, n - 1))
  }

  /** The first key after `n` ticks, which go on below 0 and wrap around. */
  function CountedDown(key: int, n: nat): int {
    if key - n >= MINKEY then key - n else key - n + TWO32
  }

  /** The number of the tick that calls wakeup. */
  function FirstWake(key: int): int { if key >= 1 then key else key + TWO32 }

  lemma {:induction false} TicksAre(s: Sys, n: nat)
    requires Typed(s) && s.lists[SLEEPQ] != []
    requires MINKEY <= s.keys[s.lists[SLEEPQ][0]] <= MAXKEY && n <= TWO32
    ensures var x := s.lists[SLEEPQ][0];
            && Ticks(s, n).keys == s.keys[x := CountedDown(s.keys[x], n)]
            && (n > 0 ==> (Ticks(s, n).waking <==> CountedDown(s.keys[x], n) == 0))
  {
    if n > 0 { TicksAre(s, n - 1); }
  }

  /** As long as nobody joins or leaves the sleep queue, the first sleeper and so everybody
      behind it sleeps until tick number `FirstWake` of the first key: with a key of 0 or
      less that is more than 2^31 ticks away. */
  lemma TicksWake(s: Sys, n: nat)
    requires Typed(s) && s.lists[SLEEPQ] != []
    requires var key := s.keys[s.lists[SLEEPQ][0]]; MINKEY <= key <= MAXKEY && 1 <= n <= FirstWake(key)
    ensures Ticks(s, n).waking <==> n == FirstWake(s.keys[s.lists[SLEEPQ][0]])
  {
    TicksAre(s, n);
  }

  /** A delay of at least 1 is exactly what keeps the first key above 0: recvtime(0) puts its
      caller first, with key 0, and then no sleeper is woken for 2^32 - 1 ticks. */
  lemma ZeroDelayStalls(s: Sys, key: int)
    requires Core(s) && !s.waking && !s.stalled && key >= 0 && s.proc[s.curr].state == PrCurr
    ensures Typed(s)
    ensures var t := Slept(s, key, PrRectim);
            && t.lists[SLEEPQ] != [] && Typed(t)
            && (t.keys[t.lists[SLEEPQ][0]] >= 1 <==> key >= 1)
            && (key == 0 ==> t.lists[SLEEPQ][0] == s.curr && t.keys[s.curr] == 0
                             && forall n: nat :: 1 <= n < TWO32 ==> !Ticks(t, n).waking)
  {
    Basics(s);
    OnNoList(s, s.curr);
    OnNoQueue(s, s.curr, SLEEPQ);
    assert Asleep(s);
    var t, l := Slept(s, key, PrRectim), s.lists[SLEEPQ];
    InsdAsleep(s.keys, l, s.curr, key);
    SleptTyped(s, key);
    hide Core, CoreBut, InsdKeys;
    if key == 0 {
      assert Passed(s.keys, l, 0) == 0;
      FirstKeyIs(s.keys, l, s.curr, key);
      forall n: nat | 1 <= n < TWO32
        ensures !Ticks(t, n).waking
      {
        TicksWake(t, n);
      }
    }
  }

  lemma SleptTyped(s: Sys, key: int)
    requires Typed(s)
    ensures Typed(Slept(s, key, PrRectim))
  {
  }

  lemma FirstKeyIs(keys: Keys, l: seq<int>, pid: int, key: int)
    requires Keyed(keys, l) && Pid(pid) && pid !in l && Passed(keys, l, key) == 0
    ensures InsdKeys(keys, l, pid, key)[pid] == key
  {
  }

  // ---- create and semcreate ----------------------------------------------------------

  /** A free entry of the process table is filled for a suspended process. */
  lemma CreatedInv(s: Sys, pid: int, p: Proc)
    requires SysInv(s) && Pid(pid) && |s.proc| == NPROC && s.proc[pid].state == PrFree && p.state == PrSusp
    ensures SysInv(s.(proc := s.proc[pid := p]))
  {
    var t := s.(proc := s.proc[pid := p]);
    assert AtHome(s, pid);
    OnNoList(s, pid);
    FreeAgrees(s, t, pid);
    forall i | 0 <= i < NSEM
      ensures SemOk(t, i)
    {
      assert SemOk(s, i);
    }
    hide Agree;
  }

  /** A free semaphore gets a count that is not negative. */
  lemma SemCreatedInv(s: Sys, sem: int, count: int)
    requires SysInv(s) && IsSem(sem) && |s.sem| == NSEM && s.sem[sem].count >= 0 && count >= 0
    ensures SysInv(s.(sem := s.sem[sem := s.sem[sem].(used := true, count := count)]))
  {
    var t := s.(sem := s.sem[sem := s.sem[sem].(used := true, count := count)]);
    forall x | Pid(x)
      ensures AtHome(t, x)
    {
      assert AtHome(s, x);
    }
    forall i | 0 <= i < NSEM
      ensures SemOk(t, i)
    {
      assert SemOk(s, i);
    }
  }
}
