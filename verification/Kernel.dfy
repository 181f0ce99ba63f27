/** The process manager: queues, scheduler, semaphores, messages, sleep and termination,
    changing the tables of the kernel in place.  Each method is the code between two points
    where the processor may be switched; after a call of resched `currpid` is the process
    that runs next. */
module Kernels {
  import opened Common
  import opened QueueTab
  import opened DeltaList
  import opened KernelSpec
  import opened KernelSteps
  import opened KernelTime
  import opened KernelSched
  import opened KernelEffects

  const TIMEOUT := -3
  const QUANTUM := 2
  const BLOCKED := 0   // the call goes on in a later step
  const DEFER_START := 1
  const DEFER_STOP := 2

  function KeysOf(tab: Tab): (k: Keys)
    requires |tab| == NQENT
    ensures |k| == NPROC && forall i :: 0 <= i < NPROC ==> k[i] == tab[i].qkey
  {
    seq(NPROC, i requires 0 <= i < NPROC => tab[i].qkey)
  }

  /** The links around place `i` of a queue. */
  lemma AtPlace(tab: Tab, lists: Lists, q: int, i: int)
    requires TabOk(tab, lists) && q in lists && 0 <= i <= |lists[q]|
    ensures 0 <= Node(q, lists[q], i) < NQENT && 0 <= Node(q, lists[q], i - 1) < NQENT && Qid(q) && Pids(lists[q])
    ensures tab[Node(q, lists[q], i)].qprev == Node(q, lists[q], i - 1)
    ensures tab[Node(q, lists[q], i - 1)].qnext == Node(q, lists[q], i)
    ensures i < |lists[q]| ==> tab[lists[q][i]].qnext == Node(q, lists[q], i + 1)
    ensures Node(q, lists[q], i) < NPROC <==> i < |lists[q]|
    ensures i == |lists[q]| ==> tab[Node(q, lists[q], i)].qkey == MINKEY
  {
    assert IsList(tab, q, lists[q]);
    assert Link(tab, q, lists[q], i - 1);
    if i < |lists[q]| { assert Link(tab, q, lists[q], i); }
  }

  class Kernel {
    var queuetab: Tab
    var proctab: seq<Proc>
    var semtab: seq<Sem>
    var currpid: int
    var readycount: int
    var ndefers: int
    var attempt: bool
    var preempt: int
    var nextqid: int
    var nextpid: int
    var nextsem: int
    var prcount: int
    var setprio: seq<int>     // what setprio returns at present for each process
    ghost var lists: Lists
    ghost var leaked: nat
    ghost var waking: bool
    ghost var stalled: bool
    ghost var resetting: int

    ghost function State(): Sys
      requires |queuetab| == NQENT
      reads this
    {
      Sys(lists, KeysOf(queuetab), proctab, semtab, currpid, readycount, ndefers, attempt, leaked, waking, stalled,
          resetting)
    }

    /** The queues in the table are the lists. */
    ghost predicate Wired()
      reads this
    {
      && |queuetab| == NQENT && TabOk(queuetab, lists) && |proctab| == NPROC
      && |semtab| == NSEM && Pid(currpid) && |setprio| == NPROC && PrioOk(setprio)
      && forall q :: q in lists <==> Allocated(q)
    }

    /** Nobody waits on a semaphore that is not in use. */
    static ghost predicate FreeUnwaited(sems: seq<Sem>) {
      forall i :: 0 <= i < |sems| && !sems[i].used ==> sems[i].count >= 0
    }

    /** What holds wherever the processor may be switched. */
    ghost predicate Live()
      reads this
    {
      Wired() && SysInv(State())
    }

    /** What holds between two calls. */
    ghost predicate Valid()
      reads this
    {
      Live() && FreeUnwaited(semtab)
    }

    /** Where the searches for a free process and a free semaphore start. */
    predicate Cursors()
      reads this
    {
      0 <= nextpid <= NPROC && IsSem(nextsem)
    }

    predicate BadPid(pid: int)
      requires |proctab| == NPROC
      reads this
    {
      pid < 0 || pid >= NPROC || proctab[pid].state == PrFree
    }

    // ---- Queues ----------------------------------------------------------------------

    method Enqueue(pid: int, q: int) returns (r: int)
      requires Wired() && q in lists && (!BadPid(pid) ==> OnNone(lists, pid))
      modifies this`queuetab, this`lists
      ensures Wired()
      ensures BadPid(pid) ==> r == SYSERR && State() == old(State())
      ensures !BadPid(pid) ==> r == pid && State() == PutAt(old(State()), q, |old(lists)[q]|, pid)
      ensures !BadPid(pid) ==> lists == old(lists)[q := old(lists)[q] + [pid]]
    {
      if q < 0 || q >= NQENT - 1 || BadPid(pid) {
        AtPlace(queuetab, lists, q, 0);
        return SYSERR;
      }
      AtPlace(queuetab, lists, q, |lists[q]|);
      TabInserted(queuetab, lists, q, |lists[q]|, pid);
      var tail := q + 1;
      var prev := queuetab[tail].qprev;
      queuetab := queuetab[pid := queuetab[pid].(qnext := tail, qprev := prev)];
      queuetab := queuetab[prev := queuetab[prev].(qnext := pid)];
      queuetab := queuetab[tail := queuetab[tail].(qprev := pid)];
      assert Ins(lists[q], |lists[q]|, pid) == lists[q] + [pid];
      lists := lists[q := Ins(lists[q], |lists[q]|, pid)];
      assert KeysOf(queuetab) == old(KeysOf(queuetab));
      return pid;
    }

    method Getitem(pid: int, ghost q: int, ghost i: int) returns (r: int)
      requires Wired() && q in lists && 0 <= i < |lists[q]| && pid == lists[q][i]
      modifies this`queuetab, this`lists
      ensures Wired() && r == pid && State() == DropAt(old(State()), q, i)
      ensures lists == old(lists)[q := old(lists)[q][..i] + old(lists)[q][i + 1..]]
    {
      AtPlace(queuetab, lists, q, i);
      TabRemoved(queuetab, lists, q, i);
      var next := queuetab[pid].qnext;
      var prev := queuetab[pid].qprev;
      queuetab := queuetab[prev := queuetab[prev].(qnext := next)];
      queuetab := queuetab[next := queuetab[next].(qprev := prev)];
      lists := lists[q := Del(lists[q], i)];
      assert KeysOf(queuetab) == old(KeysOf(queuetab));
      return pid;
    }

    method Getfirst(q: int) returns (r: int)
      requires Wired() && q in lists
      modifies this`queuetab, this`lists
      ensures Wired()
      ensures old(lists)[q] == [] ==> r == EMPTY && State() == old(State())
      ensures old(lists)[q] != [] ==> r == old(lists)[q][0] && State() == DropAt(old(State()), q, 0)
    {
      AtPlace(queuetab, lists, q, 0);
      if queuetab[q].qnext >= NPROC {
        return EMPTY;
      }
      r := Getitem(queuetab[q].qnext, q, 0);
    }

    method Dequeue(q: int) returns (pid: int)
      requires Wired() && q in lists
      modifies this`queuetab, this`lists
      ensures Wired()
      ensures old(lists)[q] == [] ==> pid == EMPTY && State() == old(State())
      ensures old(lists)[q] != [] ==> pid == old(lists)[q][0] && State() == DropAt(old(State()), q, 0)
      ensures old(lists)[q] != [] ==> lists == old(lists)[q := old(lists)[q][1..]]
    {
      AtPlace(queuetab, lists, q, 0);
      if q < 0 || q >= NQENT - 1 {
        return SYSERR;
      } else if queuetab[q].qnext >= NPROC {
        return EMPTY;
      }
      TabRemoved(queuetab, lists, q, 0);
      assert Del(lists[q], 0) == lists[q][1..];
      pid := Getfirst(q);
      ghost var tab := queuetab;
      queuetab := queuetab[pid := queuetab[pid].(qprev := EMPTY, qnext := EMPTY)];
      Rekeyed(tab, queuetab, lists);
      assert KeysOf(queuetab) == old(KeysOf(queuetab));
    }

    /** A process with this key is put in between two nodes. */
    method LinkBetween(pid: int, key: int, prev: int, next: int, ghost q: int, ghost p: int)
      requires Wired() && q in lists && 0 <= p <= |lists[q]| && Pid(pid) && OnNone(lists, pid)
      requires next == Node(q, lists[q], p) && prev == Node(q, lists[q], p - 1)
      modifies this`queuetab, this`lists
      ensures Wired() && State() == PutAt(old(State()).(keys := old(State()).keys[pid := key]), q, p, pid)
    {
      AtPlace(queuetab, lists, q, p);
      RekeyedOne(pid, key);
      ghost var tab := queuetab[pid := queuetab[pid].(qkey := key)];
      TabInserted(tab, lists, q, p, pid);
      ghost var keys := KeysOf(queuetab);
      queuetab := queuetab[pid := Qentry(key, next, prev)];
      queuetab := queuetab[prev := queuetab[prev].(qnext := pid)];
      queuetab := queuetab[next := queuetab[next].(qprev := pid)];
      lists := lists[q := Ins(lists[q], p, pid)];
      assert queuetab == LinkIn(tab, pid, prev, next);
      assert KeysOf(queuetab) == keys[pid := key];
    }

    /** The walk of insert: past every process with a key at least as high. */
    method FindKey(q: int, key: int) returns (curr: int, ghost p: int)
      requires Wired() && q in lists && MINKEY < key
      ensures Keyed(KeysOf(queuetab), lists[q])
      ensures p == Ahead(KeysOf(queuetab), lists[q], key) && curr == Node(q, lists[q], p)
    {
      AtPlace(queuetab, lists, q, 0);
      ghost var l, keys := lists[q], KeysOf(queuetab);
      curr, p := queuetab[q].qnext, 0;
      while queuetab[curr].qkey >= key
        invariant 0 <= p <= |l| && curr == Node(q, l, p) && 0 <= curr < NQENT
        invariant Ahead(keys, l, key) == p + Ahead(keys, l[p..], key)
        decreases |l| - p
      {
        AtPlace(queuetab, lists, q, p);
        AtPlace(queuetab, lists, q, p + 1);
        curr := queuetab[curr].qnext;
        assert l[p..][1..] == l[p + 1..];
        p := p + 1;
      }
      AtPlace(queuetab, lists, q, p);
    }

    /** `pid` has been put behind every key that is at least as high as `key`. */
    static ghost predicate Placed(tab: Tab, l: seq<int>, l': seq<int>, pid: int, key: int)
      requires |tab| == NQENT && Pids(l)
    {
      exists p :: 0 <= p <= |l| && l' == l[..p] + [pid] + l[p..]
                  && (forall i :: 0 <= i < p ==> tab[l[i]].qkey >= key) && (p < |l| ==> tab[l[p]].qkey < key)
    }

    /** insert: the process goes into the queue by its key. */
    method Insert(pid: int, q: int, key: int) returns (r: int)
      requires Wired() && q in lists && MINKEY < key <= MAXKEY && (!BadPid(pid) ==> OnNone(lists, pid))
      modifies this`queuetab, this`lists
      ensures Wired()
      ensures BadPid(pid) ==> r == SYSERR && State() == old(State())
      ensures !BadPid(pid) ==>
                && r == OK && Keyed(old(State()).keys, old(lists)[q])
                && State() == PutAt(old(State()).(keys := old(State()).keys[pid := key]), q,
                                    Ahead(old(State()).keys, old(lists)[q], key), pid)
      ensures !BadPid(pid) ==>
                && Placed(old(queuetab), old(lists)[q], lists[q], pid, key) && queuetab[pid].qkey == key
                && lists == old(lists)[q := lists[q]]
    {
      AtPlace(queuetab, lists, q, 0);
      if q < 0 || q >= NQENT - 1 || BadPid(pid) {
        return SYSERR;
      }
      ghost var p;
      var curr;
      curr, p := FindKey(q, key);
      AtPlace(queuetab, lists, q, p);
      LinkBetween(pid, key, queuetab[curr].qprev, curr, q, p);
      return OK;
    }

    /** A key may change without any queue changing. */
    lemma RekeyedOne(pid: int, key: int)
      requires Wired() && Pid(pid)
      ensures TabOk(queuetab[pid := queuetab[pid].(qkey := key)], lists)
    {
      Rekeyed(queuetab, queuetab[pid := queuetab[pid].(qkey := key)], lists);
    }

    /** Everything is taken off a queue. */
    method EmptyQueue(q: int)
      requires Wired() && q in lists
      modifies this`queuetab, this`lists
      ensures Wired() && KeysOf(queuetab) == old(KeysOf(queuetab)) && lists == old(lists)[q := []]
    {
      AtPlace(queuetab, lists, q, 0);
      while queuetab[q].qnext < NPROC
        invariant Wired() && KeysOf(queuetab) == old(KeysOf(queuetab))
        invariant q in lists && lists == old(lists)[q := lists[q]]
        invariant queuetab[q].qnext < NPROC <==> lists[q] != []
        decreases |lists[q]|
      {
        var _ := Dequeue(q);
        AtPlace(queuetab, lists, q, 0);
      }
    }

    /** copyqueue: what the destination held is dropped.  An empty source leaves two queues
        that end in each other's tails. */
    method Copyqueue(srcq: int, destq: int)
      requires Wired() && srcq in lists && destq in lists && srcq != destq
      modifies this`queuetab, this`lists
      ensures |queuetab| == NQENT && KeysOf(queuetab) == old(KeysOf(queuetab))
      ensures old(lists)[srcq] != [] ==> Wired() && lists == old(lists)[destq := old(lists)[srcq]][srcq := []]
      ensures old(lists)[srcq] == [] ==> lists == old(lists)[destq := []] && Crossed(queuetab, srcq, destq) && !Wired()
    {
      hide IsList, Crossed;
      EmptyQueue(destq);
      if lists[srcq] != [] {
        TabMoved(queuetab, lists, srcq, destq);
      } else {
        MovedNothing(queuetab, srcq, destq);
      }
      MoveLinks(srcq, destq);
      if lists[srcq] != [] {
        lists := lists[destq := lists[srcq]][srcq := []];
      } else {
        CrossedIsBroken(queuetab, lists, srcq, destq);
      }
    }

    /** The links that copyqueue writes. */
    method MoveLinks(srcq: int, destq: int)
      requires |queuetab| == NQENT && Qid(srcq) && Qid(destq) && srcq != destq
      requires 0 <= queuetab[srcq].qnext < NQENT && 0 <= queuetab[srcq + 1].qprev < NQENT
      modifies this`queuetab
      ensures |queuetab| == NQENT && queuetab == MoveAll(old(queuetab), srcq, destq)
      ensures KeysOf(queuetab) == old(KeysOf(queuetab))
    {
      var firstid, lastid := queuetab[srcq].qnext, queuetab[srcq + 1].qprev;
      queuetab := queuetab[srcq := queuetab[srcq].(qnext := srcq + 1)];
      queuetab := queuetab[srcq + 1 := queuetab[srcq + 1].(qprev := srcq)];
      queuetab := queuetab[destq := queuetab[destq].(qnext := firstid)];
      queuetab := queuetab[firstid := queuetab[firstid].(qprev := destq)];
      queuetab := queuetab[destq + 1 := queuetab[destq + 1].(qprev := lastid)];
      queuetab := queuetab[lastid := queuetab[lastid].(qnext := destq + 1)];
    }

    /** The walk of insertd: past every process whose delay is not above what is left. */
    method FindDelta(q: int, key0: int) returns (prev: int, next: int, key: int, ghost p: int)
      requires Wired() && q in lists
      ensures Keyed(KeysOf(queuetab), lists[q])
      ensures p == Passed(KeysOf(queuetab), lists[q], key0) && key == Left(KeysOf(queuetab), lists[q], key0)
      ensures next == Node(q, lists[q], p) && prev == Node(q, lists[q], p - 1)
    {
      AtPlace(queuetab, lists, q, 0);
      ghost var l, keys := lists[q], KeysOf(queuetab);
      key, prev, next, p := key0, q, queuetab[q].qnext, 0;
      while next != q + 1 && queuetab[next].qkey <= key
        invariant 0 <= p <= |l| && next == Node(q, l, p) && prev == Node(q, l, p - 1) && 0 <= next < NQENT
        invariant Passed(keys, l, key0) == p + Passed(keys, l[p..], key)
        invariant Left(keys, l, key0) == Left(keys, l[p..], key)
        decreases |l| - p
      {
        AtPlace(queuetab, lists, q, p);
        AtPlace(queuetab, lists, q, p + 1);
        key := key - queuetab[next].qkey;
        prev := next;
        next := queuetab[next].qnext;
        assert l[p..][1..] == l[p + 1..];
        p := p + 1;
      }
      AtPlace(queuetab, lists, q, p);
    }

    /** insertd: the delay is stored relative to the process before. */
    method Insertd(pid: int, q: int, key0: int) returns (r: int)
      requires Wired() && q in lists && (!BadPid(pid) ==> OnNone(lists, pid))
      modifies this`queuetab, this`lists
      ensures Wired()
      ensures BadPid(pid) ==> r == SYSERR && State() == old(State())
      ensures !BadPid(pid) ==>
                && r == OK && Keyed(old(State()).keys, old(lists)[q])
                && State() == PutAt(old(State()).(keys := InsdKeys(old(State()).keys, old(lists)[q], pid, key0)), q,
                                    Passed(old(State()).keys, old(lists)[q], key0), pid)
    {
      hide IsList, TabOk, KeysOf, PrioOk;
      AtPlace(queuetab, lists, q, 0);
      if q < 0 || q >= NQENT - 1 || BadPid(pid) {
        return SYSERR;
      }
      ghost var p, l, keys := 0, lists[q], KeysOf(queuetab);
      var key, prev, next;
      prev, next, key, p := FindDelta(q, key0);
      AtPlace(queuetab, lists, q, p);
      LinkBetween(pid, key, prev, next, q, p);
      if next != q + 1 {
        RekeyedOne(next, queuetab[next].qkey - key);
        queuetab := queuetab[next := queuetab[next].(qkey := queuetab[next].qkey - key)];
      }
      assert KeysOf(queuetab) == InsdKeys(keys, l, pid, key0);
      return OK;
    }

    // ---- The scheduler ---------------------------------------------------------------

    /** resched when it is not deferred. */
    method ReschedNow()
      requires Wired() && ndefers == 0 && Typed(State())
      requires if proctab[currpid].state == PrCurr then OnNone(lists, currpid) else lists[READYLIST] != []
      modifies this`queuetab, this`lists, this`proctab, this`currpid, this`readycount, this`preempt
      ensures Wired() && State() == Resch(old(State()), setprio) && (preempt == old(preempt) || preempt == QUANTUM)
    {
      hide Made, Switched, Ahead;
      ghost var s := State();
      if proctab[currpid].state == PrCurr {
        proctab := proctab[currpid := proctab[currpid].(prio := setprio[currpid])];
        AtPlace(queuetab, lists, READYLIST, 0);
        if proctab[currpid].prio > queuetab[queuetab[READYLIST].qnext].qkey {
          assert State() == Reprio(s, setprio);
          return;
        }
        StepDown(s);
      }
      GiveProcessor();
    }

    /** The current process, with its new priority, joins the ready list. */
    method StepDown(ghost s: Sys)
      requires Wired() && Typed(s) && |setprio| == NPROC && State() == Reprio(s, setprio) && OnNone(lists, currpid)
      modifies this`queuetab, this`lists, this`proctab, this`readycount
      ensures Wired() && Typed(State()) && State() == Made(s, setprio, s.curr)
    {
      hide TabOk, PrioOk, Ahead, Placed;
      PrioRange();
      proctab := proctab[currpid := proctab[currpid].(state := PrReady)];
      readycount := (readycount + 1) % WRAP16;
      ghost var u := State();
      assert u == s.(proc := s.proc[currpid := s.proc[currpid].(state := PrReady, prio := setprio[currpid])],
                     readycount := (s.readycount + 1) % WRAP16);
      var _ := Insert(currpid, READYLIST, proctab[currpid].prio);
      assert State() == Made(s, setprio, currpid) by { hide OnNone, Shape; }
    }

    /** The head of the ready list becomes the current process. */
    method GiveProcessor()
      requires Wired() && Typed(State()) && lists[READYLIST] != []
      modifies this`queuetab, this`lists, this`proctab, this`currpid, this`readycount, this`preempt
      ensures Wired() && State() == Switched(old(State())) && preempt == QUANTUM
    {
      ghost var s := State();
      currpid := Dequeue(READYLIST);
      readycount := (readycount - 1) % WRAP16;
      proctab := proctab[currpid := proctab[currpid].(state := PrCurr)];
      preempt := QUANTUM;
      assert State() == Switched(s);
    }

    method Resched()
      requires Wired() && Core(State()) && (waking || resetting != -1 ==> ndefers > 0)
      modifies this`queuetab, this`lists, this`proctab, this`currpid, this`readycount, this`attempt, this`preempt
      ensures Wired() && State() == Done(old(State()), setprio) && (preempt == old(preempt) || preempt == QUANTUM)
      ensures !waking && resetting == -1 ==> SysInv(State())
    {
      ghost var s := State();
      CoreBasics(s);
      DoneInv(s, setprio);
      if ndefers > 0 {
        hide Core, SysInv;
        attempt := true;
        return;
      }
      ReschInv(s, setprio);
      OnNoListIf(s);
      hide Core, SysInv, CoreBut, Resch;
      ReschedNow();
    }

    /** A current process is on no queue. */
    lemma OnNoListIf(s: Sys)
      requires Core(s)
      ensures s.proc[s.curr].state == PrCurr ==> OnNone(s.lists, s.curr)
    {
      if s.proc[s.curr].state == PrCurr { OnNoList(s, s.curr); }
    }

    /** The part of ready before its call of resched. */
    method JoinReady(pid: int)
      requires Wired() && Typed(State()) && !BadPid(pid) && OnNone(lists, pid)
      modifies this`queuetab, this`lists, this`proctab, this`readycount
      ensures Wired() && State() == Made(old(State()), setprio, pid)
    {
      ghost var s := State();
      proctab := proctab[pid := proctab[pid].(state := PrReady)];
      readycount := (readycount + 1) % WRAP16;
      proctab := proctab[pid := proctab[pid].(prio := setprio[pid])];
      var _ := Insert(pid, READYLIST, proctab[pid].prio);
      assert State() == Made(s, setprio, pid);
    }

    /** ready, for a process that is on no queue; a free entry is refused. */
    method Ready(pid: int) returns (r: int)
      requires Wired() && (waking || resetting != -1 ==> ndefers > 0)
      requires !BadPid(pid) ==> CoreBut(State(), pid)
      modifies this`queuetab, this`lists, this`proctab, this`currpid, this`readycount, this`attempt, this`preempt
      ensures Wired()
      ensures old(BadPid(pid)) ==> r == SYSERR && State() == old(State())
      ensures !old(BadPid(pid)) ==>
                && r == OK && Typed(old(State())) && Core(Made(old(State()), setprio, pid))
                && State() == Done(Made(old(State()), setprio, pid), setprio)
                && (!waking && resetting == -1 ==> SysInv(State())) && proctab[pid].prio == setprio[pid]
    {
      hide Core, SysInv, Made, Done, TabOk, PrioOk;
      if BadPid(pid) {
        return SYSERR;
      }
      ghost var s := State();
      Basics(s);
      MadeCore(s, setprio, pid);
      MadePrio(s, setprio, pid);
      JoinReady(pid);
      Resched();
      return OK;
    }

    method ReschedCntl(defer: int) returns (r: int)
      requires Valid()
      modifies this`queuetab, this`lists, this`proctab, this`currpid, this`readycount, this`attempt, this`preempt,
               this`ndefers
      ensures Valid()
      ensures defer == DEFER_START ==> r == OK && State() == Started(old(State()))
      ensures defer == DEFER_STOP && old(ndefers) > 0 ==> r == OK && State() == Stopped(old(State()), setprio)
      ensures (defer == DEFER_STOP && old(ndefers) <= 0) || (defer != DEFER_START && defer != DEFER_STOP) ==>
                r == SYSERR && State() == old(State())
    {
      if defer == DEFER_START {
        StartDefer();
        return OK;
      } else if defer == DEFER_STOP {
        if ndefers <= 0 {
          return SYSERR;
        }
        StopDefer();
        return OK;
      } else {
        return SYSERR;
      }
    }

    method StartDefer()
      requires Live()
      modifies this`ndefers, this`attempt
      ensures Live() && State() == Started(old(State())) && ndefers > 0
    {
      ghost var s := State();
      StartedInv(s);
      hide SysInv;
      if ndefers == 0 {
        attempt := false;
      }
      ndefers := ndefers + 1;
      assert State() == Started(s);
    }

    method StopDefer()
      requires Live() && ndefers > 0
      modifies this`queuetab, this`lists, this`proctab, this`currpid, this`readycount, this`attempt, this`preempt,
               this`ndefers
      ensures Live() && State() == Stopped(old(State()), setprio)
    {
      hide Core, Done, TabOk, PrioOk;
      ghost var s := State();
      StoppedInv(s, setprio);
      Recount(s, s.(ndefers := s.ndefers - 1));
      ndefers := ndefers - 1;
      if ndefers == 0 && attempt {
        Resched();
      }
    }

    // ---- Semaphores ------------------------------------------------------------------

    predicate BadSem(sem: int)
      requires |semtab| == NSEM
      reads this
    {
      sem < 0 || sem >= NSEM || !semtab[sem].used
    }

    /** The part of wait that blocks the caller. */
    method Block(sem: int)
      requires Wired() && IsSem(sem) && semtab[sem].queue == SemQueue(sem) && Typed(State()) && SemQueue(sem) in lists
      requires OnNone(lists, currpid) && semtab[sem].count <= 0
      modifies this`queuetab, this`lists, this`proctab, this`semtab
      ensures Wired() && State() == Blocked(old(State()), sem)
    {
      ghost var s := State();
      semtab := semtab[sem := semtab[sem].(count := semtab[sem].count - 1)];
      proctab := proctab[currpid := proctab[currpid].(state := PrWait)];
      proctab := proctab[currpid := proctab[currpid].(sem := sem)];
      var _ := Enqueue(currpid, semtab[sem].queue);
      assert State() == Blocked(s, sem);
    }

    method Wait(sem: int) returns (r: int)
      requires Valid() && currpid != NULLPROC && proctab[currpid].state == PrCurr
      modifies this`queuetab, this`lists, this`proctab, this`currpid, this`readycount, this`attempt, this`preempt,
               this`semtab
      ensures Valid()
      ensures r == SYSERR <==> old(BadSem(sem))
      ensures r == SYSERR ==> State() == old(State())
      ensures r != SYSERR ==>
                && r == OK && Typed(old(State())) && HasSem(old(State()), sem) && Core(Waited(old(State()), sem))
                && State() == if old(semtab[sem].count) - 1 < 0 then Done(Waited(old(State()), sem), setprio)
                    else Waited(old(State()), sem)
      // the caller that must wait is last in the queue, and no other queue of waiters changes
      ensures r != SYSERR ==> WaitDid(old(State()), State(), sem)
      ensures r != SYSERR && old(semtab[sem].count) <= 0 ==>
                lists[SemQueue(sem)] == old(lists)[SemQueue(sem)] + [old(currpid)]
    {
      hide Core, Waited, TabOk, PrioOk, OnNone, Made, Resch, Done;
      if BadSem(sem) {
        return SYSERR;
      }
      ghost var s := State();
      WaitedInv(s, sem);
      WaitEffect(s, setprio, sem);
      OnNoListIf(s);
      WaitedRuns(s, sem);
      SemQueues(s);
      if semtab[sem].count - 1 < 0 {
        Block(sem);
        WaitedIs(s, sem);
        Resched();
      } else {
        semtab := semtab[sem := semtab[sem].(count := semtab[sem].count - 1)];
        WaitedIs(s, sem);
      }
      r := OK;
    }

    lemma WaitedIs(s: Sys, sem: int)
      requires Typed(s) && HasSem(s, sem)
      ensures Waited(s, sem) == if s.sem[sem].count - 1 < 0 then Blocked(s, sem) else AddCount(s, sem, -1)
    {
    }

    lemma WaitedRuns(s: Sys, sem: int)
      requires SysInv(s) && HasSem(s, sem) && Typed(s) && Core(Waited(s, sem)) && s.proc[s.curr].state == PrCurr
      ensures !Waited(s, sem).waking && Waited(s, sem).resetting == -1
      ensures s.sem[sem].count - 1 >= 0 ==> SysInv(Waited(s, sem))
    {
      hide Core;
    }

    lemma SemQueues(s: Sys)
      requires Core(s)
      ensures |s.sem| == NSEM && forall i :: 0 <= i < NSEM ==> s.sem[i].queue == SemQueue(i)
    {
    }

    /** The longest waiting process leaves the queue. */
    method Pop(sem: int) returns (pid: int)
      requires Wired() && HasSem(State(), sem) && semtab[sem].queue == SemQueue(sem) && lists[SemQueue(sem)] != []
      modifies this`queuetab, this`lists, this`semtab
      ensures Wired() && State() == Popped(old(State()), sem) && pid == old(lists)[SemQueue(sem)][0]
      ensures |old(semtab)| == NSEM
      ensures semtab == old(semtab)[sem := old(semtab)[sem].(count := old(semtab)[sem].count + 1)]
    {
      ghost var s := State();
      semtab := semtab[sem := semtab[sem].(count := semtab[sem].count + 1)];
      pid := Dequeue(semtab[sem].queue);
      assert State() == Popped(s, sem);
    }

    /** signal, for a semaphore that may be free. */
    method SignalOne(sem: int)
      requires Wired() && Core(State()) && resetting == -1 && (waking ==> ndefers > 0) && IsSem(sem)
      modifies this`queuetab, this`lists, this`proctab, this`currpid, this`readycount, this`attempt, this`preempt,
               this`semtab
      ensures Wired() && Typed(old(State())) && HasSem(old(State()), sem)
      ensures old(semtab[sem].count) < 0 ==> old(lists)[SemQueue(sem)] != [] && Pid(old(lists)[SemQueue(sem)][0])
      ensures Core(Signalled(old(State()), setprio, sem))
      ensures State() == if old(semtab[sem].count) < 0 then Done(Signalled(old(State()), setprio, sem), setprio)
                         else Signalled(old(State()), setprio, sem)
      ensures old(semtab[sem].count) < 0 && !waking ==> SysInv(State())
      ensures |old(semtab)| == NSEM
      ensures semtab == old(semtab)[sem := old(semtab)[sem].(count := old(semtab)[sem].count + 1)]
    {
      hide Core, CoreBut, Made, Done, SysInv, Popped, TabOk, PrioOk;
      ghost var s := State();
      SignalledInv(s, setprio, sem);
      SemQueues(s);
      if semtab[sem].count < 0 {
        PoppedInv(s, sem);
        PoppedWaits(s, sem);
        var pid := Pop(sem);
        PoppedBasics(s, sem);
        var _ := Ready(pid);
      } else {
        semtab := semtab[sem := semtab[sem].(count := semtab[sem].count + 1)];
      }
    }

    lemma PoppedBasics(s: Sys, sem: int)
      requires HasSem(s, sem) && s.lists[SemQueue(sem)] != []
      ensures Popped(s, sem).proc == s.proc
    {
    }

    /** The first waiting process is not free. */
    lemma PoppedWaits(s: Sys, sem: int)
      requires Core(s) && HasSem(s, sem) && s.lists[SemQueue(sem)] != [] && Pid(s.lists[SemQueue(sem)][0])
      ensures s.proc[s.lists[SemQueue(sem)][0]].state != PrFree
    {
      assert AtHome(s, s.lists[SemQueue(sem)][0]);
    }

    method Signal(sem: int) returns (r: int)
      requires Valid()
      modifies this`queuetab, this`lists, this`proctab, this`currpid, this`readycount, this`attempt, this`preempt,
               this`semtab
      ensures Valid()
      ensures r == SYSERR <==> old(BadSem(sem))
      ensures r == SYSERR ==> State() == old(State())
      ensures r != SYSERR ==>
                && r == OK && Typed(old(State())) && HasSem(old(State()), sem)
                && (old(semtab[sem].count) < 0 ==> old(lists)[SemQueue(sem)] != [] && Pid(old(lists)[SemQueue(sem)][0]))
                && Core(Signalled(old(State()), setprio, sem))
                && State() == if old(semtab[sem].count) < 0 then Done(Signalled(old(State()), setprio, sem), setprio)
                              else Signalled(old(State()), setprio, sem)
      // the first in the queue, if any, is released
      ensures r != SYSERR ==> SignalDid(old(State()), State(), sem)
    {
      hide Core, Signalled, Done, TabOk, PrioOk, SignalDid;
      if BadSem(sem) {
        return SYSERR;
      }
      ghost var s := State();
      SignalRuns(s, setprio, sem);
      PrioCount(setprio);
      SignalledInv(s, setprio, sem);
      SignalEffect(s, setprio, sem);
      SignalOne(sem);
      r := OK;
    }

    lemma SignalRuns(s: Sys, sp: seq<int>, sem: int)
      requires SysInv(s) && IsSem(sem) && PrioOk(sp)
      ensures Typed(s) && HasSem(s, sem)
      ensures s.sem[sem].count >= 0 ==> SysInv(Signalled(s, sp, sem))
    {
      SignalledInv(s, sp, sem);
      hide Core;
    }

    method Signaln(sem: int, count: int) returns (r: int)
      requires Valid()
      modifies this`queuetab, this`lists, this`proctab, this`currpid, this`readycount, this`attempt, this`preempt,
               this`semtab, this`ndefers
      ensures Valid()
      ensures r == SYSERR <==> old(BadSem(sem)) || count < 0
      ensures r == SYSERR ==> State() == old(State())
      ensures r != SYSERR ==>
                && r == OK && SysInv(Started(old(State())))
                && SysInv(Released(Started(old(State())), setprio, sem, count))
                && State() == Stopped(Released(Started(old(State())), setprio, sem, count), setprio)
      ensures r != SYSERR ==> Typed(old(State())) && ReleaseDid(old(State()), State(), sem, count)
    {
      hide Core, SysInv, Released, Signalled, TabOk, PrioOk, ReleaseDid;
      if BadSem(sem) || count < 0 {
        return SYSERR;
      }
      ghost var s0 := State();
      RunsNow(s0);
      StartDefer();
      ghost var s := State();
      ReleasedRuns(s, setprio, sem, 0);
      SignalMany(sem, count);
      ReleasedRuns(s, setprio, sem, count);
      SignalnEffect(s0, setprio, sem, count);
      StopDefer();
      r := OK;
    }

    /** The loop of signaln, while rescheduling is deferred. */
    method SignalMany(sem: int, count0: int)
      requires Live() && IsSem(sem) && 0 <= count0 && ndefers > 0
      modifies this`queuetab, this`lists, this`proctab, this`currpid, this`readycount, this`attempt, this`preempt,
               this`semtab
      ensures Wired() && SysInv(old(State())) && State() == Released(old(State()), setprio, sem, count0)
      ensures |semtab| == |old(semtab)| == NSEM
      ensures semtab == old(semtab)[sem := old(semtab)[sem].(count := semtab[sem].count)]
      ensures semtab[sem].count == old(semtab)[sem].count + count0
    {
      hide SysInv, Released, Signalled, Core, TabOk, PrioOk, HasSem;
      ghost var s := State();
      ghost var n := 0;
      var count := count0;
      SameReleased(s, setprio, sem);
      while count > 0
        invariant 0 <= count <= count0 && n == count0 - count && SysInv(s)
        invariant Wired() && ndefers > 0 && State() == Released(s, setprio, sem, n)
        invariant |semtab| == NSEM
        invariant semtab == old(semtab)[sem := old(semtab)[sem].(count := old(semtab)[sem].count + n)]
      {
        ReleasedNext(s, setprio, sem, n);
        ReleasedDefers(s, setprio, sem, n);
        SignalOne(sem);
        n := n + 1;
        count := count - 1;
      }
    }

    lemma SameReleased(s: Sys, sp: seq<int>, sem: int)
      requires SysInv(s) && IsSem(sem) && PrioOk(sp)
      ensures Core(s) && s.resetting == -1 && Released(s, sp, sem, 0) == s
    {
    }

    lemma ReleasedDefers(s: Sys, sp: seq<int>, sem: int, n: nat)
      requires SysInv(s) && IsSem(sem) && PrioOk(sp)
      ensures Core(Released(s, sp, sem, n))
      ensures Released(s, sp, sem, n).resetting == -1 && !Released(s, sp, sem, n).waking
    {
    }

    /** One turn of the loop in semreset; EMPTY when nobody waits any more. */
    method DrainNext(sem: int) returns (pid: int)
      requires Wired() && Core(State()) && IsSem(sem)
      requires resetting == sem && ndefers > 0 && semtab[sem].queue == SemQueue(sem)
      modifies this`queuetab, this`lists, this`proctab, this`currpid, this`readycount, this`attempt, this`preempt
      ensures Wired() && Typed(old(State())) && HasSem(old(State()), sem) && Pids(old(lists)[SemQueue(sem)])
      ensures pid == EMPTY <==> old(lists)[SemQueue(sem)] == []
      ensures pid == EMPTY ==> State() == old(State())
      ensures pid != EMPTY ==> State() == DrainOne(old(State()), setprio, sem)
    {
      ghost var s := State();
      DrainBasics(s, sem);
      pid := Getfirst(semtab[sem].queue);
      if pid != EMPTY {
        FirstDrained(s, sem);
        hide Core, CoreBut, Made;
        var _ := Ready(pid);
        DeferredRequest(Made(DropAt(s, SemQueue(sem), 0), setprio, pid), setprio);
      }
    }

    /** The loop of semreset. */
    method DrainAll(sem: int)
      requires Wired() && Core(State()) && IsSem(sem) && resetting == sem && ndefers > 0
      modifies this`queuetab, this`lists, this`proctab, this`currpid, this`readycount, this`attempt, this`preempt
      ensures Wired() && HasSem(old(State()), sem) && semtab[sem].queue == SemQueue(sem)
      ensures State() == Drained(old(State()), setprio, sem, |old(lists)[SemQueue(sem)]|)
    {
      hide Core, DrainOne, DrainDoes, TabOk, PrioOk;
      ghost var s := State();
      DrainBasics(s, sem);
      SemQueues(s);
      ghost var n := 0;
      var more := true;
      assert State() == Drained(s, setprio, sem, 0);
      while more
        invariant 0 <= n <= |s.lists[SemQueue(sem)]| && Wired() && ndefers > 0
        invariant State() == Drained(s, setprio, sem, n)
        invariant !more ==> n == |s.lists[SemQueue(sem)]|
        decreases |s.lists[SemQueue(sem)]| - n, more
      {
        DrainTurn(s, setprio, sem, n);
        var pid := DrainNext(sem);
        if pid == EMPTY {
          more := false;
        } else {
          n := n + 1;
        }
      }
    }

    lemma DrainTurn(s: Sys, sp: seq<int>, sem: int, n: nat)
      requires Core(s) && s.resetting == sem && IsSem(sem)
      requires PrioOk(sp) && HasSem(s, sem) && n <= |s.lists[SemQueue(sem)]|
      ensures var r := Drained(s, sp, sem, n);
              && Core(r) && r.resetting == sem && r.ndefers == s.ndefers && r.sem == s.sem
              && HasSem(r, sem) && (r.lists[SemQueue(sem)] == [] <==> n == |s.lists[SemQueue(sem)]|)
              && (n < |s.lists[SemQueue(sem)]| ==>
                    Typed(r) && Pids(r.lists[SemQueue(sem)]) && Drained(s, sp, sem, n + 1) == DrainOne(r, sp, sem))
    {
      DrainBasics(Drained(s, sp, sem, n), sem);
      hide Core, DrainOne;
    }

    method Semreset(sem: int, count: int) returns (r: int)
      requires Valid()
      modifies this`queuetab, this`lists, this`proctab, this`currpid, this`readycount, this`attempt, this`preempt,
               this`semtab, this`ndefers, this`resetting
      ensures Valid()
      ensures r == SYSERR <==> old(BadSem(sem)) || count < 0
      ensures r == SYSERR ==> State() == old(State())
      ensures r != SYSERR ==>
                && r == OK && SysInv(Started(old(State())))
                && SysInv(Emptied(Started(old(State())), setprio, sem, count))
                && State() == Stopped(Emptied(Started(old(State())), setprio, sem, count), setprio)
      ensures r != SYSERR ==>
                semtab == old(semtab)[sem := old(semtab)[sem].(count := count)]
                && SemQueue(sem) in lists && lists[SemQueue(sem)] == []
    {
      hide Core, Drained, DrainDoes, TabOk, PrioOk, Pids, Done;
      if count < 0 || BadSem(sem) {
        return SYSERR;
      }
      ghost var s0 := State();
      RunsNow(s0);
      StartDefer();
      ghost var s := State();
      SemresetEffect(s0, setprio, sem, count);
      ResettingInv(s, sem);
      DrainBasics(s, sem);
      resetting := sem;
      DrainAll(sem);
      semtab := semtab[sem := semtab[sem].(count := count)];
      resetting := -1;
      assert State() == Emptied(s, setprio, sem, count);
      StopDefer();
      r := OK;
    }

    method Semdelete(sem: int) returns (r: int)
      requires Valid()
      modifies this`queuetab, this`lists, this`proctab, this`currpid, this`readycount, this`attempt, this`preempt,
               this`semtab, this`ndefers
      ensures Valid()
      ensures r == SYSERR <==> old(BadSem(sem))
      ensures r == SYSERR ==> State() == old(State())
      ensures r != SYSERR ==>
                && r == OK && SysInv(Started(old(State()))) && SysInv(Deleted(Started(old(State())), setprio, sem))
                && State() == Stopped(Deleted(Started(old(State())), setprio, sem), setprio)
      ensures r != SYSERR ==>
                && |semtab| == |old(semtab)| == NSEM && !semtab[sem].used
                && SemQueue(sem) in lists && lists[SemQueue(sem)] == []
                && forall i :: IsSem(i) && i != sem ==> semtab[i] == old(semtab)[i]
    {
      hide Core, SysInv, Released, AllReleased, TabOk, PrioOk, Shape, ReadySorted, Made;
      if BadSem(sem) {
        return SYSERR;
      }
      ghost var s := State();
      RunsNow(s);
      FreedInv(s, sem);
      StartedInv(s);
      SemdeleteEffect(s, setprio, sem);
      FreedInv(Started(s), sem);
      semtab := semtab[sem := semtab[sem].(used := false)];
      StartDefer();
      ReleaseWaiting(sem);
      semtab := semtab[sem := semtab[sem].(count := semtab[sem].count + 1)];
      assert State() == Deleted(Started(s), setprio, sem);
      StopDefer();
      r := OK;
    }

    /** The loop of semdelete, up to the last test of the count. */
    method ReleaseWaiting(sem: int)
      requires Live() && IsSem(sem) && ndefers > 0
      modifies this`queuetab, this`lists, this`proctab, this`currpid, this`readycount, this`attempt, this`preempt,
               this`semtab
      ensures Wired() && SysInv(old(State()))
      ensures State() == Released(old(State()), setprio, sem, Max(0, -old(semtab[sem].count)))
      ensures |semtab| == |old(semtab)| == NSEM
      ensures semtab == old(semtab)[sem := old(semtab)[sem].(count := semtab[sem].count)]
      ensures semtab[sem].count >= 0
    {
      hide SysInv, Released, Signalled, Core, TabOk, PrioOk, HasSem;
      ghost var s, n := State(), 0;
      SameReleased(s, setprio, sem);
      ghost var k := Max(0, -semtab[sem].count);
      while semtab[sem].count < 0
        invariant 0 <= n <= k && SysInv(s) && Wired() && ndefers > 0 && State() == Released(s, setprio, sem, n)
        invariant semtab[sem].count == s.sem[sem].count + n
        invariant |semtab| == NSEM && semtab == old(semtab)[sem := old(semtab)[sem].(count := semtab[sem].count)]
        decreases k - n
      {
        ReleasedNext(s, setprio, sem, n);
        ReleasedDefers(s, setprio, sem, n);
        ReleasedCount(s, setprio, sem, n + 1);
        SignalOne(sem);
        n := n + 1;
      }
    }

    lemma ReleasedCount(s: Sys, sp: seq<int>, sem: int, n: nat)
      requires SysInv(s) && IsSem(sem) && PrioOk(sp)
      ensures |s.sem| == NSEM == |Released(s, sp, sem, n).sem|
      ensures Released(s, sp, sem, n).sem[sem].count == s.sem[sem].count + n
    {
      ReleasesInOrder(s, sp, sem, n);
      hide Core, Released;
    }

    // ---- Sleep and the clock -----------------------------------------------------------

    /** unsleep, for a process whose state says that it is on the sleep queue. */
    method Unsleep(pid: int) returns (r: int)
      requires Wired() && Typed(State())
      requires !BadPid(pid) && (proctab[pid].state == PrSleep || proctab[pid].state == PrRectim) ==>
                 pid in lists[SLEEPQ]
      modifies this`queuetab, this`lists
      ensures Wired()
      ensures r == SYSERR <==> BadPid(pid) || !(proctab[pid].state == PrSleep || proctab[pid].state == PrRectim)
      ensures r == SYSERR ==> State() == old(State())
      ensures r != SYSERR ==> r == OK && State() == Unslept(old(State()), pid)
      ensures r != SYSERR ==> WakesUp(old(State()), State(), pid)
    {
      if BadPid(pid) {
        return SYSERR;
      }
      if proctab[pid].state != PrSleep && proctab[pid].state != PrRectim {
        return SYSERR;
      }
      assert IsList(queuetab, SLEEPQ, lists[SLEEPQ]);
      ghost var s, l, i := State(), lists[SLEEPQ], IndexOf(lists[SLEEPQ], pid);
      AtPlace(queuetab, lists, SLEEPQ, i);
      AtPlace(queuetab, lists, SLEEPQ, i + 1);
      var pidnext := queuetab[pid].qnext;
      if pidnext < NPROC {
        RekeyedOne(pidnext, queuetab[pidnext].qkey + queuetab[pid].qkey);
        queuetab := queuetab[pidnext := queuetab[pidnext].(qkey := queuetab[pidnext].qkey + queuetab[pid].qkey)];
      }
      assert KeysOf(queuetab) == UnslKeys(s.keys, l, i);
      var _ := Getitem(pid, SLEEPQ, i);
      assert State() == Unslept(s, pid);
      UnsleptDid(s, pid);
      return OK;
    }

    /** The caller goes to the sleep queue in state `st`. */
    method GoToSleep(delay: int, st: PrState)
      requires Wired() && Typed(State()) && OnNone(lists, currpid) && proctab[currpid].state == PrCurr
      modifies this`queuetab, this`lists, this`proctab, this`stalled
      ensures Wired() && State() == Slept(old(State()), delay, st)
    {
      hide TabOk, PrioOk, InsdKeys, Passed, OnNone, Allocated, Pids, PutAt;
      ghost var s := State();
      stalled := stalled || delay == 0;
      var _ := Insertd(currpid, SLEEPQ, delay);
      proctab := proctab[currpid := proctab[currpid].(state := st)];
      assert State() == Slept(s, delay, st);
    }

    /** sleepms; a delay of 0 is a yield. */
    method Sleepms(delay: int) returns (r: int)
      requires Valid() && 0 <= delay < 0x8000_0000 && currpid != NULLPROC && proctab[currpid].state == PrCurr
      modifies this`queuetab, this`lists, this`proctab, this`currpid, this`readycount, this`attempt, this`preempt,
               this`stalled
      ensures Valid() && r == OK && Core(old(State())) && Typed(old(State()))
      ensures delay == 0 ==> State() == Done(old(State()), setprio)
      ensures delay != 0 ==>
                && Core(Slept(old(State()), delay, PrSleep))
                && State() == Done(Slept(old(State()), delay, PrSleep), setprio)
      // the caller sleeps for `delay` ticks, and nobody else for another time than before
      ensures delay != 0 ==> SleepDid(old(State()), State(), delay)
    {
      hide Core, Slept, TabOk, PrioOk, OnNone, Done, SleepDid;
      ghost var s := State();
      CoreBasics(s);
      if delay == 0 {
        Resched();
        return OK;
      }
      SleptInv(s, delay, PrSleep);
      SleepEffect(s, setprio, delay, PrSleep);
      OnNoListIf(s);
      SleptRest(s, delay, PrSleep);
      GoToSleep(delay, PrSleep);
      Resched();
      return OK;
    }

    lemma SleptRest(s: Sys, key: int, st: PrState)
      requires Typed(s)
      ensures Slept(s, key, st).waking == s.waking && Slept(s, key, st).resetting == s.resetting
    {
    }

    /** recvtime up to the point where the caller runs again: it waits at most `maxwait`
        ticks unless a message is there. */
    method Recvtime(maxwait: int) returns (r: int)
      requires Valid() && -0x8000_0000 <= maxwait < 0x8000_0000
      requires currpid != NULLPROC && proctab[currpid].state == PrCurr
      modifies this`queuetab, this`lists, this`proctab, this`currpid, this`readycount, this`attempt, this`preempt,
               this`stalled
      ensures Valid() && (r == SYSERR <==> maxwait < 0) && (r != SYSERR ==> r == OK)
      ensures maxwait < 0 || old(proctab[currpid].hasmsg) ==> State() == old(State())
      ensures maxwait >= 0 && !old(proctab[currpid].hasmsg) ==>
                && Typed(old(State())) && Core(Slept(old(State()), maxwait, PrRectim))
                && State() == Done(Slept(old(State()), maxwait, PrRectim), setprio)
      ensures maxwait >= 0 && !old(proctab[currpid].hasmsg) ==> SleepDid(old(State()), State(), maxwait)
    {
      hide Core, Slept, TabOk, PrioOk, OnNone, Done, SleepDid;
      if maxwait < 0 {
        return SYSERR;
      }
      ghost var s := State();
      CoreBasics(s);
      if !proctab[currpid].hasmsg {
        SleptInv(s, maxwait, PrRectim);
        SleepEffect(s, setprio, maxwait, PrRectim);
        OnNoListIf(s);
        SleptRest(s, maxwait, PrRectim);
        GoToSleep(maxwait, PrRectim);
        Resched();
      }
      return OK;
    }

    /** The end of recvtime, when process `pid` runs again. */
    method RecvtimeEnd(pid: int) returns (msg: int)
      requires Valid() && pid == currpid
      modifies this`proctab
      ensures Valid() && Pid(pid)
      ensures msg == if old(proctab[pid].hasmsg) then old(proctab[pid].msg) else TIMEOUT
      ensures State() == if old(proctab[pid].hasmsg) then Messaged(old(State()), pid, false, msg) else old(State())
    {
      MessagedRuns(State(), pid, false, proctab[pid].msg);
      hide SysInv, TabOk, PrioOk;
      if proctab[pid].hasmsg {
        msg := proctab[pid].msg;
        proctab := proctab[pid := proctab[pid].(hasmsg := false)];
      } else {
        msg := TIMEOUT;
      }
    }

    lemma MessagedRuns(s: Sys, pid: int, has: bool, msg: int)
      requires SysInv(s) && Pid(pid)
      ensures |s.proc| == NPROC && SysInv(Messaged(s, pid, has, msg))
    {
      MessagedInv(s, pid, has, msg);
    }

    /** receive up to the point where the caller runs again. */
    method Receive()
      requires Valid() && currpid != NULLPROC && proctab[currpid].state == PrCurr
      modifies this`queuetab, this`lists, this`proctab, this`currpid, this`readycount, this`attempt, this`preempt
      ensures Valid()
      ensures old(proctab[currpid].hasmsg) ==> State() == old(State())
      ensures !old(proctab[currpid].hasmsg) ==>
                && |old(State()).proc| == NPROC && Core(SetState(old(State()), old(currpid), PrRecv))
                && State() == Done(SetState(old(State()), old(currpid), PrRecv), setprio)
    {
      hide Core, CoreBut, TabOk, PrioOk, Done;
      if !proctab[currpid].hasmsg {
        ghost var s := State();
        CurrIsOut(s);
        ParkedInv(s, s.curr, PrRecv);
        proctab := proctab[currpid := proctab[currpid].(state := PrRecv)];
        Resched();
      }
    }

    lemma CurrIsOut(s: Sys)
      requires Core(s) && Pid(s.curr) && |s.proc| == NPROC && s.proc[s.curr].state == PrCurr
      ensures CoreBut(s, s.curr)
    {
      OnNoList(s, s.curr);
    }

    /** The end of receive, when process `pid` runs again. */
    method ReceiveEnd(pid: int) returns (msg: int)
      requires Valid() && pid == currpid
      modifies this`proctab
      ensures Valid() && Pid(pid) && msg == old(proctab[pid].msg) && State() == Messaged(old(State()), pid, false, msg)
    {
      MessagedRuns(State(), pid, false, proctab[pid].msg);
      hide SysInv, TabOk, PrioOk;
      msg := proctab[pid].msg;
      proctab := proctab[pid := proctab[pid].(hasmsg := false)];
    }

    method Send(pid: int, msg: int) returns (r: int)
      requires Valid()
      modifies this`queuetab, this`lists, this`proctab, this`currpid, this`readycount, this`attempt, this`preempt
      ensures Valid()
      ensures r == SYSERR <==> old(BadPid(pid)) || old(proctab[pid].hasmsg)
      ensures r == SYSERR ==> State() == old(State())
      ensures r != SYSERR ==>
                && r == OK && Typed(old(State())) && (old(proctab[pid].state) == PrRectim ==> pid in old(lists)[SLEEPQ])
                && Core(Sent(old(State()), setprio, pid, msg))
                && State() == if old(proctab[pid].state) == PrRecv || old(proctab[pid].state) == PrRectim
                              then Done(Sent(old(State()), setprio, pid, msg), setprio)
                                  else Sent(old(State()), setprio, pid, msg)
      // the message is there, and nobody else's is another one
      ensures r != SYSERR ==> SendDid(old(State()), State(), pid, msg)
      ensures r != SYSERR ==> proctab[pid].hasmsg && proctab[pid].msg == msg
    {
      hide Core, CoreBut, Made, Unslept, TabOk, PrioOk, Done, OnNone, SendDid;
      if BadPid(pid) {
        return SYSERR;
      }
      if proctab[pid].hasmsg {
        return SYSERR;
      }
      ghost var s := State();
      SentInv(s, setprio, pid, msg);
      SendEffect(s, setprio, pid, msg);
      MessagedRuns(s, pid, true, msg);
      proctab := proctab[pid := proctab[pid].(msg := msg)];
      proctab := proctab[pid := proctab[pid].(hasmsg := true)];
      ghost var m := State();
      assert m == Messaged(s, pid, true, msg);
      if proctab[pid].state == PrRecv {
        IsOut(m, pid);
        var _ := Ready(pid);
      } else if proctab[pid].state == PrRectim {
        UnsleptInv(m, pid);
        UnsleptSame(m, pid);
        WakeReceiver(pid, Unslept(m, pid));
      }
      MailIs(s, State(), pid, msg);
      return OK;
    }

    /** The part of send for a process that waits with a timeout. */
    method WakeReceiver(pid: int, ghost u: Sys)
      requires Live() && Pid(pid) && proctab[pid].state == PrRectim && Typed(State()) && pid in lists[SLEEPQ]
      requires u == Unslept(State(), pid) && Typed(u) && CoreBut(u, pid) && u.proc == proctab
      requires !u.waking && u.resetting == -1
      modifies this`queuetab, this`lists, this`proctab, this`currpid, this`readycount, this`attempt, this`preempt
      ensures Live() && Core(Made(u, setprio, pid)) && State() == Done(Made(u, setprio, pid), setprio)
    {
      hide Core, CoreBut, Made, Unslept, TabOk, PrioOk, Done;
      var _ := Unsleep(pid);
      assert State() == u;
      var _ := Ready(pid);
    }

    lemma IsOut(s: Sys, pid: int)
      requires Core(s) && Pid(pid) && |s.proc| == NPROC && Home(s.proc[pid]) == EMPTY
      ensures CoreBut(s, pid)
    {
      OnNoList(s, pid);
    }

    lemma UnsleptSame(s: Sys, pid: int)
      requires Typed(s) && pid in s.lists[SLEEPQ]
      ensures Typed(Unslept(s, pid))
      ensures var t := Unslept(s, pid);
              t.proc == s.proc && t.waking == s.waking && t.resetting == s.resetting && t.ndefers == s.ndefers
    {
    }

    /** The loop of wakeup. */
    method WakeLoop()
      requires Wired() && Core(State()) && waking && resetting == -1 && ndefers > 0
      modifies this`queuetab, this`lists, this`proctab, this`currpid, this`readycount, this`attempt, this`preempt
      ensures Wired() && Core(old(State())) && Typed(old(State())) && |setprio| == NPROC
      ensures State() == Woken(old(State()), setprio, Expired(old(State()).keys, old(lists)[SLEEPQ]))
    {
      hide Core, TabOk, PrioOk, WokeOne, Woken, WokenDoes, Expired, ReadySorted;
      ghost var s, n := State(), 0;
      PrioCount(setprio);
      CoreBasics(s);
      ghost var k := Expired(s.keys, s.lists[SLEEPQ]);
      LoopTest(s, 0);
      while queuetab[SLEEPQ].qnext < NPROC && queuetab[queuetab[SLEEPQ].qnext].qkey <= 0
        invariant 0 <= n <= k && Wired() && State() == Woken(s, setprio, n)
        invariant ndefers > 0 && waking && resetting == -1 && Core(State())
        invariant 0 <= queuetab[SLEEPQ].qnext < NQENT
        invariant queuetab[SLEEPQ].qnext < NPROC && queuetab[queuetab[SLEEPQ].qnext].qkey <= 0 <==> n < k
        decreases k - n
      {
        LoopTest(s, n);
        WakeOneReady();
        n := n + 1;
        LoopTest(s, n);
      }
    }

    lemma LoopTest(s: Sys, n: nat)
      requires Wired() && Core(s) && s.waking && s.resetting == -1 && Typed(s) && |setprio| == NPROC
      requires n <= Expired(s.keys, s.lists[SLEEPQ])
      requires (n == 0 && State() == s) || State() == Woken(s, setprio, n)
      ensures State() == Woken(s, setprio, n) && Core(State()) && waking && resetting == -1 && ndefers == s.ndefers
      ensures 0 <= queuetab[SLEEPQ].qnext < NQENT
      ensures queuetab[SLEEPQ].qnext < NPROC && queuetab[queuetab[SLEEPQ].qnext].qkey <= 0
              <==> n < Expired(s.keys, s.lists[SLEEPQ])
      ensures n < Expired(s.keys, s.lists[SLEEPQ]) ==>
                SLEEPQ in lists && lists[SLEEPQ] != [] && Woken(s, setprio, n + 1) == WokeOne(State(), setprio)
    {
      hide Core, TabOk, PrioOk, WokeOne, Woken, Expired;
      WakeTurn(s, setprio, n);
      FirstKey();
    }

    /** What the test of the loop in wakeup reads. */
    lemma FirstKey()
      requires Wired()
      ensures SLEEPQ in lists && Pids(lists[SLEEPQ]) && 0 <= queuetab[SLEEPQ].qnext < NQENT
      ensures queuetab[SLEEPQ].qnext < NPROC <==> lists[SLEEPQ] != []
      ensures lists[SLEEPQ] != [] ==> queuetab[SLEEPQ].qnext == lists[SLEEPQ][0]
    {
      AtPlace(queuetab, lists, SLEEPQ, 0);
    }

    lemma WakeTurn(s: Sys, sp: seq<int>, n: nat)
      requires Core(s) && s.waking && s.resetting == -1
      requires PrioOk(sp) && Typed(s) && n <= Expired(s.keys, s.lists[SLEEPQ])
      ensures |sp| == NPROC
      ensures var r := Woken(s, sp, n);
              && (n == 0 ==> r == s)
              && Core(r) && Typed(r) && r.waking && r.ndefers == s.ndefers && r.resetting == -1
              && (n < Expired(s.keys, s.lists[SLEEPQ]) <==> r.lists[SLEEPQ] != [] && r.keys[r.lists[SLEEPQ][0]] <= 0)
              && (n < Expired(s.keys, s.lists[SLEEPQ]) ==> Woken(s, sp, n + 1) == WokeOne(r, sp))
    {
      ExpiredIs(s.keys, s.lists[SLEEPQ], n);
      WokenInv(s, sp, n);
      hide Core, WokeOne;
    }

    /** One turn of the loop: ready(dequeue(sleepq)). */
    method WakeOneReady()
      requires Wired() && Core(State()) && waking && resetting == -1
      requires ndefers > 0 && SLEEPQ in lists && lists[SLEEPQ] != []
      modifies this`queuetab, this`lists, this`proctab, this`currpid, this`readycount, this`attempt, this`preempt
      ensures Wired() && Typed(old(State())) && State() == WokeOne(old(State()), setprio)
    {
      hide Core, CoreBut, Made, TabOk, PrioOk;
      ghost var s := State();
      FirstOutInv(s);
      SleeperState(s);
      var pid := Dequeue(SLEEPQ);
      var _ := Ready(pid);
      DeferredRequest(Made(DropAt(s, SLEEPQ, 0), setprio, pid), setprio);
    }

    lemma SleeperState(s: Sys)
      requires Core(s) && SLEEPQ in s.lists && s.lists[SLEEPQ] != []
      ensures Pid(s.lists[SLEEPQ][0]) && |s.proc| == NPROC && s.proc[s.lists[SLEEPQ][0]].state != PrFree
    {
      assert AtHome(s, s.lists[SLEEPQ][0]);
    }

    /** wakeup, called when the first key has come down to 0. */
    method Wakeup()
      requires Wired() && Core(State()) && waking && resetting == -1
      requires proctab[currpid].state == PrCurr || (ndefers > 0 && attempt)
      modifies this`queuetab, this`lists, this`proctab, this`currpid, this`readycount, this`attempt, this`preempt,
               this`ndefers, this`waking
      ensures Live() && Core(Started(old(State()))) && Typed(Started(old(State())))
      ensures SysInv(Woke(Started(old(State())), setprio))
      ensures State() == Stopped(Woke(Started(old(State())), setprio), setprio)
    {
      hide Core, Woken, TabOk, PrioOk, SemsOk, Stopped, Typed;
      ghost var s := State();
      StartedCore(s);
      CoreBasics(Started(s));
      DeeperDefer();
      WakeLoop();
      waking := false;
      assert State() == Woke(Started(s), setprio);
      StopDefer();
    }

    /** resched_cntl(DEFER_START) inside wakeup. */
    method DeeperDefer()
      requires Wired()
      modifies this`ndefers, this`attempt
      ensures Wired() && State() == Started(old(State()))
    {
      if ndefers == 0 {
        attempt := false;
      }
      ndefers := ndefers + 1;
    }

    lemma StartedCore(s: Sys)
      requires Core(s)
      ensures Core(Started(s)) && Started(s).ndefers > 0
    {
      Recount(s, Started(s));
    }

    /** The clock handler on the sleep queue. */
    method Tick()
      requires Valid()
      modifies this`queuetab, this`lists, this`proctab, this`currpid, this`readycount, this`attempt, this`preempt,
               this`ndefers, this`waking
      ensures Valid() && SysInv(old(State())) && Typed(old(State()))
      ensures State() == AfterTick(old(State()), setprio)
      ensures !old(stalled) && old(lists)[SLEEPQ] != [] ==> TickDid(old(State()), State())
    {
      hide Core, SysInv, TabOk, PrioOk, Woke, TickDid;
      ghost var s := State();
      RunsNow(s);
      FirstKey();
      if !stalled { TickWakesDue(s, setprio); }
      if queuetab[SLEEPQ].qnext < NPROC {
        TickedInv(s);
        var first := queuetab[SLEEPQ].qnext;
        RekeyedOne(first, Less(queuetab[first].qkey));
        queuetab := queuetab[first := queuetab[first].(qkey := Less(queuetab[first].qkey))];
        waking := queuetab[first].qkey == 0;
        assert KeysOf(queuetab) == Ticked(s).keys;
        assert State() == Ticked(s);
        if queuetab[first].qkey == 0 {
          Wakeup();
        }
        assert State() == AfterTick(s, setprio);
      }
    }

    /** The end of the clock handler: the time slice of the running process. */
    method Preempt()
      requires Valid()
      modifies this`queuetab, this`lists, this`proctab, this`currpid, this`readycount, this`attempt, this`preempt
      ensures Valid() && Core(old(State()))
      ensures State() == if old(preempt) - 1 == 0 then Done(old(State()), setprio) else old(State())
      ensures preempt == if old(preempt) - 1 == 0 then QUANTUM else old(preempt) - 1
    {
      hide Core, TabOk, PrioOk, Done;
      preempt := preempt - 1;
      if preempt == 0 {
        preempt := QUANTUM;
        Resched();
      }
    }

    // ---- suspend, resume and kill ------------------------------------------------------

    /** suspend up to its call of resched if the caller suspends itself; SuspendEnd goes on. */
    method Suspend(pid: int) returns (r: int)
      requires Valid()
      modifies this`queuetab, this`lists, this`proctab, this`currpid, this`readycount, this`attempt, this`preempt,
               this`leaked
      ensures Valid()
      ensures old(BadPid(pid)) || pid == NULLPROC
              || (old(proctab[pid].state) != PrCurr && old(proctab[pid].state) != PrReady) ==>
                r == SYSERR && State() == old(State())
      ensures !old(BadPid(pid)) && pid != NULLPROC && old(proctab[pid].state) == PrReady ==>
                && Typed(old(State())) && pid in old(lists)[READYLIST] && r == old(proctab[pid].prio)
                && State() == SetState(Unready(old(State()), pid), pid, PrSusp)
      ensures !old(BadPid(pid)) && pid != NULLPROC && old(proctab[pid].state) == PrCurr ==>
                && |old(State()).proc| == NPROC && Core(SetState(old(State()), pid, PrSusp))
                && State() == Done(SetState(old(State()), pid, PrSusp), setprio)
    {
      hide Core, CoreBut, Unready, TabOk, PrioOk, Done;
      if BadPid(pid) || pid == NULLPROC {
        return SYSERR;
      }
      if proctab[pid].state != PrCurr && proctab[pid].state != PrReady {
        return SYSERR;
      }
      ghost var s := State();
      if proctab[pid].state == PrReady {
        SuspendReady(pid);
        r := SuspendEnd(pid);
      } else {
        IsOut(s, pid);
        ParkedInv(s, pid, PrSusp);
        proctab := proctab[pid := proctab[pid].(state := PrSusp)];
        assert State() == SetState(s, pid, PrSusp);
        Resched();
        r := BLOCKED;
      }
    }

    /** suspend once the caller runs again: the result is the priority the process has then. */
    method SuspendEnd(pid: int) returns (r: int)
      requires Wired() && Pid(pid)
      ensures r == proctab[pid].prio
    {
      return proctab[pid].prio;
    }

    /** The part of suspend for a ready process. */
    method SuspendReady(pid: int)
      requires Live() && Pid(pid) && pid != NULLPROC && proctab[pid].state == PrReady
      modifies this`queuetab, this`lists, this`proctab, this`leaked
      ensures Live() && Typed(old(State())) && pid in old(lists)[READYLIST]
      ensures proctab[pid].prio == old(proctab[pid].prio)
      ensures State() == SetState(Unready(old(State()), pid), pid, PrSusp)
    {
      hide Core, CoreBut, TabOk, PrioOk;
      ghost var s := State();
      UnreadyInv(s, pid);
      ParkedInv(Unready(s, pid), pid, PrSusp);
      var _ := Getitem(pid, READYLIST, IndexOf(lists[READYLIST], pid));
      leaked := leaked + 1;
      proctab := proctab[pid := proctab[pid].(state := PrSusp)];
      assert State() == SetState(Unready(s, pid), pid, PrSusp);
      UnreadyRuns(s, pid);
    }

    /** Taking a ready process away does not concern the current one. */
    lemma UnreadyRuns(s: Sys, pid: int)
      requires SysInv(s) && Pid(pid) && Typed(s) && pid in s.lists[READYLIST] && s.proc[pid].state == PrReady
      ensures var t := Unready(s, pid);
              && t.proc == s.proc && t.curr == s.curr && t.ndefers == s.ndefers && t.attempt == s.attempt
              && t.waking == s.waking && t.resetting == s.resetting
    {
      hide Core;
    }

    /** resume; the result is the priority from before the process is made ready. */
    method Resume(pid: int) returns (r: int)
      requires Valid()
      modifies this`queuetab, this`lists, this`proctab, this`currpid, this`readycount, this`attempt, this`preempt
      ensures Valid()
      ensures old(BadPid(pid)) || old(proctab[pid].state) != PrSusp ==> r == SYSERR && State() == old(State())
      ensures !old(BadPid(pid)) && old(proctab[pid].state) == PrSusp ==>
                && r == old(proctab[pid].prio) && Typed(old(State())) && Core(Made(old(State()), setprio, pid))
                && State() == Done(Made(old(State()), setprio, pid), setprio)
    {
      hide Core, CoreBut, Made, TabOk, PrioOk, Done;
      if BadPid(pid) {
        return SYSERR;
      }
      if proctab[pid].state != PrSusp {
        return SYSERR;
      }
      ghost var s := State();
      IsOut(s, pid);
      r := proctab[pid].prio;
      var _ := Ready(pid);
    }

    /** kill up to the message to the parent, after which another process may run; the end of
        the last user process halts the processor. */
    method Kill(pid: int) returns (r: int, halted: bool)
      requires Valid()
      modifies this`queuetab, this`lists, this`proctab, this`currpid, this`readycount, this`attempt, this`preempt,
               this`prcount
      ensures Valid() && (r == OK || r == SYSERR)
      ensures r == SYSERR <==> old(BadPid(pid)) || pid == NULLPROC
      ensures prcount == if r == SYSERR then old(prcount) else old(prcount) - 1
      ensures halted <==> r != SYSERR && prcount <= 1
      ensures r == SYSERR || halted ==> State() == old(State())
      ensures r != SYSERR && (old(BadPid(proctab[pid].parent)) || old(proctab[proctab[pid].parent].hasmsg)) ==>
                State() == old(State())
      ensures r != SYSERR && !halted && !old(BadPid(proctab[pid].parent))
              && !old(proctab[proctab[pid].parent].hasmsg) ==>
                var s, p := old(State()), old(proctab[pid].parent);
                && Typed(s) && (s.proc[p].state == PrRectim ==> p in s.lists[SLEEPQ]) && Core(Sent(s, setprio, p, pid))
                && State() == (if s.proc[p].state == PrRecv || s.proc[p].state == PrRectim
                               then Done(Sent(s, setprio, p, pid), setprio) else Sent(s, setprio, p, pid))
                // the parent has the id of the process for a message
                && SendDid(s, State(), p, pid) && proctab[p].hasmsg && proctab[p].msg == pid
    {
      hide SysInv, Core, Sent, TabOk, PrioOk, Done, SendDid;
      if BadPid(pid) || pid == NULLPROC {
        return SYSERR, false;
      }
      prcount := prcount - 1;
      if prcount <= 1 {
        return OK, true;
      }
      var _ := Send(proctab[pid].parent, pid);
      return OK, false;
    }

    /** The end of kill, with the state the process has by then. */
    method KillEnd(pid: int)
      requires Valid() && Pid(pid) && pid != NULLPROC
      modifies this`queuetab, this`lists, this`proctab, this`currpid, this`readycount, this`attempt, this`preempt,
               this`semtab, this`leaked
      ensures Valid() && Typed(old(State())) && Endable(old(State()), pid) && Core(Ended(old(State()), pid))
      ensures State() == if old(proctab[pid].state) == PrCurr then Done(Ended(old(State()), pid), setprio)
                         else Ended(old(State()), pid)
      ensures proctab[pid].state == PrFree
    {
      hide SysInv, Core, CoreBut, TabOk, PrioOk, Done, Ended, Unready, Unwaited, Unslept;
      ghost var s := State();
      EndableNow(s, pid);
      KilledIsFree(s, setprio, pid);
      EndedRuns(s, pid);
      EndedIs(s, pid);
      if proctab[pid].state == PrCurr {
        proctab := proctab[pid := proctab[pid].(state := PrFree)];
        Resched();
      } else {
        EndOther(pid);
      }
    }

    /** The end of a process that is not running: it leaves the list it is on. */
    method EndOther(pid: int)
      requires Valid() && Pid(pid) && pid != NULLPROC && proctab[pid].state != PrCurr
      requires Typed(State()) && Endable(State(), pid) && SysInv(Ended(State(), pid))
      modifies this`queuetab, this`lists, this`proctab, this`semtab, this`leaked
      ensures Valid() && Typed(old(State())) && Endable(old(State()), pid)
      ensures State() == Ended(old(State()), pid)
    {
      hide SysInv, Core, CoreBut, TabOk, PrioOk, Ended, Unready, Unwaited, Unslept, Pids;
      EndedIs(State(), pid);
      match proctab[pid].state {
        case PrSleep | PrRectim =>
          var _ := Unsleep(pid);
        case PrWait =>
          LeaveSem(pid);
        case PrReady =>
          LeaveReady(pid);
        case _ =>
      }
      proctab := proctab[pid := proctab[pid].(state := PrFree)];
    }

    /** A waiting process leaves its semaphore. */
    method LeaveSem(pid: int)
      requires Wired() && Pid(pid) && Typed(State()) && HasSem(State(), proctab[pid].sem)
      requires pid in lists[SemQueue(proctab[pid].sem)]
      modifies this`queuetab, this`lists, this`semtab
      ensures Wired() && State() == Unwaited(old(State()), pid)
      ensures |old(semtab)| == NSEM && var m := old(proctab[pid].sem);
              semtab == old(semtab)[m := old(semtab)[m].(count := old(semtab)[m].count + 1)]
    {
      ghost var s, q := State(), SemQueue(proctab[pid].sem);
      semtab := semtab[proctab[pid].sem := semtab[proctab[pid].sem].(count := semtab[proctab[pid].sem].count + 1)];
      var _ := Getitem(pid, q, IndexOf(lists[q], pid));
      assert State() == Unwaited(s, pid);
    }

    /** A ready process leaves the ready list; readycount stays as it is. */
    method LeaveReady(pid: int)
      requires Wired() && Pid(pid) && Typed(State()) && pid in lists[READYLIST]
      modifies this`queuetab, this`lists, this`leaked
      ensures Wired() && State() == Unready(old(State()), pid)
    {
      ghost var s := State();
      var _ := Getitem(pid, READYLIST, IndexOf(lists[READYLIST], pid));
      leaked := leaked + 1;
      assert State() == Unready(s, pid);
    }

    lemma EndableNow(s: Sys, pid: int)
      requires SysInv(s) && Pid(pid) && pid != NULLPROC
      ensures Typed(s) && Endable(s, pid) && Core(Ended(s, pid))
      ensures !Ended(s, pid).waking && Ended(s, pid).resetting == -1
    {
      EndedInv(s, pid);
      hide Core;
    }

    /** The end of a process that is not running does not concern the current one. */
    lemma EndedRuns(s: Sys, pid: int)
      requires SysInv(s) && Pid(pid) && pid != NULLPROC && Typed(s) && Endable(s, pid) && Core(Ended(s, pid))
      ensures s.proc[pid].state != PrCurr ==> SysInv(Ended(s, pid))
    {
      EndedInv(s, pid);
      hide Core;
    }

    lemma EndedIs(s: Sys, pid: int)
      requires Typed(s) && Pid(pid) && Endable(s, pid)
      ensures Ended(s, pid) == match s.proc[pid].state
                               case PrSleep => SetState(Unslept(s, pid), pid, PrFree)
                               case PrRectim => SetState(Unslept(s, pid), pid, PrFree)
                               case PrWait => SetState(Unwaited(s, pid), pid, PrFree)
                               case PrReady => SetState(Unready(s, pid), pid, PrFree)
                               case _ => SetState(s, pid, PrFree)
      ensures Ended(s, pid).curr == s.curr && Ended(s, pid).ndefers == s.ndefers
    {
    }

    // ---- set_scheduler -------------------------------------------------------------------

    lemma PrioRange()
      requires Wired()
      ensures forall x :: Pid(x) ==> MINKEY < setprio[x] <= MAXKEY
    {
    }

    /** One turn of the loop, which may be past the end of the ready list. */
    method MoveToScratch(ghost s: Sys, ghost j: nat) returns (ghost j': nat)
      requires Wired() && Typed(s) && SCRATCH in s.lists && j <= |s.lists[READYLIST]| && NoDup(s.lists[READYLIST])
      requires lists == Moved(s, setprio, j).lists && KeysOf(queuetab) == Moved(s, setprio, j).keys
      requires proctab == Moved(s, setprio, j).proc && 0 < readycount < WRAP16
      requires j < |s.lists[READYLIST]| ==> proctab[s.lists[READYLIST][j]].state != PrFree
      modifies this`queuetab, this`lists, this`proctab, this`readycount
      ensures Wired() && j' == (if j < |s.lists[READYLIST]| then j + 1 else j)
      ensures readycount == old(readycount) - 1 + (j' - j)
      ensures lists == Moved(s, setprio, j').lists && KeysOf(queuetab) == Moved(s, setprio, j').keys
      ensures proctab == Moved(s, setprio, j').proc
    {
      hide Moved, Rescheduled, TabOk, PrioOk, Ahead, Placed, NoDup, KeysOf, Keyed, IsList;
      PrioRange();
      if j < |s.lists[READYLIST]| {
        MovedMore(s, setprio, j);
        TabRemoved(queuetab, lists, READYLIST, 0);
      } else {
        MovedEnd(s, setprio, j);
      }
      j' := j;
      var tmppid := Dequeue(READYLIST);
      readycount := (readycount - 1) % WRAP16;
      if !BadPid(tmppid) {
        proctab := proctab[tmppid := proctab[tmppid].(prio := setprio[tmppid])];
        var _ := Insert(tmppid, SCRATCH, proctab[tmppid].prio);
        readycount := (readycount + 1) % WRAP16;
        j' := j + 1;
      }
    }

    /** The loop of set_scheduler, which may end before the ready list does. */
    method MoveAllToScratch(ghost s: Sys) returns (ghost c: nat)
      requires Wired() && s == State() && Typed(s) && SCRATCH in s.lists
      requires s.lists[SCRATCH] == [] && NoDup(s.lists[READYLIST])
      requires 0 <= readycount < WRAP16
      requires forall i :: 0 <= i < |lists[READYLIST]| ==> proctab[lists[READYLIST][i]].state != PrFree
      modifies this`queuetab, this`lists, this`proctab, this`readycount
      ensures Wired() && c == Min(old(readycount), |s.lists[READYLIST]|) == readycount
      ensures lists == Moved(s, setprio, c).lists && KeysOf(queuetab) == Moved(s, setprio, c).keys
      ensures proctab == Moved(s, setprio, c).proc
    {
      hide NewPrios, TabOk, KeysOf, PrioOk, Moved;
      ghost var n := |s.lists[READYLIST]|;
      c := 0;
      MovedNone(s, setprio);
      MovedStates(s, setprio);
      hide TabOk, PrioOk, Moved;
      var count, i := readycount, 0;
      while i < count
        invariant 0 <= i <= count && c == Min(i, n) && Wired()
        invariant readycount == count - (i - c)
        invariant lists == Moved(s, setprio, c).lists && KeysOf(queuetab) == Moved(s, setprio, c).keys
        invariant proctab == Moved(s, setprio, c).proc
      {
        c := MoveToScratch(s, c);
        i := i + 1;
      }
    }

    /** The move changes no state. */
    lemma MovedStates(s: Sys, sp: Keys)
      requires Typed(s) && SCRATCH in s.lists && |sp| == NPROC
      requires forall i :: 0 <= i < |s.lists[READYLIST]| ==> s.proc[s.lists[READYLIST][i]].state != PrFree
      ensures forall j: nat :: j < |s.lists[READYLIST]| ==>
                |Moved(s, sp, j).proc| == NPROC && Pid(s.lists[READYLIST][j])
                && Moved(s, sp, j).proc[s.lists[READYLIST][j]].state != PrFree
    {
    }

    /** set_scheduler; `changed` tells whether the new value differs from the old one. */
    method SetScheduler(changed: bool) returns (r: int)
      requires Valid()
      modifies this`queuetab, this`lists, this`proctab, this`readycount, this`leaked
      ensures r == OK && Typed(old(State()))
      ensures !changed ==> Valid() && State() == old(State())
      // the loop takes as many processes as readycount says
      ensures var c := Min(old(readycount), |old(lists)[READYLIST]|);
              && (changed && c > 0 ==> Wired() && State() == Covered(old(State()), setprio, c))
              && (changed && c == 0 ==> Crossed(queuetab, SCRATCH, READYLIST))
      // nobody is lost exactly when the count covers a ready list that is not empty
      ensures changed ==> (Valid() <==> 0 < |old(lists)[READYLIST]| <= old(readycount))
      ensures changed && Valid() ==>
                Permuted(old(State()), State()) && lists[SCRATCH] == [] && readycount == |lists[READYLIST]|
      ensures changed && Valid() ==> |setprio| == NPROC && Resorted(old(State()), State(), setprio)
    {
      hide SysInv, Core, TabOk, PrioOk, Moved, Covered, Permuted, Resorted, NoDup, Crossed;
      ghost var s := State();
      SetBasics(s);
      AtPlace(queuetab, lists, SCRATCH, 0);
      if queuetab[SCRATCH].qnext < NPROC {
        return SYSERR;
      }
      if changed {
        ghost var c := MoveAllToScratch(s);
        SetEnds(s, setprio, c);
        Copyqueue(SCRATCH, READYLIST);
        leaked := 0;
      }
      return OK;
    }

    /** What set_scheduler has made of the kernel when its loop has taken `c` processes. */
    lemma SetEnds(s: Sys, sp: seq<int>, c: nat)
      requires SysInv(s) && PrioOk(sp) && Typed(s) && SCRATCH in s.lists
      requires s.lists[SCRATCH] == [] && c <= |s.lists[READYLIST]|
      ensures var m := Moved(s, sp, c);
              && |sp| == NPROC && SCRATCH in m.lists && READYLIST in m.lists && (m.lists[SCRATCH] == [] <==> c == 0)
              && m == s.(lists := m.lists, keys := m.keys, proc := m.proc)
              && m.(lists := m.lists[READYLIST := m.lists[SCRATCH]][SCRATCH := []], readycount := c, leaked := 0)
                 == Covered(s, sp, c)
      ensures SysInv(Covered(s, sp, c)) <==> c == |s.lists[READYLIST]|
      ensures Covered(s, sp, c).readycount == c == |Covered(s, sp, c).lists[READYLIST]|
      ensures Covered(s, sp, c).lists[SCRATCH] == []
      ensures Typed(Covered(s, sp, c)) && (Permuted(s, Covered(s, sp, c)) <==> c == |s.lists[READYLIST]|)
      ensures c == |s.lists[READYLIST]| ==> Resorted(s, Covered(s, sp, c), sp)
    {
      MovedThen(s, sp, c);
      MovedSame(s, sp, c);
      hide Moved, Permuted, Resorted, Core;
      if c == |s.lists[READYLIST]| { CoveredSorts(s, sp); }
      CoveredIff(s, sp, c);
      CoveredRuns(s, sp, c);
    }

    lemma CoveredRuns(s: Sys, sp: seq<int>, c: nat)
      requires SysInv(s) && PrioOk(sp) && Typed(s) && c <= |s.lists[READYLIST]|
      ensures SysInv(Covered(s, sp, c)) <==> Core(Covered(s, sp, c))
    {
      CoreBasics(s);
      hide Core, Resort;
    }

    lemma SetBasics(s: Sys)
      requires SysInv(s)
      ensures Typed(s) && Core(s) && SCRATCH in s.lists && s.lists[SCRATCH] == [] && NoDup(s.lists[READYLIST])
      ensures 0 <= s.readycount < WRAP16
      ensures forall i :: 0 <= i < |s.lists[READYLIST]| ==> s.proc[s.lists[READYLIST][i]].state != PrFree
    {
      CoreBasics(s);
      forall i | 0 <= i < |s.lists[READYLIST]|
        ensures s.proc[s.lists[READYLIST][i]].state != PrFree
      {
        assert AtHome(s, s.lists[READYLIST][i]);
      }
    }

    lemma MovedSame(s: Sys, sp: Keys, j: nat)
      requires Typed(s) && SCRATCH in s.lists && |sp| == NPROC && j <= |s.lists[READYLIST]|
      ensures var t := Moved(s, sp, j);
              t == s.(lists := t.lists, keys := t.keys, proc := t.proc)
    {
    }

    // ---- Initialisation ------------------------------------------------------------------

    /** newqueue.  Its test for a full table lets through the id just past the table: what is
        then written lies behind the table, and the id is no queue. */
    method Newqueue() returns (q: int)
      requires TabOk(queuetab, lists) && nextqid % 2 == 0 && NPROC <= nextqid && nextqid !in lists
      modifies this`queuetab, this`lists, this`nextqid
      ensures TabOk(queuetab, lists) && nextqid == NextQid(old(nextqid))
      ensures q == if old(nextqid) > NQENT then SYSERR else old(nextqid)
      ensures q == SYSERR || Qid(q) <==> old(nextqid) != NQENT
      ensures lists == if Qid(q) then old(lists)[q := []] else old(lists)
      ensures !Qid(q) ==> queuetab == old(queuetab)
    {
      q := nextqid;
      if q > NQENT {
        return SYSERR;
      }
      nextqid := nextqid + 2;
      if q < NQENT {
        TabNew(queuetab, lists, q);
        queuetab := queuetab[q := queuetab[q].(qnext := q + 1, qprev := EMPTY, qkey := MAXKEY)];
        queuetab := queuetab[q + 1 := queuetab[q + 1].(qnext := EMPTY, qprev := q, qkey := MINKEY)];
        lists := lists[q := []];
      }
    }

    /** All queues, empty. */
    method AllocateQueues()
      requires TabOk(queuetab, lists) && nextqid == NPROC && lists == map[]
      modifies this`queuetab, this`lists, this`nextqid
      ensures TabOk(queuetab, lists) && (forall q :: q in lists <==> Allocated(q))
      ensures forall q :: q in lists ==> lists[q] == []
    {
      while nextqid <= SLEEPQ
        invariant TabOk(queuetab, lists) && nextqid % 2 == 0 && NPROC <= nextqid <= SLEEPQ + 2
        invariant forall q :: q in lists <==> Qid(q) && q < nextqid
        invariant forall q :: q in lists ==> lists[q] == []
      {
        var _ := Newqueue();
      }
    }

    /** sysinit and clkinit: the queues of the semaphores and of the read-write blockers,
        the ready list, the scratch list and the sleep queue are allocated in this order,
        and the null process runs. */
    constructor Sysinit(prios: seq<int>)
      requires PrioOk(prios)
      ensures Valid() && Cursors() && fresh(this) && ndefers == 0 && setprio == prios && currpid == NULLPROC
      ensures forall q :: Allocated(q) ==> q in lists && lists[q] == []
      ensures |proctab| == NPROC && forall x :: Pid(x) && x != NULLPROC ==> proctab[x].state == PrFree
      ensures leaked == 0 && proctab[NULLPROC].state == PrCurr
    {
      queuetab := seq(NQENT, _ => Qentry(0, 0, 0));
      proctab := seq(NPROC, i => Proc(if i == NULLPROC then PrCurr else PrFree, 0, EMPTY, false, 0, 0));
      semtab := seq(NSEM, i => Sem(false, 0, SemQueue(i)));
      currpid, readycount, ndefers, attempt, preempt := NULLPROC, 0, 0, false, QUANTUM;
      setprio, nextqid, nextpid, nextsem, prcount := prios, NPROC, 1, 0, 1;
      lists, leaked, waking, stalled, resetting := map[], 0, false, false, -1;
      new;
      AllocateQueues();
      InitialInv(State());
    }

    lemma InitialInv(s: Sys)
      requires forall q :: q in s.lists <==> Allocated(q)
      requires forall q :: q in s.lists ==> s.lists[q] == []
      requires |s.keys| == NPROC && |s.proc| == NPROC && |s.sem| == NSEM && s.curr == NULLPROC
      requires forall i :: 0 <= i < NSEM ==> s.sem[i] == Sem(false, 0, SemQueue(i))
      requires forall x :: Pid(x) ==> s.proc[x].state == if x == NULLPROC then PrCurr else PrFree
      requires s.readycount == 0 && s.ndefers == 0 && s.leaked == 0 && !s.waking && s.resetting == -1
      ensures SysInv(s)
    {
      forall x | Pid(x)
        ensures AtHome(s, x)
      {
      }
      forall i | 0 <= i < NSEM
        ensures SemOk(s, i)
      {
        assert Allocated(SemQueue(i));
      }
    }

    /** newpid. */
    method Newpid() returns (pid: int)
      requires |proctab| == NPROC && 0 <= nextpid <= NPROC
      modifies this`nextpid
      ensures 0 <= nextpid <= NPROC
      ensures pid == SYSERR <==> forall x :: Pid(x) ==> proctab[x].state != PrFree
      ensures pid != SYSERR ==> Pid(pid) && proctab[pid].state == PrFree && nextpid == pid + 1
    {
      ghost var start := if nextpid == NPROC then 0 else nextpid;
      ProbedNext(start, NPROC, 0);
      for i := 0 to NPROC
        invariant 0 <= nextpid <= NPROC && Probed(start, NPROC, i) == if nextpid == NPROC then 0 else nextpid
        invariant forall j :: 0 <= j < i ==> proctab[Probed(start, NPROC, j)].state != PrFree
      {
        ProbedNext(start, NPROC, i);
        nextpid := nextpid % NPROC;
        if proctab[nextpid].state == PrFree {
          pid := nextpid;
          assert Pid(pid);
          nextpid := nextpid + 1;
          return;
        }
        nextpid := nextpid + 1;
      }
      forall x | Pid(x)
        ensures proctab[x].state != PrFree
      {
        ProbedAll(start, NPROC, x);
      }
      return SYSERR;
    }

    /** create, as far as the process table is concerned; `stack` says whether getstk has
        found room. */
    method Create(stack: bool, priority: int) returns (pid: int)
      requires Valid() && Cursors()
      modifies this`proctab, this`nextpid, this`prcount
      ensures Valid() && Cursors() && |old(proctab)| == NPROC
      ensures pid == SYSERR <==> !stack || priority < 1 || forall x :: Pid(x) ==> old(proctab)[x].state != PrFree
      ensures pid == SYSERR ==> State() == old(State()) && prcount == old(prcount)
      ensures pid != SYSERR ==>
                && Pid(pid) && old(proctab)[pid].state == PrFree && prcount == old(prcount) + 1
                && State() == old(State()).(
                     proc := old(proctab)[pid := Proc(PrSusp, priority, EMPTY, false, old(proctab)[pid].msg, currpid)])
    {
      hide SysInv, TabOk, PrioOk;
      if !stack {
        return SYSERR;
      }
      pid := Newpid();
      if pid == SYSERR || priority < 1 {
        return SYSERR;
      }
      prcount := prcount + 1;
      CreatedInv(State(), pid, Proc(PrSusp, priority, EMPTY, false, proctab[pid].msg, currpid));
      proctab := proctab[pid := Proc(PrSusp, priority, EMPTY, false, proctab[pid].msg, currpid)];
    }

    /** newsem. */
    method Newsem() returns (sem: int)
      requires |semtab| == NSEM && IsSem(nextsem)
      modifies this`nextsem, this`semtab
      ensures |semtab| == NSEM && IsSem(nextsem)
      ensures sem == SYSERR <==> forall i :: IsSem(i) ==> old(semtab)[i].used
      ensures sem == SYSERR ==> semtab == old(semtab)
      ensures sem != SYSERR ==>
                IsSem(sem) && !old(semtab)[sem].used && semtab == old(semtab)[sem := old(semtab)[sem].(used := true)]
    {
      ghost var start := nextsem;
      ProbedNext(start, NSEM, 0);
      for i := 0 to NSEM
        invariant semtab == old(semtab) && IsSem(nextsem) && nextsem == Probed(start, NSEM, i)
        invariant forall j :: 0 <= j < i ==> semtab[Probed(start, NSEM, j)].used
      {
        ProbedNext(start, NSEM, i);
        sem := nextsem;
        nextsem := if nextsem + 1 >= NSEM then 0 else nextsem + 1;
        if !semtab[sem].used {
          semtab := semtab[sem := semtab[sem].(used := true)];
          return;
        }
      }
      forall i | IsSem(i)
        ensures semtab[i].used
      {
        ProbedAll(start, NSEM, i);
      }
      return SYSERR;
    }

    method Semcreate(count: int) returns (r: int)
      requires Valid() && Cursors()
      modifies this`semtab, this`nextsem
      ensures Valid() && Cursors() && |old(semtab)| == NSEM
      ensures r == SYSERR <==> count < 0 || forall i :: IsSem(i) ==> old(semtab)[i].used
      ensures r == SYSERR ==> State() == old(State())
      ensures r != SYSERR ==>
                && IsSem(r) && !old(semtab)[r].used
                && State() == old(State()).(sem := old(semtab)[r := old(semtab)[r].(used := true, count := count)])
    {
      hide SysInv, TabOk, PrioOk;
      if count < 0 {
        return SYSERR;
      }
      ghost var s := State();
      var sem := Newsem();
      if sem == SYSERR {
        return SYSERR;
      }
      SemCreatedInv(s, sem, count);
      semtab := semtab[sem := semtab[sem].(count := count)];
      assert State() == s.(sem := s.sem[sem := s.sem[sem].(used := true, count := count)]);
      return sem;
    }
  }
}
