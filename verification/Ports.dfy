/** The port system: bounded message queues built from two semaphores, a shared pool of
    nodes and a sequence number, changed in place by ptsend, ptrecv, ptreset and ptdelete.
    Each method is the code between two points where the processor may be switched. */
module Ports {
  import opened Common
  import opened PortSpec
  import opened PortRuns
  import PN = PortNodes

  const BLOCKED := 0    // the process waits; its call goes on in a later step
  const FREE := NPORTS  // position of the free list among the node lists

  datatype Ptentry = Ptentry(ptssem: Sema, ptrsem: Sema, ptstate: PtState, ptmaxcnt: int, ptseq: int,
                             pthead: int, pttail: int)

  class PortTable {
    var porttab: seq<Ptentry>
    var ptfree: int
    var node: PN.Nodes
    var ptnextid: int
    var proc: map<int, Phase>    // where each process is in its call
    const maxmsgs: int
    ghost var port: seq<Port>
    ghost var ls: seq<seq<int>>
    ghost var home: map<int, int>

    ghost function State(): Sys
      requires |ls| == NPORTS + 1
      reads this
    {
      Sys(port, proc, |ls[FREE]|)
    }

    /** Table entry `p` is the port; its message list is linked while it may be used. */
    ghost predicate EntryOk(p: int)
      requires |porttab| == NPORTS == |port| && |ls| == NPORTS + 1 && IsPort(p)
      reads this
    {
      var t, e := porttab[p], port[p];
      && t.ptssem == e.ssem && t.ptrsem == e.rsem && t.ptstate == e.state && t.ptmaxcnt == e.maxcnt && t.ptseq == e.gen
      && e.box == PN.Msgs(node, ls[p])
      && (e.state == PtAlloc || (e.state == PtLimbo && e.stage == 1) ==>
          t.pthead == PN.First(ls[p]) && t.pttail == PN.Last(ls[p]))
      && (e.state == PtLimbo && e.stage >= 2 && e.realloc ==> t.pthead == PN.NULL && t.pttail == PN.NULL)
    }

    ghost predicate Wired()
      reads this
    {
      && |porttab| == NPORTS == |port| && |ls| == NPORTS + 1 && 0 <= ptnextid < NPORTS
      && PN.Pool(node, ls, home) && ptfree == PN.First(ls[FREE])
      && forall p :: IsPort(p) ==> EntryOk(p)
    }

    ghost predicate Valid()
      reads this
    {
      Wired() && Inv(State(), maxmsgs)
    }

    predicate BadPort(portid: int)
      requires |porttab| == NPORTS
      reads this
    {
      portid < 0 || portid >= NPORTS || porttab[portid].ptstate != PtAlloc
    }

    /** A process that is not in a call on a port. */
    ghost predicate Free(pid: int)
      reads this
    {
      pid >= 0 && (pid in proc ==> proc[pid].Idle?)
    }

    /** Table entry `t` fits port `e` with message list `l` in `nodes`. */
    ghost predicate Fits(t: Ptentry, e: Port, l: seq<int>, nodes: PN.Nodes) {
      && t.ptssem == e.ssem && t.ptrsem == e.rsem && t.ptstate == e.state && t.ptmaxcnt == e.maxcnt && t.ptseq == e.gen
      && e.box == PN.Msgs(nodes, l)
      && (e.state == PtAlloc || (e.state == PtLimbo && e.stage == 1) ==>
          t.pthead == PN.First(l) && t.pttail == PN.Last(l))
      && (e.state == PtLimbo && e.stage >= 2 && e.realloc ==> t.pthead == PN.NULL && t.pttail == PN.NULL)
    }

    /** Only table entry `p` changes, and no node. */
    method Update(p: int, t: Ptentry, ghost e: Port)
      requires Wired() && IsPort(p) && Fits(t, e, ls[p], node)
      modifies this`porttab, this`port
      ensures Wired() && porttab == old(porttab)[p := t] && State() == SetPort(old(State()), p, e)
    {
      ghost var was := port;
      assert forall q :: IsPort(q) ==> EntryOk(q);
      porttab := porttab[p := t];
      port := port[p := e];
    }

    // ---- The semaphores of a port ------------------------------------------------------

    /** signal(ptrsem). */
    method SignalReceiver(p: int)
      requires Wired() && IsPort(p)
      requires porttab[p].ptrsem.count < 0 ==>
                 porttab[p].ptrsem.queue != []
                 && porttab[p].ptrsem.queue[0] in proc && proc[porttab[p].ptrsem.queue[0]].WaitR?
      modifies this`porttab, this`port, this`proc
      ensures Wired() && State() == SignalR(old(State()), p)
    {
      ghost var s, e := State(), port[p];
      assert EntryOk(p);
      var t := porttab[p];
      if t.ptrsem.count < 0 {
        var pid := t.ptrsem.queue[0];
        Update(p, t.(ptrsem := Sema(t.ptrsem.count + 1, t.ptrsem.queue[1..])),
               e.(rsem := Sema(e.rsem.count + 1, e.rsem.queue[1..]), gr := e.gr + {pid}));
        proc := proc[pid := GotR(p, proc[pid].gen)];
      } else {
        Update(p, t.(ptrsem := Sema(t.ptrsem.count + 1, t.ptrsem.queue)),
            e.(rsem := Sema(e.rsem.count + 1, e.rsem.queue)));
      }
      assert State() == SignalR(s, p);
    }

    /** signal(ptssem). */
    method SignalSender(p: int)
      requires Wired() && IsPort(p)
      requires porttab[p].ptssem.count < 0 ==>
                 porttab[p].ptssem.queue != []
                 && porttab[p].ptssem.queue[0] in proc && proc[porttab[p].ptssem.queue[0]].WaitS?
      modifies this`porttab, this`port, this`proc
      ensures Wired() && State() == SignalS(old(State()), p)
    {
      ghost var s, e := State(), port[p];
      assert EntryOk(p);
      var t := porttab[p];
      if t.ptssem.count < 0 {
        var pid := t.ptssem.queue[0];
        Update(p, t.(ptssem := Sema(t.ptssem.count + 1, t.ptssem.queue[1..])),
               e.(ssem := Sema(e.ssem.count + 1, e.ssem.queue[1..]), gs := e.gs + {pid}));
        proc := proc[pid := GotS(p, proc[pid].gen, proc[pid].msg)];
      } else {
        Update(p, t.(ptssem := Sema(t.ptssem.count + 1, t.ptssem.queue)),
            e.(ssem := Sema(e.ssem.count + 1, e.ssem.queue)));
      }
      assert State() == SignalS(s, p);
    }

    // ---- Message nodes -----------------------------------------------------------------

    /** ptsend past its wait: the first free node is linked at the tail. */
    method LinkMessage(p: int, msg: int)
      requires Wired() && IsPort(p) && port[p].state == PtAlloc && ls[FREE] != []
      modifies this`porttab, this`port, this`node, this`ptfree, this`ls, this`home
      ensures Wired() && State() == SetPort(old(State()), p, Linked(old(port)[p], msg)).(free := old(State()).free - 1)
      ensures porttab[p].ptrsem == old(porttab)[p].ptrsem && porttab[p].ptssem == old(porttab)[p].ptssem
    {
      hide NoDup;
      assert forall q :: IsPort(q) ==> EntryOk(q);
      hide PN.Pool;
      ghost var e, x := port[p], ls[FREE][0];
      PN.PoolSend(node, ls, home, FREE, p, msg);
      LinkTail(p, msg);
      ls := ls[FREE := ls[FREE][1..]][p := ls[p] + [x]];
      home := home[x := p];
      port := port[p := Linked(e, msg)];
    }

    /** The changes to the nodes and the table entry. */
    method LinkTail(p: int, msg: int)
      requires Wired() && IsPort(p) && port[p].state == PtAlloc && ls[FREE] != []
      requires ls[FREE][0] in node && node[ls[FREE][0]].next == PN.First(ls[FREE][1..])
      requires PN.Last(ls[p]) == PN.NULL || PN.Last(ls[p]) in node
      requires (PN.Last(ls[p]) == PN.NULL <==> ls[p] == []) && PN.Last(ls[p]) != ls[FREE][0]
      modifies this`porttab, this`node, this`ptfree
      ensures var x := ls[FREE][0];
              && x in old(node) && (PN.Last(ls[p]) == PN.NULL || PN.Last(ls[p]) in old(node))
              && node == PN.Appended(old(node), x, PN.Last(ls[p]), msg) && ptfree == PN.First(ls[FREE][1..])
              && |old(porttab)| == NPORTS
              && porttab == old(porttab)[p := old(porttab)[p].(pttail := x, pthead := PN.First(ls[p] + [x]))]
    {
      hide PN.Pool;
      Entry(p);
      var msgnode := ptfree;
      ptfree := node[msgnode].next;
      node := node[msgnode := PN.PtNode(msg, PN.NULL)];
      var tailnode := porttab[p].pttail;
      if tailnode == PN.NULL {
        porttab := porttab[p := porttab[p].(pttail := msgnode, pthead := msgnode)];
      } else {
        node := node[tailnode := node[tailnode].(next := msgnode)];
        porttab := porttab[p := porttab[p].(pttail := msgnode)];
      }
    }

    /** ptrecv past its wait: the first message, whose node goes back to the free list. */
    method UnlinkMessage(p: int) returns (msg: int)
      requires Wired() && IsPort(p) && port[p].state == PtAlloc && port[p].box != []
      modifies this`porttab, this`port, this`node, this`ptfree, this`ls, this`home
      ensures Wired() && msg == old(port)[p].box[0]
      ensures State() == SetPort(old(State()), p, Unlinked(old(port)[p])).(free := old(State()).free + 1)
      ensures porttab[p].ptrsem == old(porttab)[p].ptrsem && porttab[p].ptssem == old(porttab)[p].ptssem
    {
      assert forall q :: IsPort(q) ==> EntryOk(q);
      hide PN.Pool;
      ghost var e, x := port[p], ls[p][0];
      PN.PoolRecv(node, ls, home, FREE, p);
      msg := UnlinkHead(p);
      ls := ls[p := ls[p][1..]][FREE := [x] + ls[FREE]];
      home := home[x := FREE];
      port := port[p := Unlinked(e)];
    }

    /** The changes to the nodes and the table entry. */
    method UnlinkHead(p: int) returns (msg: int)
      requires Wired() && IsPort(p) && port[p].state == PtAlloc && ls[p] != []
      requires ls[p][0] in node && node[ls[p][0]].next == PN.First(ls[p][1..])
      requires ls[p][0] == PN.Last(ls[p]) <==> |ls[p]| == 1
      modifies this`porttab, this`node, this`ptfree
      ensures var x := ls[p][0];
              && x in old(node) && msg == old(node)[x].msg && ptfree == x
              && node == old(node)[x := old(node)[x].(next := PN.First(ls[FREE]))]
              && |old(porttab)| == NPORTS
              && porttab == old(porttab)[p := old(porttab)[p].(pthead := PN.First(ls[p][1..]),
                                                               pttail := PN.Last(ls[p][1..]))]
    {
      hide PN.Pool;
      Entry(p);
      LastOfTail(ls[p]);
      var msgnode := porttab[p].pthead;
      msg := node[msgnode].msg;
      if porttab[p].pthead == porttab[p].pttail {
        porttab := porttab[p := porttab[p].(pthead := PN.NULL, pttail := PN.NULL)];
      } else {
        porttab := porttab[p := porttab[p].(pthead := node[msgnode].next)];
      }
      node := node[msgnode := node[msgnode].(next := ptfree)];
      ptfree := msgnode;
    }

    lemma LastOfTail(l: seq<int>)
      requires l != []
      ensures |l| > 1 ==> PN.Last(l[1..]) == PN.Last(l)
      ensures |l| == 1 ==> l[1..] == []
    {
    }

    /** The process goes on to another phase of its call. */
    method SetPhase(pid: int, ph: Phase)
      requires Wired()
      modifies this`proc
      ensures Wired() && State() == old(State()).(proc := old(proc)[pid := ph])
    {
      assert forall q :: IsPort(q) ==> EntryOk(q);
      proc := proc[pid := ph];
    }

    /** What a table entry and its port have in common. */
    lemma Entry(p: int)
      requires Wired() && IsPort(p)
      ensures Fits(porttab[p], port[p], ls[p], node)
    {
      assert EntryOk(p);
    }

    /** Who is granted is bookkeeping only. */
    ghost method SetGranted(p: int, gs: set<int>, gr: set<int>)
      requires Wired() && IsPort(p)
      modifies this`port
      ensures Wired() && State() == SetPort(old(State()), p, old(port)[p].(gs := gs, gr := gr))
    {
      assert forall q :: IsPort(q) ==> EntryOk(q);
      port := port[p := port[p].(gs := gs, gr := gr)];
    }

    // ---- ptsend ------------------------------------------------------------------------

    /** ptsend up to the point where the caller returns or waits.  The system panics when
        there is room in the port but no free node. */
    method Ptsend(pid: int, portid: int, msg: int) returns (r: int)
      requires Valid() && Free(pid)
      requires !BadPort(portid) && porttab[portid].ptssem.count > 0 ==> ls[FREE] != []
      modifies this`porttab, this`port, this`proc, this`node, this`ptfree, this`ls, this`home
      ensures Valid()
      ensures r == SYSERR <==> old(BadPort(portid))
      ensures r == SYSERR ==> State() == old(State())
      ensures r == OK <==> !old(BadPort(portid)) && old(porttab)[portid].ptssem.count > 0
      ensures r == OK ==> State() == SendNow(old(State()), portid, msg)
      ensures r != OK && r != SYSERR ==> r == BLOCKED && State() == SendWait(old(State()), pid, portid, msg)
      ensures r != SYSERR ==> Step(old(State()), Send(pid, portid, msg), State(), maxmsgs)
    {
      hide PN.Pool, Inv, EntryOk;
      if BadPort(portid) {
        return SYSERR;
      }
      ghost var s := State();
      Entry(portid);
      HeadWaits(s, portid, maxmsgs);
      var t := porttab[portid];
      if t.ptssem.count - 1 < 0 {
        SendWaitInv(s, pid, portid, msg, maxmsgs);
        Update(portid, t.(ptssem := Sema(t.ptssem.count - 1, t.ptssem.queue + [pid])),
               port[portid].(ssem := Sema(t.ptssem.count - 1, t.ptssem.queue + [pid])));
        SetPhase(pid, WaitS(portid, t.ptseq, msg));
        assert State() == SendWait(s, pid, portid, msg);
        return BLOCKED;
      }
      SendNowInv(s, pid, portid, msg, maxmsgs);
      Update(portid, t.(ptssem := Sema(t.ptssem.count - 1, t.ptssem.queue)),
          port[portid].(ssem := Sema(t.ptssem.count - 1, t.ptssem.queue)));
      LinkMessage(portid, msg);
      SignalReceiver(portid);
      assert State() == SendNow(s, portid, msg);
      return OK;
    }

    /** The rest of ptsend, when a process that was granted runs again. */
    method PtsendResume(pid: int) returns (r: int)
      requires Valid() && pid in proc && proc[pid].GotS? && IsPort(proc[pid].port)
      requires FreshS(State(), pid, maxmsgs) ==> ls[FREE] != []
      modifies this`porttab, this`port, this`proc, this`node, this`ptfree, this`ls, this`home
      ensures Valid()
      ensures r == OK <==> old(FreshS(State(), pid, maxmsgs))
      ensures r == OK ==> State() == SendGoesOn(old(State()), pid)
      ensures r != OK ==> r == SYSERR && State() == Return(old(State()), pid)
      ensures Step(old(State()), GoOn(pid), State(), maxmsgs)
    {
      hide PN.Pool, Inv, EntryOk;
      var GotS(portid, gen, msg) := proc[pid];
      ghost var s := State();
      Entry(portid);
      if porttab[portid].ptstate != PtAlloc || porttab[portid].ptseq != gen {
        StaleInv(s, pid, maxmsgs);
        SetPhase(pid, Idle);
        return SYSERR;
      }
      HeadWaits(s, portid, maxmsgs);
      SendGoesOnInv(s, pid, maxmsgs);
      SetPhase(pid, Idle);
      SetGranted(portid, port[portid].gs - {pid}, port[portid].gr);
      LinkMessage(portid, msg);
      SignalReceiver(portid);
      assert State() == SendGoesOn(s, pid);
      return OK;
    }

    // ---- ptrecv ------------------------------------------------------------------------

    /** ptrecv up to the point where the caller returns or waits. */
    method Ptrecv(pid: int, portid: int) returns (r: int, msg: int)
      requires Valid() && Free(pid)
      modifies this`porttab, this`port, this`proc, this`node, this`ptfree, this`ls, this`home
      ensures Valid()
      ensures r == SYSERR <==> old(BadPort(portid))
      ensures r == SYSERR ==> State() == old(State())
      ensures r == OK <==> !old(BadPort(portid)) && old(porttab)[portid].ptrsem.count > 0
      ensures r == OK ==>
                old(port)[portid].box != [] && msg == old(port)[portid].box[0]
                && State() == RecvNow(old(State()), portid)
      ensures r != OK && r != SYSERR ==> r == BLOCKED && State() == RecvWait(old(State()), pid, portid)
      ensures r != SYSERR ==> Step(old(State()), Recv(pid, portid), State(), maxmsgs)
    {
      hide PN.Pool, Inv, EntryOk;
      msg := 0;
      if BadPort(portid) {
        return SYSERR, msg;
      }
      ghost var s := State();
      Entry(portid);
      HeadWaits(s, portid, maxmsgs);
      var t := porttab[portid];
      if t.ptrsem.count - 1 < 0 {
        RecvWaitInv(s, pid, portid, maxmsgs);
        Update(portid, t.(ptrsem := Sema(t.ptrsem.count - 1, t.ptrsem.queue + [pid])),
               port[portid].(rsem := Sema(t.ptrsem.count - 1, t.ptrsem.queue + [pid])));
        SetPhase(pid, WaitR(portid, t.ptseq));
        assert State() == RecvWait(s, pid, portid);
        return BLOCKED, msg;
      }
      RecvNowInv(s, pid, portid, maxmsgs);
      Update(portid, t.(ptrsem := Sema(t.ptrsem.count - 1, t.ptrsem.queue)),
          port[portid].(rsem := Sema(t.ptrsem.count - 1, t.ptrsem.queue)));
      msg := UnlinkMessage(portid);
      SignalSender(portid);
      assert State() == RecvNow(s, portid);
      return OK, msg;
    }

    /** The rest of ptrecv, when a process that was granted runs again: in the same
        generation there is a message for it. */
    method PtrecvResume(pid: int) returns (r: int, msg: int)
      requires Valid() && pid in proc && proc[pid].GotR? && IsPort(proc[pid].port)
      modifies this`porttab, this`port, this`proc, this`node, this`ptfree, this`ls, this`home
      ensures Valid()
      ensures r == OK <==> old(FreshR(State(), pid, maxmsgs))
      ensures r == OK ==>
                && old(port)[old(proc)[pid].port].box != [] && msg == old(port)[old(proc)[pid].port].box[0]
                && State() == RecvGoesOn(old(State()), pid)
      ensures r != OK ==> r == SYSERR && State() == Return(old(State()), pid)
      ensures Step(old(State()), GoOn(pid), State(), maxmsgs)
    {
      hide PN.Pool, Inv, EntryOk;
      msg := 0;
      var GotR(portid, gen) := proc[pid];
      ghost var s := State();
      Entry(portid);
      if porttab[portid].ptstate != PtAlloc || porttab[portid].ptseq != gen {
        StaleInv(s, pid, maxmsgs);
        SetPhase(pid, Idle);
        return SYSERR, msg;
      }
      HeadWaits(s, portid, maxmsgs);
      RecvGoesOnInv(s, pid, maxmsgs);
      SetPhase(pid, Idle);
      SetGranted(portid, port[portid].gs, port[portid].gr - {pid});
      msg := UnlinkMessage(portid);
      SignalSender(portid);
      assert State() == RecvGoesOn(s, pid);
      return OK, msg;
    }

    // ---- ptreset and ptdelete ----------------------------------------------------------

    /** ptreset or ptdelete up to the disposal of the messages. */
    method PtclearBegin(pid: int, portid: int, realloc: bool) returns (r: int)
      requires Valid() && Free(pid)
      modifies this`porttab, this`port, this`proc
      ensures Valid()
      ensures r == SYSERR <==> old(BadPort(portid))
      ensures r == SYSERR ==> State() == old(State())
      ensures r != SYSERR ==> r == OK && State() == ClearBegin(old(State()), pid, portid, realloc)
      ensures r != SYSERR ==> Step(old(State()), Clear(pid, portid, realloc), State(), maxmsgs)
    {
      hide PN.Pool, Inv, EntryOk;
      if BadPort(portid) {
        return SYSERR;
      }
      ghost var s := State();
      Entry(portid);
      ClearBeginInv(s, pid, portid, realloc, maxmsgs);
      ghost var e := ClearBegin(s, pid, portid, realloc).port[portid];
      Update(portid, porttab[portid].(ptstate := PtLimbo, ptseq := porttab[portid].ptseq + 1), e);
      SetPhase(pid, Clearing(portid, realloc));
      assert State() == ClearBegin(s, pid, portid, realloc);
      return OK;
    }

    /** The message list is linked into the free list. */
    method SpliceList(p: int, ghost e: Port, t: Ptentry)
      requires Wired() && IsPort(p) && port[p].state == PtLimbo && port[p].stage == 1
      requires Fits(t, e, [], node) && e.box == []
      modifies this`porttab, this`port, this`node, this`ptfree, this`ls, this`home
      ensures Wired() && State() == SetPort(old(State()), p, e).(free := old(State()).free + |old(port)[p].box|)
    {
      assert forall q :: IsPort(q) ==> EntryOk(q);
      ghost var l := ls[p];
      FirstNull(p);
      if porttab[p].pthead != PN.NULL {
        PN.PoolSplice(node, ls, home, FREE, p);
        hide PN.Pool;
        node := node[porttab[p].pttail := node[porttab[p].pttail].(next := ptfree)];
        ptfree := porttab[p].pthead;
        ls := ls[p := []][FREE := l + ls[FREE]];
        home := PN.Rehomed(home, p, FREE);
      }
      porttab := porttab[p := t];
      port := port[p := e];
    }

    lemma FirstNull(p: int)
      requires Wired() && IsPort(p)
      ensures PN.First(ls[p]) == PN.NULL <==> ls[p] == []
    {
      if ls[p] != [] { assert PN.NodeAt(node, ls[p], 0); }
    }

    /** The walk of _ptclear along the messages, which hands each to the disposal function. */
    method Dispose(p: int) returns (disposed: seq<int>)
      requires Wired() && IsPort(p) && porttab[p].pthead == PN.First(ls[p])
      ensures disposed == port[p].box
    {
      ghost var l, i := ls[p], 0;
      Entry(p);
      assert PN.Linked(node, l);
      hide PN.Pool, EntryOk, PN.Linked, NoDup;
      disposed := [];
      var walk := porttab[p].pthead;
      NextNode(l, 0);
      while walk != PN.NULL
        invariant 0 <= i <= |l| && walk == PN.Nth(l, i) && disposed == PN.Msgs(node, l)[..i]
        invariant (i < |l| <==> walk != PN.NULL) && (i < |l| ==> walk in node && node[walk].next == PN.Nth(l, i + 1))
        decreases |l| - i
      {
        disposed := disposed + [node[walk].msg];
        walk := node[walk].next;
        i := i + 1;
        NextNode(l, i);
      }
    }

    lemma NextNode(l: seq<int>, i: int)
      requires PN.Linked(node, l)
      ensures 0 <= i < |l| ==> PN.Nth(l, i) != PN.NULL && l[i] in node && node[l[i]].next == PN.Nth(l, i + 1)
    {
      if 0 <= i < |l| { assert PN.NodeAt(node, l, i); }
    }

    /** _ptclear: the messages are disposed of, the list is freed and the sender semaphore
        reset or deleted. */
    method PtclearSend(pid: int, p: int) returns (disposed: seq<int>)
      requires Valid() && AtStage(State(), pid, p, 1, maxmsgs) && port[p].state == PtLimbo
      modifies this`porttab, this`port, this`proc, this`node, this`ptfree, this`ls, this`home
      ensures Valid() && AtStage(State(), pid, p, 2, maxmsgs) && State() == ClearSend(old(State()), p)
      ensures Step(old(State()), ClearNext(pid), State(), maxmsgs)
      ensures |old(port)| == NPORTS && disposed == old(port)[p].box
    {
      hide PN.Pool, Inv, EntryOk;
      ghost var s := State();
      Entry(p);
      ClearSendInv(s, pid, p, maxmsgs);
      disposed := Dispose(p);
      StageIs(s, pid, p);
      var Clearing(_, realloc) := proc[pid];
      var t := porttab[p];
      var count := if realloc then t.ptmaxcnt else 0;
      SpliceList(p, ClearSend(s, p).port[p],
                 if realloc then t.(ptssem := Sema(count, []), pthead := PN.NULL, pttail := PN.NULL)
                     else t.(ptssem := Sema(count, [])));
      SetPhases(ReleaseAll(proc, t.ptssem.queue));
      assert State() == ClearSend(s, p);
    }

    method SetPhases(pr: map<int, Phase>)
      requires Wired()
      modifies this`proc
      ensures Wired() && State() == old(State()).(proc := pr)
    {
      assert forall q :: IsPort(q) ==> EntryOk(q);
      proc := pr;
    }

    lemma StageIs(s: Sys, pid: int, p: int)
      requires Inv(s, maxmsgs) && IsPort(p) && pid in s.proc && s.proc[pid].Clearing? && s.proc[pid].port == p
      ensures |s.port| == NPORTS && s.port[p].realloc == s.proc[pid].realloc && s.port[p].state == PtLimbo
    {
      assert AgreeAt(s, pid, p) && PortOk(s.port[p]);
    }

    /** _ptclear: the receiver semaphore is reset or deleted. */
    method PtclearRecv(pid: int, p: int)
      requires Valid() && AtStage(State(), pid, p, 2, maxmsgs)
      modifies this`porttab, this`port, this`proc
      ensures Valid() && AtStage(State(), pid, p, 3, maxmsgs) && State() == ClearRecv(old(State()), p)
      ensures Step(old(State()), ClearNext(pid), State(), maxmsgs)
    {
      hide PN.Pool, Inv, EntryOk;
      ghost var s := State();
      Entry(p);
      ClearRecvInv(s, pid, p, maxmsgs);
      var t := porttab[p];
      Update(p, t.(ptrsem := Sema(0, [])), ClearRecv(s, p).port[p]);
      SetPhases(ReleaseAll(proc, t.ptrsem.queue));
      assert State() == ClearRecv(s, p);
    }

    /** The end of _ptclear: the port leaves limbo. */
    method PtclearEnd(pid: int, p: int)
      requires Valid() && AtStage(State(), pid, p, 3, maxmsgs)
      modifies this`porttab, this`port, this`proc, this`ptnextid
      ensures Valid() && State() == ClearEnd(old(State()), pid, p)
      ensures |old(porttab)| == NPORTS && pid in old(proc) && old(proc)[pid].Clearing?
      ensures porttab == old(porttab)[p := old(porttab)[p].(
                           ptstate := if old(proc)[pid].realloc then PtAlloc else PtFree)]
      ensures Step(old(State()), ClearNext(pid), State(), maxmsgs)
    {
      hide PN.Pool, Inv, EntryOk;
      ghost var s := State();
      Entry(p);
      ClearEndInv(s, pid, p, maxmsgs);
      StageIs(s, pid, p);
      StageList(s, pid, p);
      var Clearing(_, realloc) := proc[pid];
      Update(p, porttab[p].(ptstate := if realloc then PtAlloc else PtFree), ClearEnd(s, pid, p).port[p]);
      SetPhase(pid, Idle);
      if !realloc {
        SetNext(p);
      }
      assert State() == ClearEnd(s, pid, p);
    }

    method SetNext(next: int)
      requires Wired() && 0 <= next < NPORTS
      modifies this`ptnextid
      ensures Wired() && ptnextid == next && State() == old(State())
    {
      assert forall q :: IsPort(q) ==> EntryOk(q);
      ptnextid := next;
    }

    /** By the end the message list is empty. */
    lemma StageList(s: Sys, pid: int, p: int)
      requires AtStage(s, pid, p, 3, maxmsgs) && Wired() && s == State()
      ensures ls[p] == [] && s.port[p].stage == 3
    {
      assert AgreeAt(s, pid, p) && PortOk(s.port[p]) && EntryOk(p);
    }

    // ---- ptcreate and ptinit -------------------------------------------------------------

    /** ptcreate; semcreate is taken to succeed. */
    method Ptcreate(count: int) returns (r: int)
      requires Valid()
      modifies this`porttab, this`port, this`ptnextid
      ensures Valid()
      ensures r == SYSERR <==> count < 0 || forall p :: IsPort(p) ==> old(porttab)[p].ptstate != PtFree
      ensures r == SYSERR ==> State() == old(State())
      ensures r != SYSERR ==> IsPort(r) && old(porttab)[r].ptstate == PtFree
                              && State() == Created(old(State()), r, count)
      ensures r != SYSERR ==> Step(old(State()), Create(r, count), State(), maxmsgs)
      ensures r != SYSERR ==>
                && 0 <= r < |old(porttab)|
                && porttab == old(porttab)[r := Ptentry(Sema(count, []), Sema(0, []), PtAlloc, count % WRAP16,
                                                        old(porttab)[r].ptseq + 1, PN.NULL, PN.NULL)]
    {
      hide IsPort, NoDup;
      if count < 0 {
        return SYSERR;
      }
      hide PN.Pool, Inv, EntryOk, Created;
      r := FindFree();
      if r != SYSERR {
        Entry(r);
        FillEntry(r, count);
      }
    }

    /** The search of ptcreate. */
    method FindFree() returns (ptnum: int)
      requires Wired()
      modifies this`ptnextid
      ensures Wired() && State() == old(State())
      ensures ptnum == SYSERR <==> forall p :: IsPort(p) ==> porttab[p].ptstate != PtFree
      ensures ptnum != SYSERR ==> IsPort(ptnum) && porttab[ptnum].ptstate == PtFree
    {
      hide PN.Pool, EntryOk, Probed;
      ghost var start := ptnextid;
      ProbedNext(start, NPORTS, 0);
      var i := 0;
      while i < NPORTS
        invariant 0 <= i <= NPORTS && ptnextid == Probed(start, NPORTS, i) && Wired()
        invariant forall j :: 0 <= j < i ==> porttab[Probed(start, NPORTS, j)].ptstate != PtFree
      {
        ProbedNext(start, NPORTS, i);
        ptnum := ptnextid;
        SetNext(if ptnum + 1 >= NPORTS then 0 else ptnum + 1);
        if porttab[ptnum].ptstate == PtFree {
          return;
        }
        i := i + 1;
      }
      forall p | IsPort(p)
        ensures porttab[p].ptstate != PtFree
      {
        ProbedAll(start, NPORTS, p);
      }
      return SYSERR;
    }

    /** The table entry of a free port is filled. */
    method FillEntry(p: int, count: int)
      requires Valid() && IsPort(p) && porttab[p].ptstate == PtFree && count >= 0
      modifies this`porttab, this`port
      ensures Valid() && State() == Created(old(State()), p, count)
      ensures 0 <= p < |old(porttab)|
      ensures porttab == old(porttab)[p := Ptentry(Sema(count, []), Sema(0, []), PtAlloc, count % WRAP16,
                                                   old(porttab)[p].ptseq + 1, PN.NULL, PN.NULL)]
    {
      hide PN.Pool, Inv, EntryOk;
      ghost var s := State();
      Entry(p);
      CreatedInv(s, p, count, maxmsgs);
      FreeList(s, p);
      Update(p, Ptentry(Sema(count, []), Sema(0, []), PtAlloc, count % WRAP16, porttab[p].ptseq + 1, PN.NULL, PN.NULL),
             Created(s, p, count).port[p]);
      assert State() == Created(s, p, count);
    }

    /** A free port has no messages. */
    lemma FreeList(s: Sys, p: int)
      requires Inv(s, maxmsgs) && Wired() && s == State() && IsPort(p) && s.port[p].state == PtFree
      ensures ls[p] == []
    {
      assert PortOk(s.port[p]) && EntryOk(p);
    }

    /** ptinit: all ports are free and the nodes form the free list, in address order. */
    constructor Ptinit(max: int)
      requires 1 <= max
      ensures Valid() && maxmsgs == max && ls[FREE] == Upto(max) && proc == map[]
      ensures forall p :: IsPort(p) ==> porttab[p].ptstate == PtFree
    {
      maxmsgs := max;
      var none := Sema(0, []);
      porttab := seq(NPORTS, i => Ptentry(none, none, PtFree, 0, 0, PN.NULL, PN.NULL));
      port := seq(NPORTS, i => Port(PtFree, 0, 0, none, none, [], 0, {}, {}, [], [], -1, 0, false));
      ptnextid, proc := 0, map[];
      ls := seq(NPORTS, i => []) + [Upto(max)];
      home := map x | x in Upto(max) :: FREE;
      ptfree := 1;
      node := map[];
      new;
      LinkNodes(max);
      InitialPool(max);
      InitialInv(max);
    }

    /** The loop of ptinit: each node points to the next one. */
    method LinkNodes(max: int)
      requires 1 <= max && ptfree == 1
      modifies this`node
      ensures PN.Linked(node, Upto(max))
    {
      var curr, next, left := ptfree, ptfree, max;
      left := left - 1;
      while left > 0
        invariant 0 <= left < max && curr == next == max - left
        invariant forall i :: 1 <= i < curr ==> i in node && node[i].next == i + 1
        decreases left
      {
        next := next + 1;
        node := node[curr := PN.PtNode(0, next)];
        curr := next;
        left := left - 1;
      }
      node := node[curr := PN.PtNode(0, PN.NULL)];
      forall i | 0 <= i < |Upto(max)|
        ensures PN.NodeAt(node, Upto(max), i)
      {
        assert Upto(max)[i] == i + 1;
      }
    }

    lemma InitialPool(max: int)
      requires 1 <= max && |ls| == NPORTS + 1 && ls[FREE] == Upto(max) && forall a :: 0 <= a < NPORTS ==> ls[a] == []
      requires home == (map x | x in Upto(max) :: FREE) && PN.Linked(node, Upto(max))
      ensures PN.Pool(node, ls, home)
    {
      forall a, i | 0 <= a < |ls| && 0 <= i < |ls[a]|
        ensures PN.Lives(ls, home, a, i)
      {
      }
    }

    lemma InitialInv(max: int)
      requires 1 <= max && |ls| == NPORTS + 1 && ls[FREE] == Upto(max) && |port| == NPORTS && proc == map[]
      requires forall p :: IsPort(p) ==>
                 port[p] == Port(PtFree, 0, 0, Sema(0, []), Sema(0, []), [], 0, {}, {}, [], [], -1, 0, false)
      ensures Inv(State(), max)
    {
      NothingQueued(port);
    }
  }

  /** Node addresses `1` to `max`. */
  function Upto(max: int): (l: seq<int>)
    requires 0 <= max
    ensures |l| == max && forall i :: 0 <= i < max ==> l[i] == i + 1
  {
    seq(max, i => i + 1)
  }

  lemma {:induction false} NothingQueued(ports: seq<Port>)
    requires forall p :: 0 <= p < |ports| ==> ports[p].box == []
    ensures Queued(ports) == 0
  {
    if ports != [] { NothingQueued(ports[1..]); }
  }
}
