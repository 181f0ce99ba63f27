/** Ports as a protocol between processes: each step is the code between two points where
    the processor may be switched.  A process blocked in wait on one of the two semaphores
    of a port may be granted, then overtaken by a reset, and only then run. */
module PortSpec {
  import opened Common

  const NPORTS := 30

  datatype PtState = PtFree | PtLimbo | PtAlloc

  /** A semaphore: its count and the processes that wait, in order. */
  datatype Sema = Sema(count: int, queue: seq<int>)

  /** Where a process is in its call: waiting on the semaphore, or granted but not yet run,
      with the sequence number (generation) it recorded; or clearing a port. */
  datatype Phase =
    | Idle
    | WaitS(port: int, gen: int, msg: int)
    | GotS(port: int, gen: int, msg: int)
    | WaitR(port: int, gen: int)
    | GotR(port: int, gen: int)
    | Clearing(port: int, realloc: bool)

  /** A port.  `box` holds the queued messages; the rest is for specification: `cap` is the
      count the sender semaphore started this generation with, `gs` and `gr` are the
      granted processes of this generation, `linked` and `taken` the messages linked and
      taken since it began, `owner` the process that is clearing the port, `stage` how far
      it is and `realloc` whether the port stays allocated. */
  datatype Port = Port(state: PtState, maxcnt: int, gen: int, ssem: Sema, rsem: Sema, box: seq<int>,
                       cap: int, gs: set<int>, gr: set<int>, linked: seq<int>, taken: seq<int>,
                       owner: int, stage: int, realloc: bool)

  datatype Sys = Sys(port: seq<Port>, proc: map<int, Phase>, free: int)

  ghost predicate SemaOk(s: Sema) { |s.queue| == Max(0, -s.count) && NoDup(s.queue) }

  /** The two counts of an allocated port. */
  ghost predicate Balanced(p: Port) {
    && p.cap >= 0
    && p.ssem.count == p.cap - |p.box| - |p.gs| - |p.ssem.queue|
    && p.rsem.count == |p.box| - |p.gr| - |p.rsem.queue|
    && p.linked == p.taken + p.box
  }

  /** How far a clearing process has come. */
  ghost predicate Cleared(p: Port) {
    && 1 <= p.stage <= 3
    && (p.stage >= 2 ==>
          && p.box == [] && p.ssem.queue == [] && p.ssem.count == p.cap >= 0 && p.linked == p.taken == []
          && (p.realloc ==> p.cap == p.maxcnt))
    && (p.stage >= 3 ==> p.rsem == Sema(0, []))
  }

  ghost predicate PortOk(p: Port) {
    && SemaOk(p.ssem) && SemaOk(p.rsem) && 0 <= p.maxcnt < WRAP16
    && match p.state
       case PtAlloc => Balanced(p) && p.owner == -1
       case PtLimbo => Cleared(p) && p.gs == {} && p.gr == {} && p.owner >= 0
       case PtFree =>
         p.gs == {} && p.gr == {} && p.owner == -1 && p.ssem.queue == [] && p.rsem.queue == [] && p.box == []
  }

  predicate IsPort(p: int) { 0 <= p < NPORTS }

  /** Process `pid` is in a queue, granted, or clearing, for port `p`, exactly when its
      phase says so; a phase of this generation is never older than the port. */
  ghost predicate AgreeAt(s: Sys, pid: int, p: int)
    requires |s.port| == NPORTS && IsPort(p) && pid in s.proc
  {
    var e, ph := s.port[p], s.proc[pid];
    && (pid in e.ssem.queue <==> ph.WaitS? && ph.port == p)
    && (pid in e.rsem.queue <==> ph.WaitR? && ph.port == p)
    && (pid in e.gs <==> ph.GotS? && ph.port == p && ph.gen == e.gen && e.state == PtAlloc)
    && (pid in e.gr <==> ph.GotR? && ph.port == p && ph.gen == e.gen && e.state == PtAlloc)
    && (e.owner == pid <==> ph.Clearing? && ph.port == p)
    && (ph.Clearing? && ph.port == p ==> ph.realloc == e.realloc)
    && (ph.WaitS? && ph.port == p ==> ph.gen <= e.gen && (e.state == PtAlloc ==> ph.gen == e.gen))
    && (ph.WaitR? && ph.port == p ==> ph.gen <= e.gen && (e.state == PtAlloc ==> ph.gen == e.gen))
    && (ph.GotS? && ph.port == p ==> ph.gen <= e.gen)
    && (ph.GotR? && ph.port == p ==> ph.gen <= e.gen)
    && (e.state == PtLimbo && (ph.WaitS? || ph.WaitR? || ph.GotS? || ph.GotR?) && ph.port == p ==> ph.gen < e.gen)
  }

  predicate PhaseTyped(ph: Phase) { ph.Idle? || IsPort(ph.port) }

  /** Only known processes are in the queues of port `p`. */
  ghost predicate Known(s: Sys, p: int)
    requires |s.port| == NPORTS && IsPort(p)
  {
    var e := s.port[p];
    && (forall i :: 0 <= i < |e.ssem.queue| ==> e.ssem.queue[i] in s.proc)
    && (forall i :: 0 <= i < |e.rsem.queue| ==> e.rsem.queue[i] in s.proc)
    && (forall x :: x in e.gs || x in e.gr ==> x in s.proc) && (e.owner != -1 ==> e.owner in s.proc)
  }

  function Queued(ports: seq<Port>): int {
    if ports == [] then 0 else |ports[0].box| + Queued(ports[1..])
  }

  /** The invariant; `maxmsgs` is the size of the node pool. */
  ghost predicate Inv(s: Sys, maxmsgs: int) {
    && |s.port| == NPORTS && s.free >= 0 && s.free + Queued(s.port) == maxmsgs
    && (forall p :: IsPort(p) ==> PortOk(s.port[p]) && Known(s, p))
    && (forall pid, p :: pid in s.proc && IsPort(p) ==> AgreeAt(s, pid, p))
    && (forall pid :: pid in s.proc ==> pid >= 0 && PhaseTyped(s.proc[pid]))
  }

  lemma {:induction false} QueuedUpdate(ports: seq<Port>, p: int, e: Port)
    requires 0 <= p < |ports|
    ensures Queued(ports[p := e]) == Queued(ports) - |ports[p].box| + |e.box|
  {
    if p > 0 {
      assert ports[p := e][1..] == ports[1..][p - 1 := e];
      QueuedUpdate(ports[1..], p - 1, e);
    } else {
      assert ports[p := e][1..] == ports[1..];
    }
  }

  // ---- What the invariant means ------------------------------------------------------

  /** The queue of an allocated port holds at most `cap` messages; a granted receiver of
      this generation finds one, a granted sender room for one; messages come out in the
      order in which they went in. */
  lemma PortBounds(p: Port)
    requires PortOk(p) && p.state == PtAlloc
    ensures |p.box| + |p.gs| <= p.cap
    ensures |p.gr| <= |p.box|
    ensures p.gr != {} ==> p.box != []
    ensures p.gs != {} ==> |p.box| < p.cap
    ensures p.taken <= p.linked
    ensures p.ssem.queue != [] ==> |p.box| + |p.gs| == p.cap
    ensures p.rsem.queue != [] ==> |p.box| == |p.gr|
  {
  }

  // ---- Steps ---------------------------------------------------------------------------

  function SetPort(s: Sys, p: int, e: Port): Sys
    requires 0 <= p < |s.port|
  {
    s.(port := s.port[p := e])
  }

  /** signal on the receiver semaphore. */
  function SignalR(s: Sys, p: int): Sys
    requires 0 <= p < |s.port|
  {
    var e := s.port[p];
    if e.rsem.count < 0 && e.rsem.queue != [] && e.rsem.queue[0] in s.proc && s.proc[e.rsem.queue[0]].WaitR? then
      var pid := e.rsem.queue[0];
      SetPort(s, p, e.(rsem := Sema(e.rsem.count + 1, e.rsem.queue[1..]), gr := e.gr + {pid}))
      .(proc := s.proc[pid := GotR(p, s.proc[pid].gen)])
    else
      SetPort(s, p, e.(rsem := Sema(e.rsem.count + 1, e.rsem.queue)))
  }

  function SignalS(s: Sys, p: int): Sys
    requires 0 <= p < |s.port|
  {
    var e := s.port[p];
    if e.ssem.count < 0 && e.ssem.queue != [] && e.ssem.queue[0] in s.proc && s.proc[e.ssem.queue[0]].WaitS? then
      var pid := e.ssem.queue[0];
      SetPort(s, p, e.(ssem := Sema(e.ssem.count + 1, e.ssem.queue[1..]), gs := e.gs + {pid}))
      .(proc := s.proc[pid := GotS(p, s.proc[pid].gen, s.proc[pid].msg)])
    else
      SetPort(s, p, e.(ssem := Sema(e.ssem.count + 1, e.ssem.queue)))
  }

  /** The message goes to the tail of the list; `e` is the port as the sender leaves it. */
  function Linked(e: Port, msg: int): Port {
    e.(box := e.box + [msg], linked := e.linked + [msg])
  }

  function Unlinked(e: Port): Port
    requires e.box != []
  {
    e.(box := e.box[1..], taken := e.taken + [e.box[0]])
  }

  /** ptsend that finds room. */
  function SendNow(s: Sys, p: int, msg: int): Sys
    requires 0 <= p < |s.port|
  {
    var e := s.port[p];
    SignalR(SetPort(s, p, Linked(e.(ssem := Sema(e.ssem.count - 1, e.ssem.queue)), msg)).(free := s.free - 1), p)
  }

  /** ptsend that must wait. */
  function SendWait(s: Sys, pid: int, p: int, msg: int): Sys
    requires 0 <= p < |s.port|
  {
    var e := s.port[p];
    SetPort(s, p, e.(ssem := Sema(e.ssem.count - 1, e.ssem.queue + [pid]))).(
        proc := s.proc[pid := WaitS(p, e.gen, msg)])
  }

  /** A sender of this generation runs again after its wait. */
  function SendGoesOn(s: Sys, pid: int): Sys
    requires pid in s.proc && s.proc[pid].GotS? && 0 <= s.proc[pid].port < |s.port|
  {
    var p := s.proc[pid].port;
    var e := s.port[p];
    SignalR(SetPort(s, p, Linked(e.(gs := e.gs - {pid}), s.proc[pid].msg)).(
        free := s.free - 1, proc := s.proc[pid := Idle]), p)
  }

  function RecvNow(s: Sys, p: int): Sys
    requires 0 <= p < |s.port| && s.port[p].box != []
  {
    var e := s.port[p];
    SignalS(SetPort(s, p, Unlinked(e.(rsem := Sema(e.rsem.count - 1, e.rsem.queue)))).(free := s.free + 1), p)
  }

  function RecvWait(s: Sys, pid: int, p: int): Sys
    requires 0 <= p < |s.port|
  {
    var e := s.port[p];
    SetPort(s, p, e.(rsem := Sema(e.rsem.count - 1, e.rsem.queue + [pid]))).(proc := s.proc[pid := WaitR(p, e.gen)])
  }

  function RecvGoesOn(s: Sys, pid: int): Sys
    requires pid in s.proc && s.proc[pid].GotR?
    requires 0 <= s.proc[pid].port < |s.port| && s.port[s.proc[pid].port].box != []
  {
    var p := s.proc[pid].port;
    var e := s.port[p];
    SignalS(SetPort(s, p, Unlinked(e.(gr := e.gr - {pid}))).(free := s.free + 1, proc := s.proc[pid := Idle]), p)
  }

  /** The process returns from its call. */
  function Return(s: Sys, pid: int): Sys { s.(proc := s.proc[pid := Idle]) }

  /** _ptclear up to the disposal of the messages: the port is in limbo. */
  function ClearBegin(s: Sys, pid: int, p: int, realloc: bool): Sys
    requires 0 <= p < |s.port|
  {
    var e := s.port[p];
    SetPort(s, p, e.(state := PtLimbo, gen := e.gen + 1, gs := {}, gr := {}, owner := pid, stage := 1,
        realloc := realloc))
    .(proc := s.proc[pid := Clearing(p, realloc)])
  }

  /** The processes of `q` are released by semreset or semdelete. */
  function ReleaseAll(proc: map<int, Phase>, q: seq<int>): map<int, Phase> {
    map x | x in proc ::
      if x !in q then proc[x]
      else match proc[x]
           case WaitS(p, n, m) => GotS(p, n, m)
           case WaitR(p, n) => GotR(p, n)
           case ph => ph
  }

  /** The message list goes to the free list and the sender semaphore is reset. */
  function ClearSend(s: Sys, p: int): Sys
    requires 0 <= p < |s.port|
  {
    var e := s.port[p];
    var count := if e.realloc then e.maxcnt else 0;
    SetPort(s, p, e.(box := [], ssem := Sema(count, []), cap := count, linked := [], taken := [], stage := 2))
    .(free := s.free + |e.box|, proc := ReleaseAll(s.proc, e.ssem.queue))
  }

  /** The receiver semaphore is reset. */
  function ClearRecv(s: Sys, p: int): Sys
    requires 0 <= p < |s.port|
  {
    var e := s.port[p];
    SetPort(s, p, e.(rsem := Sema(0, []), stage := 3)).(proc := ReleaseAll(s.proc, e.rsem.queue))
  }

  /** The port leaves limbo. */
  function ClearEnd(s: Sys, pid: int, p: int): Sys
    requires 0 <= p < |s.port|
  {
    var e := s.port[p];
    SetPort(s, p, e.(state := if e.realloc then PtAlloc else PtFree, owner := -1)).(proc := s.proc[pid := Idle])
  }

  /** ptcreate on a free table entry; the port keeps only 16 bits of the count. */
  function Created(s: Sys, p: int, count: int): Sys
    requires 0 <= p < |s.port|
  {
    var e := s.port[p];
    SetPort(s, p, e.(state := PtAlloc, gen := e.gen + 1, ssem := Sema(count, []), rsem := Sema(0, []),
                     maxcnt := count % WRAP16,
                     cap := count, linked := [], taken := []))
  }

  // ---- Each step keeps the invariant -------------------------------------------------

  /** A step on port `p` that moves only the processes of `who`. */
  lemma OnlyPort(s: Sys, t: Sys, p: int, who: set<int>, maxmsgs: int)
    requires Inv(s, maxmsgs) && IsPort(p) && |t.port| == NPORTS
    requires forall q :: IsPort(q) && q != p ==> t.port[q] == s.port[q]
    requires forall x :: x in s.proc ==> x in t.proc
    requires forall x :: x in t.proc && x !in who ==> x in s.proc && t.proc[x] == s.proc[x]
    requires forall x :: x in who && x in t.proc ==>
               x >= 0 && PhaseTyped(t.proc[x]) && (t.proc[x].Idle? || t.proc[x].port == p)
    requires forall x :: x in who && x in s.proc ==> s.proc[x].Idle? || s.proc[x].port == p
    requires PortOk(t.port[p]) && Known(t, p) && t.free >= 0 && t.free + |t.port[p].box| == s.free + |s.port[p].box|
    requires forall x :: x in t.proc ==> AgreeAt(t, x, p)
    ensures Inv(t, maxmsgs)
  {
    hide PortOk, Known, AgreeAt;
    assert t.port == s.port[p := t.port[p]];
    QueuedUpdate(s.port, p, t.port[p]);
    forall q | IsPort(q)
      ensures PortOk(t.port[q]) && Known(t, q)
    {
      if q != p { StillKnown(s, t, q); }
    }
    forall x, q | x in t.proc && IsPort(q)
      ensures AgreeAt(t, x, q)
    {
      if q != p { ElsewhereAgrees(s, t, p, q, x, who, maxmsgs); }
    }
  }

  lemma StillKnown(s: Sys, t: Sys, q: int)
    requires |s.port| == NPORTS == |t.port| && IsPort(q) && Known(s, q) && t.port[q] == s.port[q]
    requires forall x :: x in s.proc ==> x in t.proc
    ensures Known(t, q)
  {
    var e := s.port[q];
    forall i | 0 <= i < |e.ssem.queue|
      ensures e.ssem.queue[i] in t.proc
    {
      var x := e.ssem.queue[i];
      assert x in s.proc;
    }
    forall i | 0 <= i < |e.rsem.queue|
      ensures e.rsem.queue[i] in t.proc
    {
      var x := e.rsem.queue[i];
      assert x in s.proc;
    }
  }

  /** One process and one port that the step does not concern. */
  lemma ElsewhereAgrees(s: Sys, t: Sys, p: int, q: int, x: int, who: set<int>, maxmsgs: int)
    requires Inv(s, maxmsgs) && IsPort(p) && IsPort(q) && q != p && |t.port| == NPORTS && t.port[q] == s.port[q]
    requires x in t.proc && (x !in who ==> x in s.proc && t.proc[x] == s.proc[x])
    requires x in who ==> x >= 0 && PhaseTyped(t.proc[x]) && (t.proc[x].Idle? || t.proc[x].port == p)
    requires x in who && x in s.proc ==> s.proc[x].Idle? || s.proc[x].port == p
    ensures AgreeAt(t, x, q)
  {
    if x in s.proc { assert AgreeAt(s, x, q); } else { NotIn(s, x, q, maxmsgs); }
  }

  /** A process that is not known is nowhere. */
  lemma NotIn(s: Sys, x: int, q: int, maxmsgs: int)
    requires Inv(s, maxmsgs) && IsPort(q) && x !in s.proc && x >= 0
    ensures x !in s.port[q].ssem.queue && x !in s.port[q].rsem.queue
    ensures x !in s.port[q].gs && x !in s.port[q].gr && s.port[q].owner != x
  {
    assert Known(s, q) && PortOk(s.port[q]);
  }

  /** ptsend and ptrecv look at a port only while it is allocated. */
  ghost predicate Ready(s: Sys, pid: int, p: int, maxmsgs: int) {
    Inv(s, maxmsgs) && IsPort(p) && s.port[p].state == PtAlloc && pid >= 0 && (pid in s.proc ==> s.proc[pid].Idle?)
  }

  lemma NotQueued(s: Sys, pid: int, p: int, maxmsgs: int)
    requires Ready(s, pid, p, maxmsgs)
    ensures pid !in s.port[p].ssem.queue && pid !in s.port[p].rsem.queue && pid !in s.port[p].gs && pid !in s.port[p].gr
  {
    if pid in s.proc { assert AgreeAt(s, pid, p); } else { NotIn(s, pid, p, maxmsgs); }
  }

  lemma SendWaitInv(s: Sys, pid: int, p: int, msg: int, maxmsgs: int)
    requires Ready(s, pid, p, maxmsgs) && s.port[p].ssem.count - 1 < 0
    ensures Inv(SendWait(s, pid, p, msg), maxmsgs)
  {
    NotQueued(s, pid, p, maxmsgs);
    var t := SendWait(s, pid, p, msg);
    assert PortOk(s.port[p]) && Known(s, p);
    forall x | x in t.proc
      ensures AgreeAt(t, x, p)
    {
      if x != pid { assert AgreeAt(s, x, p); }
    }
    OnlyPort(s, t, p, {pid}, maxmsgs);
  }

  lemma RecvWaitInv(s: Sys, pid: int, p: int, maxmsgs: int)
    requires Ready(s, pid, p, maxmsgs) && s.port[p].rsem.count - 1 < 0
    ensures Inv(RecvWait(s, pid, p), maxmsgs)
  {
    NotQueued(s, pid, p, maxmsgs);
    var t := RecvWait(s, pid, p);
    assert PortOk(s.port[p]) && Known(s, p);
    forall x | x in t.proc
      ensures AgreeAt(t, x, p)
    {
      if x != pid { assert AgreeAt(s, x, p); }
    }
    OnlyPort(s, t, p, {pid}, maxmsgs);
  }

  lemma AgreeAll(s: Sys, p: int, maxmsgs: int)
    requires Inv(s, maxmsgs) && IsPort(p)
    ensures |s.port| == NPORTS && PortOk(s.port[p]) && Known(s, p) && forall x :: x in s.proc ==> AgreeAt(s, x, p)
    ensures s.free >= 0 && forall x :: x in s.proc ==> x >= 0 && PhaseTyped(s.proc[x])
  {
  }

  /** The first waiting receiver waits in this generation. */
  lemma HeadWaits(s: Sys, p: int, maxmsgs: int)
    requires Inv(s, maxmsgs) && IsPort(p) && s.port[p].state == PtAlloc
    ensures var e := s.port[p];
            e.rsem.count < 0 ==>
              && e.rsem.queue != [] && e.rsem.queue[0] in s.proc && s.proc[e.rsem.queue[0]] == WaitR(p, e.gen)
              && e.rsem.queue[0] !in e.gr
    ensures var e := s.port[p];
            e.ssem.count < 0 ==>
              && e.ssem.queue != [] && e.ssem.queue[0] in s.proc && s.proc[e.ssem.queue[0]].WaitS?
              && s.proc[e.ssem.queue[0]].port == p && s.proc[e.ssem.queue[0]].gen == e.gen && e.ssem.queue[0] !in e.gs
  {
    AgreeAll(s, p, maxmsgs);
    var e := s.port[p];
    if e.rsem.count < 0 { assert AgreeAt(s, e.rsem.queue[0], p); }
    if e.ssem.count < 0 { assert AgreeAt(s, e.ssem.queue[0], p); }
  }

  lemma TailQueue(l: seq<int>)
    requires l != [] && NoDup(l)
    ensures NoDup(l[1..]) && forall x :: x in l[1..] <==> x in l && x != l[0]
  {
    assert l == [l[0]] + l[1..];
  }

  lemma SendNowInv(s: Sys, pid: int, p: int, msg: int, maxmsgs: int)
    requires Ready(s, pid, p, maxmsgs) && s.port[p].ssem.count - 1 >= 0 && s.free > 0
    ensures Inv(SendNow(s, p, msg), maxmsgs)
  {
    hide Inv, NoDup;
    AgreeAll(s, p, maxmsgs);
    HeadWaits(s, p, maxmsgs);
    SendNowPort(s, p, msg);
    hide PortOk, Known, AgreeAt;
    OnlyPort(s, SendNow(s, p, msg), p, if s.port[p].rsem.count < 0 then {s.port[p].rsem.queue[0]} else {}, maxmsgs);
  }

  lemma SendNowPort(s: Sys, p: int, msg: int)
    requires |s.port| == NPORTS && IsPort(p)
    requires var e := s.port[p];
             && PortOk(e) && Known(s, p) && e.state == PtAlloc && e.ssem.count - 1 >= 0
             && (e.rsem.count < 0 ==> e.rsem.queue != [] && e.rsem.queue[0] in s.proc
                                       && s.proc[e.rsem.queue[0]] == WaitR(p, e.gen)
                                      && e.rsem.queue[0] !in e.gr)
    requires forall x :: x in s.proc ==> AgreeAt(s, x, p)
    ensures var t := SendNow(s, p, msg);
            PortOk(t.port[p]) && Known(t, p) && forall x :: x in t.proc ==> AgreeAt(t, x, p)
  {
    if s.port[p].rsem.count < 0 { TailQueue(s.port[p].rsem.queue); }
    hide NoDup;
  }

  lemma RecvNowPort(s: Sys, p: int)
    requires |s.port| == NPORTS && IsPort(p)
    requires var e := s.port[p];
             && PortOk(e) && Known(s, p) && e.state == PtAlloc && e.rsem.count - 1 >= 0 && e.box != []
             && (e.ssem.count < 0 ==> e.ssem.queue != [] && e.ssem.queue[0] in s.proc && s.proc[e.ssem.queue[0]].WaitS?
                                      && s.proc[e.ssem.queue[0]].port == p
                                      && s.proc[e.ssem.queue[0]].gen == e.gen && e.ssem.queue[0] !in e.gs)
    requires forall x :: x in s.proc ==> AgreeAt(s, x, p)
    ensures var t := RecvNow(s, p);
            PortOk(t.port[p]) && Known(t, p) && forall x :: x in t.proc ==> AgreeAt(t, x, p)
  {
    var e := s.port[p];
    if e.ssem.count < 0 { TailQueue(e.ssem.queue); }
    assert (e.taken + [e.box[0]]) + e.box[1..] == e.taken + e.box;
    hide NoDup;
  }

  lemma RecvNowInv(s: Sys, pid: int, p: int, maxmsgs: int)
    requires Ready(s, pid, p, maxmsgs) && s.port[p].rsem.count - 1 >= 0
    ensures s.port[p].box != [] && Inv(RecvNow(s, p), maxmsgs)
  {
    hide Inv, NoDup;
    AgreeAll(s, p, maxmsgs);
    HeadWaits(s, p, maxmsgs);
    assert s.port[p].box != [];
    RecvNowPort(s, p);
    hide PortOk, Known, AgreeAt;
    OnlyPort(s, RecvNow(s, p), p, if s.port[p].ssem.count < 0 then {s.port[p].ssem.queue[0]} else {}, maxmsgs);
  }

  /** A sender granted in the present generation runs again. */
  ghost predicate FreshS(s: Sys, pid: int, maxmsgs: int) {
    && Inv(s, maxmsgs) && pid in s.proc && s.proc[pid].GotS? && IsPort(s.proc[pid].port)
    && s.port[s.proc[pid].port].state == PtAlloc && s.port[s.proc[pid].port].gen == s.proc[pid].gen
  }

  ghost predicate FreshR(s: Sys, pid: int, maxmsgs: int) {
    && Inv(s, maxmsgs) && pid in s.proc && s.proc[pid].GotR? && IsPort(s.proc[pid].port)
    && s.port[s.proc[pid].port].state == PtAlloc && s.port[s.proc[pid].port].gen == s.proc[pid].gen
  }

  lemma SendGoesOnInv(s: Sys, pid: int, maxmsgs: int)
    requires FreshS(s, pid, maxmsgs) && s.free > 0
    ensures Inv(SendGoesOn(s, pid), maxmsgs)
  {
    hide Inv, NoDup;
    var p := s.proc[pid].port;
    AgreeAll(s, p, maxmsgs);
    HeadWaits(s, p, maxmsgs);
    assert AgreeAt(s, pid, p) && pid in s.port[p].gs;
    var e, t := s.port[p], SendGoesOn(s, pid);
    if e.rsem.count < 0 {
      TailQueue(e.rsem.queue);
      SendPortOk(s, pid);
      SendAgrees(s, pid);
      hide PortOk, Known, AgreeAt;
      OnlyPort(s, t, p, {pid, e.rsem.queue[0]}, maxmsgs);
    } else {
      OnlyPort(s, t, p, {pid}, maxmsgs);
    }
  }

  lemma SendPortOk(s: Sys, pid: int)
    requires |s.port| == NPORTS && pid in s.proc && s.proc[pid].GotS? && IsPort(s.proc[pid].port)
    requires var e := s.port[s.proc[pid].port];
             && PortOk(e) && e.state == PtAlloc && pid in e.gs && e.rsem.count < 0 && e.rsem.queue[0] !in e.gr
             && e.rsem.queue[0] in s.proc && s.proc[e.rsem.queue[0]].WaitR?
    ensures PortOk(SendGoesOn(s, pid).port[s.proc[pid].port])
  {
    TailQueue(s.port[s.proc[pid].port].rsem.queue);
    hide NoDup;
  }

  lemma SendAgrees(s: Sys, pid: int)
    requires |s.port| == NPORTS && pid in s.proc && s.proc[pid].GotS? && IsPort(s.proc[pid].port)
    requires var p := s.proc[pid].port;
             var e := s.port[p];
             && (forall x :: x in s.proc ==> AgreeAt(s, x, p)) && Known(s, p)
             && e.state == PtAlloc && s.proc[pid].gen == e.gen
             && e.rsem.count < 0 && e.rsem.queue != [] && e.rsem.queue[0] in s.proc && NoDup(e.rsem.queue)
             && s.proc[e.rsem.queue[0]] == WaitR(p, e.gen)
    ensures var p, t := s.proc[pid].port, SendGoesOn(s, pid);
            Known(t, p) && forall x :: x in t.proc ==> AgreeAt(t, x, p)
  {
    TailQueue(s.port[s.proc[pid].port].rsem.queue);
    assert AgreeAt(s, pid, s.proc[pid].port);
    hide NoDup;
  }

  lemma RecvGoesOnInv(s: Sys, pid: int, maxmsgs: int)
    requires FreshR(s, pid, maxmsgs)
    ensures s.port[s.proc[pid].port].box != [] && Inv(RecvGoesOn(s, pid), maxmsgs)
  {
    hide Inv, NoDup;
    var p := s.proc[pid].port;
    AgreeAll(s, p, maxmsgs);
    HeadWaits(s, p, maxmsgs);
    assert AgreeAt(s, pid, p) && pid in s.port[p].gr;
    var e := s.port[p];
    PortBounds(e);
    assert e.box != [];
    var t := RecvGoesOn(s, pid);
    RecvPortOk(s, pid);
    RecvAgrees(s, pid);
    hide PortOk, Known, AgreeAt;
    OnlyPort(s, t, p, if e.ssem.count < 0 then {pid, e.ssem.queue[0]} else {pid}, maxmsgs);
  }

  lemma RecvPortOk(s: Sys, pid: int)
    requires |s.port| == NPORTS && pid in s.proc && s.proc[pid].GotR? && IsPort(s.proc[pid].port)
    requires var e := s.port[s.proc[pid].port];
             && PortOk(e) && e.state == PtAlloc && pid in e.gr && e.box != []
             && (e.ssem.count < 0 ==>
                   && e.ssem.queue != [] && e.ssem.queue[0] !in e.gs && e.ssem.queue[0] in s.proc
                   && s.proc[e.ssem.queue[0]].WaitS?)
    ensures PortOk(RecvGoesOn(s, pid).port[s.proc[pid].port])
  {
    var e := s.port[s.proc[pid].port];
    if e.ssem.count < 0 { TailQueue(e.ssem.queue); }
    assert (e.taken + [e.box[0]]) + e.box[1..] == e.taken + e.box;
    hide NoDup;
  }

  lemma RecvAgrees(s: Sys, pid: int)
    requires |s.port| == NPORTS && pid in s.proc && s.proc[pid].GotR? && IsPort(s.proc[pid].port)
    requires s.port[s.proc[pid].port].box != []
    requires var p := s.proc[pid].port;
             var e := s.port[p];
             && (forall x :: x in s.proc ==> AgreeAt(s, x, p)) && Known(s, p)
             && e.state == PtAlloc && s.proc[pid].gen == e.gen
             && (e.ssem.count < 0 ==>
                   && e.ssem.queue != [] && e.ssem.queue[0] in s.proc && NoDup(e.ssem.queue)
                   && s.proc[e.ssem.queue[0]].WaitS?
                   && s.proc[e.ssem.queue[0]].gen == e.gen && s.proc[e.ssem.queue[0]].port == p)
    ensures var p, t := s.proc[pid].port, RecvGoesOn(s, pid);
            Known(t, p) && forall x :: x in t.proc ==> AgreeAt(t, x, p)
  {
    if s.port[s.proc[pid].port].ssem.count < 0 { TailQueue(s.port[s.proc[pid].port].ssem.queue); }
    assert AgreeAt(s, pid, s.proc[pid].port);
    hide NoDup;
  }

  /** A process that was overtaken by a reset or delete returns and touches nothing. */
  lemma StaleInv(s: Sys, pid: int, maxmsgs: int)
    requires Inv(s, maxmsgs) && pid in s.proc && (s.proc[pid].GotS? || s.proc[pid].GotR?)
    requires !FreshS(s, pid, maxmsgs) && !FreshR(s, pid, maxmsgs)
    ensures Inv(Return(s, pid), maxmsgs) && Return(s, pid).port == s.port && Return(s, pid).free == s.free
  {
    var p, t := s.proc[pid].port, Return(s, pid);
    AgreeAll(s, p, maxmsgs);
    hide Inv, NoDup;
    OnlyPort(s, t, p, {pid}, maxmsgs);
  }

  // ---- Clearing and creating -----------------------------------------------------------

  lemma ClearBeginInv(s: Sys, pid: int, p: int, realloc: bool, maxmsgs: int)
    requires Ready(s, pid, p, maxmsgs)
    ensures Inv(ClearBegin(s, pid, p, realloc), maxmsgs)
  {
    AgreeAll(s, p, maxmsgs);
    NotQueued(s, pid, p, maxmsgs);
    hide Inv, NoDup;
    OnlyPort(s, ClearBegin(s, pid, p, realloc), p, {pid}, maxmsgs);
  }

  /** Process `pid` is clearing port `p` and has come to this stage. */
  ghost predicate AtStage(s: Sys, pid: int, p: int, stage: int, maxmsgs: int) {
    && Inv(s, maxmsgs) && IsPort(p) && pid in s.proc && s.proc[pid].Clearing? && s.proc[pid].port == p
    && s.port[p].stage == stage
  }

  lemma ClearSendInv(s: Sys, pid: int, p: int, maxmsgs: int)
    requires AtStage(s, pid, p, 1, maxmsgs)
    ensures AtStage(ClearSend(s, p), pid, p, 2, maxmsgs)
  {
    AgreeAll(s, p, maxmsgs);
    assert AgreeAt(s, pid, p);
    var t := ClearSend(s, p);
    hide Inv, NoDup;
    OnlyPort(s, t, p, (set x | x in s.port[p].ssem.queue), maxmsgs);
  }

  lemma ClearRecvInv(s: Sys, pid: int, p: int, maxmsgs: int)
    requires AtStage(s, pid, p, 2, maxmsgs)
    ensures AtStage(ClearRecv(s, p), pid, p, 3, maxmsgs)
  {
    AgreeAll(s, p, maxmsgs);
    assert AgreeAt(s, pid, p);
    var t := ClearRecv(s, p);
    hide Inv, NoDup;
    OnlyPort(s, t, p, (set x | x in s.port[p].rsem.queue), maxmsgs);
  }

  lemma ClearEndInv(s: Sys, pid: int, p: int, maxmsgs: int)
    requires AtStage(s, pid, p, 3, maxmsgs)
    ensures Inv(ClearEnd(s, pid, p), maxmsgs)
  {
    AgreeAll(s, p, maxmsgs);
    assert AgreeAt(s, pid, p);
    var t := ClearEnd(s, pid, p);
    hide Inv, NoDup;
    OnlyPort(s, t, p, {pid}, maxmsgs);
  }

  lemma CreatedInv(s: Sys, p: int, count: int, maxmsgs: int)
    requires Inv(s, maxmsgs) && IsPort(p) && s.port[p].state == PtFree && count >= 0
    ensures Inv(Created(s, p, count), maxmsgs)
  {
    AgreeAll(s, p, maxmsgs);
    hide Inv, NoDup;
    OnlyPort(s, Created(s, p, count), p, {}, maxmsgs);
  }

  /** A port keeps the bound it was created with in 16 bits: the first generation admits
      `ptmaxcnt` messages if and only if the count fits, and every later one does. */
  lemma CapacityIs16Bit(s: Sys, p: int, count: int)
    requires 0 <= p < |s.port| && count >= 0
    ensures Created(s, p, count).port[p].cap == Created(s, p, count).port[p].maxcnt <==> count < WRAP16
    ensures ClearSend(s, p).port[p].cap == if s.port[p].realloc then s.port[p].maxcnt else 0
  {
  }
}
