/** Runs of the port protocol: any interleaving of senders, receivers, resets, deletions and
    creations, one step after the other. */
module PortRuns {
  import opened Common
  import opened PortSpec

  /** What happens next: a call begins, a process that was granted goes on, or one that is
      clearing a port goes on. */
  datatype Call =
    | Send(pid: int, p: int, msg: int)
    | Recv(pid: int, p: int)
    | GoOn(pid: int)
    | Clear(pid: int, p: int, realloc: bool)
    | ClearNext(pid: int)
    | Create(p: int, count: int)

  /** The step of a granted process: it goes on with its call in the generation in which it
      was granted, and otherwise returns. */
  ghost predicate GoesOn(s: Sys, pid: int, t: Sys, maxmsgs: int) {
    && pid in s.proc && (s.proc[pid].GotS? || s.proc[pid].GotR?) && IsPort(s.proc[pid].port) && |s.port| == NPORTS
    && if FreshS(s, pid, maxmsgs) then s.free > 0 && t == SendGoesOn(s, pid)
       else if FreshR(s, pid, maxmsgs) then s.port[s.proc[pid].port].box != [] && t == RecvGoesOn(s, pid)
       else t == Return(s, pid)
  }

  ghost predicate ClearGoesOn(s: Sys, pid: int, t: Sys) {
    && pid in s.proc && s.proc[pid].Clearing? && IsPort(s.proc[pid].port) && |s.port| == NPORTS
    && var p := s.proc[pid].port;
       match s.port[p].stage
       case 1 => t == ClearSend(s, p)
       case 2 => t == ClearRecv(s, p)
       case _ => t == ClearEnd(s, pid, p)
  }

  ghost predicate Step(s: Sys, c: Call, t: Sys, maxmsgs: int) {
    match c
    case Send(pid, p, msg) =>
      && Ready(s, pid, p, maxmsgs)
      && (if s.port[p].ssem.count > 0 then s.free > 0 && t == SendNow(s, p, msg) else t == SendWait(s, pid, p, msg))
    case Recv(pid, p) =>
      && Ready(s, pid, p, maxmsgs)
      && (if s.port[p].rsem.count > 0 then s.port[p].box != [] && t == RecvNow(s, p) else t == RecvWait(s, pid, p))
    case GoOn(pid) => GoesOn(s, pid, t, maxmsgs)
    case Clear(pid, p, realloc) => Ready(s, pid, p, maxmsgs) && t == ClearBegin(s, pid, p, realloc)
    case ClearNext(pid) => ClearGoesOn(s, pid, t)
    case Create(p, count) =>
      |s.port| == NPORTS && IsPort(p) && s.port[p].state == PtFree && count >= 0 && t == Created(s, p, count)
  }

  lemma ClearStage(s: Sys, pid: int, maxmsgs: int)
    requires Inv(s, maxmsgs) && pid in s.proc && s.proc[pid].Clearing? && IsPort(s.proc[pid].port)
    ensures var p := s.proc[pid].port; 1 <= s.port[p].stage <= 3 && AtStage(s, pid, p, s.port[p].stage, maxmsgs)
  {
    assert AgreeAt(s, pid, s.proc[pid].port) && PortOk(s.port[s.proc[pid].port]);
  }

  lemma InvPorts(s: Sys, maxmsgs: int)
    requires Inv(s, maxmsgs)
    ensures |s.port| == NPORTS
  {
  }

  lemma StepInv(s: Sys, c: Call, t: Sys, maxmsgs: int)
    requires Inv(s, maxmsgs) && Step(s, c, t, maxmsgs)
    ensures Inv(t, maxmsgs)
  {
    hide Inv, SendNow, RecvNow, SendWait, RecvWait, SendGoesOn, RecvGoesOn, ClearBegin, ClearSend, ClearRecv, ClearEnd,
         Created, Return;
    InvPorts(s, maxmsgs);
    match c
    case Send(pid, p, msg) =>
      if s.port[p].ssem.count > 0 {
        SendNowInv(s, pid, p, msg, maxmsgs);
      } else {
        SendWaitInv(s, pid, p, msg, maxmsgs);
      }
    case Recv(pid, p) =>
      if s.port[p].rsem.count > 0 { RecvNowInv(s, pid, p, maxmsgs); } else { RecvWaitInv(s, pid, p, maxmsgs); }
    case GoOn(pid) =>
      if FreshS(s, pid, maxmsgs) { SendGoesOnInv(s, pid, maxmsgs); }
      else if FreshR(s, pid, maxmsgs) { RecvGoesOnInv(s, pid, maxmsgs); }
      else { StaleInv(s, pid, maxmsgs); }
    case Clear(pid, p, realloc) => ClearBeginInv(s, pid, p, realloc, maxmsgs);
    case ClearNext(pid) =>
      var p := s.proc[pid].port;
      ClearStage(s, pid, maxmsgs);
      if s.port[p].stage == 1 { ClearSendInv(s, pid, p, maxmsgs); }
      else if s.port[p].stage == 2 { ClearRecvInv(s, pid, p, maxmsgs); }
      else { ClearEndInv(s, pid, p, maxmsgs); }
    case Create(p, count) => CreatedInv(s, p, count, maxmsgs);
  }

  ghost predicate Run(s: seq<Sys>, cs: seq<Call>, maxmsgs: int) {
    && |s| == |cs| + 1 && Inv(s[0], maxmsgs)
    && forall k :: 0 <= k < |cs| ==> Step(s[k], cs[k], s[k + 1], maxmsgs)
  }

  /** Every state of every run: the invariant, so what PortBounds says. */
  lemma {:induction false} RunInv(s: seq<Sys>, cs: seq<Call>, maxmsgs: int, k: nat)
    requires Run(s, cs, maxmsgs) && k <= |cs|
    ensures Inv(s[k], maxmsgs)
  {
    hide Inv, Step;
    if k > 0 {
      RunInv(s, cs, maxmsgs, k - 1);
      assert Step(s[k - 1], cs[k - 1], s[k - 1 + 1], maxmsgs);
      StepInv(s[k - 1], cs[k - 1], s[k], maxmsgs);
    }
  }

  // ---- Generations ---------------------------------------------------------------------

  /** The generation of a port never falls; it rises by one when a clearing begins and when
      the port is created. */
  lemma StepGen(s: Sys, c: Call, t: Sys, maxmsgs: int, q: int)
    requires Step(s, c, t, maxmsgs) && IsPort(q) && |s.port| == NPORTS
    ensures |t.port| == NPORTS
    ensures t.port[q].gen == s.port[q].gen + if (c.Clear? || c.Create?) && c.p == q then 1 else 0
  {
    hide Inv;
  }

  lemma {:induction false} GenNeverFalls(s: seq<Sys>, cs: seq<Call>, maxmsgs: int, j: nat, k: nat, q: int)
    requires Run(s, cs, maxmsgs) && j <= k <= |cs| && IsPort(q)
    ensures |s[j].port| == NPORTS == |s[k].port| && s[j].port[q].gen <= s[k].port[q].gen
    decreases k
  {
    hide Step, Inv;
    RunInv(s, cs, maxmsgs, j);
    RunInv(s, cs, maxmsgs, k);
    InvPorts(s[j], maxmsgs);
    InvPorts(s[k], maxmsgs);
    if j < k {
      RunInv(s, cs, maxmsgs, k - 1);
      InvPorts(s[k - 1], maxmsgs);
      GenNeverFalls(s, cs, maxmsgs, j, k - 1, q);
      assert Step(s[k - 1], cs[k - 1], s[k - 1 + 1], maxmsgs);
      StepGen(s[k - 1], cs[k - 1], s[k], maxmsgs, q);
    }
  }

  // ---- A process that was overtaken ------------------------------------------------------

  predicate InCall(ph: Phase) { ph.WaitS? || ph.GotS? || ph.WaitR? || ph.GotR? }

  /** The process is in a call on a port that has been reset or deleted since. */
  ghost predicate Overtaken(s: Sys, pid: int) {
    && |s.port| == NPORTS && pid in s.proc && InCall(s.proc[pid]) && IsPort(s.proc[pid].port)
    && s.proc[pid].gen < s.port[s.proc[pid].port].gen
  }

  lemma OvertakenIsStale(s: Sys, pid: int, maxmsgs: int)
    requires Overtaken(s, pid)
    ensures !FreshS(s, pid, maxmsgs) && !FreshR(s, pid, maxmsgs)
  {
  }

  /** A step of somebody else leaves the call as it is, or grants it. */
  lemma OthersStep(s: Sys, c: Call, t: Sys, maxmsgs: int, pid: int)
    requires Inv(s, maxmsgs) && Step(s, c, t, maxmsgs) && pid in s.proc && InCall(s.proc[pid])
    requires c.Create? || c.pid != pid
    ensures pid in t.proc && InCall(t.proc[pid])
    ensures t.proc[pid].port == s.proc[pid].port && t.proc[pid].gen == s.proc[pid].gen
  {
    hide Inv;
    match c
    case Send(x, p, msg) => SameCall(s, p, pid, maxmsgs);
    case Recv(x, p) => SameCall(s, p, pid, maxmsgs);
    case GoOn(x) => SameCall(s, s.proc[x].port, pid, maxmsgs);
    case _ =>
  }

  /** The process that a signal on port `p` grants waits there. */
  lemma SameCall(s: Sys, p: int, pid: int, maxmsgs: int)
    requires Inv(s, maxmsgs) && IsPort(p) && pid in s.proc && InCall(s.proc[pid])
    ensures |s.port| == NPORTS
    ensures pid in s.port[p].rsem.queue || pid in s.port[p].ssem.queue ==> s.proc[pid].port == p
  {
    assert AgreeAt(s, pid, p);
  }

  /** Once overtaken a process stays so through every step until it runs, and then it
      returns and touches no port, no message and no node. */
  lemma OvertakenStays(s: Sys, c: Call, t: Sys, maxmsgs: int, pid: int)
    requires Inv(s, maxmsgs) && Step(s, c, t, maxmsgs) && Overtaken(s, pid)
    ensures if c.GoOn? && c.pid == pid then t == Return(s, pid) else Overtaken(t, pid)
  {
    var p := s.proc[pid].port;
    if !c.Create? && c.pid == pid {
      OvertakenIsStale(s, pid, maxmsgs);
    } else {
      OthersStep(s, c, t, maxmsgs, pid);
      StepGen(s, c, t, maxmsgs, p);
    }
    hide Inv;
  }

  /** Whoever is in a call when the port is cleared is overtaken. */
  lemma ClearOvertakes(s: Sys, c: Call, t: Sys, maxmsgs: int, pid: int)
    requires Inv(s, maxmsgs) && Step(s, c, t, maxmsgs) && c.Clear?
    requires pid in s.proc && InCall(s.proc[pid]) && s.proc[pid].port == c.p
    ensures Overtaken(t, pid)
  {
    assert AgreeAt(s, pid, c.p);
    OthersStep(s, c, t, maxmsgs, pid);
    StepGen(s, c, t, maxmsgs, c.p);
    hide Inv, Step;
  }

  // ---- Which call a process is in --------------------------------------------------------

  predicate Begins(c: Call, pid: int) { (c.Send? || c.Recv? || c.Clear?) && c.pid == pid }

  /** The latest of the first `k` calls that `pid` began, -1 for none. */
  function LastCall(cs: seq<Call>, pid: int, k: nat): (j: int)
    requires k <= |cs|
    ensures -1 <= j < k && (j >= 0 ==> Begins(cs[j], pid))
  {
    if k == 0 then -1 else if Begins(cs[k - 1], pid) then k - 1 else LastCall(cs, pid, k - 1)
  }

  /** `ph` is a phase of call `c`, which found its port in generation `g`. */
  predicate PhaseOf(ph: Phase, c: Call, g: int) {
    match ph
    case Idle => true
    case WaitS(p, n, m) => c.Send? && c.p == p && c.msg == m && n == g
    case GotS(p, n, m) => c.Send? && c.p == p && c.msg == m && n == g
    case WaitR(p, n) => c.Recv? && c.p == p && n == g
    case GotR(p, n) => c.Recv? && c.p == p && n == g
    case Clearing(p, realloc) => c.Clear? && c.p == p && c.realloc == realloc
  }

  /** A call that goes on, perhaps granted meanwhile. */
  predicate GoesOnWith(a: Phase, b: Phase) {
    || b == a
    || (a.WaitS? && b == GotS(a.port, a.gen, a.msg))
    || (a.WaitR? && b == GotR(a.port, a.gen))
  }

  ghost predicate PhaseMoves(s: Sys, c: Call, t: Sys, pid: int) {
    pid in t.proc ==>
      if Begins(c, pid) then IsPort(c.p) && |s.port| == NPORTS && PhaseOf(t.proc[pid], c, s.port[c.p].gen)
      else t.proc[pid].Idle? || (pid in s.proc && GoesOnWith(s.proc[pid], t.proc[pid]))
  }

  lemma PhaseStep(s: Sys, c: Call, t: Sys, maxmsgs: int, pid: int)
    requires Inv(s, maxmsgs) && Step(s, c, t, maxmsgs)
    ensures PhaseMoves(s, c, t, pid)
  {
    hide Inv, PhaseMoves;
    InvPorts(s, maxmsgs);
    match c
    case Send(x, p, msg) => SendPhase(s, c, t, maxmsgs, pid);
    case Recv(x, p) => RecvPhase(s, c, t, maxmsgs, pid);
    case GoOn(x) => GoOnPhase(s, c, t, maxmsgs, pid);
    case _ => ClearPhase(s, c, t, maxmsgs, pid);
  }

  /** Who waits for port `p` waits in a call on `p`. */
  lemma HeadCall(s: Sys, p: int, maxmsgs: int)
    requires Inv(s, maxmsgs) && IsPort(p)
    ensures |s.port| == NPORTS
    ensures forall x :: x in s.proc && (x in s.port[p].rsem.queue || x in s.port[p].ssem.queue) ==> s.proc[x].port == p
  {
    forall x | x in s.proc && (x in s.port[p].rsem.queue || x in s.port[p].ssem.queue)
      ensures s.proc[x].port == p
    {
      assert AgreeAt(s, x, p);
    }
  }

  lemma SignalPhase(s: Sys, p: int, pid: int)
    requires 0 <= p < |s.port|
    requires forall x :: x in s.proc && (x in s.port[p].rsem.queue || x in s.port[p].ssem.queue) ==>
               s.proc[x].Idle? || s.proc[x].port == p
    ensures pid in SignalR(s, p).proc ==> pid in s.proc && GoesOnWith(s.proc[pid], SignalR(s, p).proc[pid])
    ensures pid in SignalS(s, p).proc ==> pid in s.proc && GoesOnWith(s.proc[pid], SignalS(s, p).proc[pid])
  {
  }

  lemma SendPhase(s: Sys, c: Call, t: Sys, maxmsgs: int, pid: int)
    requires Inv(s, maxmsgs) && Step(s, c, t, maxmsgs) && |s.port| == NPORTS && c.Send?
    ensures PhaseMoves(s, c, t, pid)
  {
    hide Inv, SignalR;
    HeadCall(s, c.p, maxmsgs);
    NotQueued(s, c.pid, c.p, maxmsgs);
    var e := s.port[c.p];
    if e.ssem.count > 0 {
      var u := SetPort(s, c.p, Linked(e.(ssem := Sema(e.ssem.count - 1, e.ssem.queue)), c.msg)).(free := s.free - 1);
      SignalPhase(u, c.p, pid);
      SignalKeepsIdle(u, c.p, c.pid);
    }
  }

  /** A process that does not wait is not granted. */
  lemma SignalKeepsIdle(s: Sys, p: int, pid: int)
    requires 0 <= p < |s.port| && pid !in s.port[p].rsem.queue && pid !in s.port[p].ssem.queue
    ensures pid in SignalR(s, p).proc ==> pid in s.proc && SignalR(s, p).proc[pid] == s.proc[pid]
    ensures pid in SignalS(s, p).proc ==> pid in s.proc && SignalS(s, p).proc[pid] == s.proc[pid]
  {
  }

  lemma RecvPhase(s: Sys, c: Call, t: Sys, maxmsgs: int, pid: int)
    requires Inv(s, maxmsgs) && Step(s, c, t, maxmsgs) && |s.port| == NPORTS && c.Recv?
    ensures PhaseMoves(s, c, t, pid)
  {
    hide Inv, SignalS;
    HeadCall(s, c.p, maxmsgs);
    NotQueued(s, c.pid, c.p, maxmsgs);
    var e := s.port[c.p];
    if e.rsem.count > 0 {
      var u := SetPort(s, c.p, Unlinked(e.(rsem := Sema(e.rsem.count - 1, e.rsem.queue)))).(free := s.free + 1);
      SignalPhase(u, c.p, pid);
      SignalKeepsIdle(u, c.p, c.pid);
    }
  }

  lemma GoOnPhase(s: Sys, c: Call, t: Sys, maxmsgs: int, pid: int)
    requires Inv(s, maxmsgs) && Step(s, c, t, maxmsgs) && |s.port| == NPORTS && c.GoOn?
    ensures PhaseMoves(s, c, t, pid)
  {
    hide Inv, SignalR, SignalS;
    var x := c.pid;
    var p := s.proc[x].port;
    var e := s.port[p];
    HeadCall(s, p, maxmsgs);
    if FreshS(s, x, maxmsgs) {
      SignalPhase(SetPort(s, p, Linked(e.(gs := e.gs - {x}), s.proc[x].msg)).(
                      free := s.free - 1, proc := s.proc[x := Idle]), p, pid);
    } else if FreshR(s, x, maxmsgs) {
      SignalPhase(SetPort(s, p, Unlinked(e.(gr := e.gr - {x}))).(free := s.free + 1, proc := s.proc[x := Idle]),
                  p, pid);
    }
  }

  lemma ClearPhase(s: Sys, c: Call, t: Sys, maxmsgs: int, pid: int)
    requires Step(s, c, t, maxmsgs) && |s.port| == NPORTS && (c.Clear? || c.ClearNext? || c.Create?)
    ensures PhaseMoves(s, c, t, pid)
  {
    hide Inv;
  }

  ghost predicate AllIdle(s: Sys) { forall x :: x in s.proc ==> s.proc[x].Idle? }

  /** In every run a process that is in a call is in the one it began last: with the port, the
      message and the kind of clearing of that call, and the generation its port had then. */
  lemma {:induction false} PhaseIsCall(s: seq<Sys>, cs: seq<Call>, maxmsgs: int, pid: int, k: nat)
    requires Run(s, cs, maxmsgs) && AllIdle(s[0]) && k <= |cs|
    ensures pid in s[k].proc && !s[k].proc[pid].Idle? ==>
              var j := LastCall(cs, pid, k);
              && j >= 0 && IsPort(cs[j].p) && |s[j].port| == NPORTS
              && PhaseOf(s[k].proc[pid], cs[j], s[j].port[cs[j].p].gen)
  {
    hide Inv, Step;
    if k > 0 {
      PhaseIsCall(s, cs, maxmsgs, pid, k - 1);
      RunInv(s, cs, maxmsgs, k - 1);
      assert Step(s[k - 1], cs[k - 1], s[k - 1 + 1], maxmsgs);
      PhaseStep(s[k - 1], cs[k - 1], s[k], maxmsgs, pid);
    }
  }

  // ---- First in, first out ---------------------------------------------------------------

  /** The call that the step `k` goes on with finds its port in the generation it recorded. */
  ghost predicate InTime(s: seq<Sys>, cs: seq<Call>, k: nat, q: int)
    requires |s| == |cs| + 1 && k < |cs| && cs[k].GoOn?
  {
    var j := LastCall(cs, cs[k].pid, k);
    && j >= 0 && !cs[j].Clear? && cs[j].p == q && IsPort(q) && |s[j].port| == NPORTS == |s[k].port|
    && s[k].port[q].state == PtAlloc && s[k].port[q].gen == s[j].port[q].gen
  }

  /** The message that step `k` sends to port `q`, if any, as a list: the argument of the
      call of ptsend that finds room, now or when it goes on in time. */
  ghost function SentBy(s: seq<Sys>, cs: seq<Call>, q: int, k: nat): seq<int>
    requires |s| == |cs| + 1 && k < |cs|
  {
    match cs[k]
    case Send(_, p, msg) =>
      if p == q && |s[k].port| == NPORTS && IsPort(p) && s[k].port[p].ssem.count > 0 then [msg] else []
    case GoOn(pid) =>
      var j := LastCall(cs, pid, k);
      if InTime(s, cs, k, q) && cs[j].Send? then [cs[j].msg] else []
    case _ => []
  }

  /** The message that step `k` takes from it: the one that ptrecv returns. */
  ghost function ReturnedBy(s: seq<Sys>, cs: seq<Call>, q: int, k: nat): seq<int>
    requires |s| == |cs| + 1 && k < |cs|
  {
    if |s[k].port| != NPORTS || !IsPort(q) || s[k].port[q].box == [] then []
    else
      match cs[k]
      case Recv(_, p) => if p == q && s[k].port[p].rsem.count > 0 then [s[k].port[q].box[0]] else []
      case GoOn(pid) =>
        if InTime(s, cs, k, q) && cs[LastCall(cs, pid, k)].Recv? then [s[k].port[q].box[0]] else []
      case _ => []
  }

  /** The same read off the state: the message that a step links to port `q`, and the one it
      takes. */
  ghost function LinkedBy(s: Sys, c: Call, maxmsgs: int, q: int): seq<int> {
    match c
    case Send(pid, p, msg) =>
      if p == q && |s.port| == NPORTS && IsPort(p) && s.port[p].ssem.count > 0 then [msg] else []
    case GoOn(pid) => if FreshS(s, pid, maxmsgs) && s.proc[pid].port == q then [s.proc[pid].msg] else []
    case _ => []
  }

  ghost function TakenBy(s: Sys, c: Call, maxmsgs: int, q: int): seq<int> {
    match c
    case Recv(pid, p) =>
      if p == q && |s.port| == NPORTS && IsPort(p) && s.port[p].rsem.count > 0 && s.port[p].box != []
          then [s.port[p].box[0]] else []
    case GoOn(pid) =>
      if FreshR(s, pid, maxmsgs) && s.proc[pid].port == q && s.port[q].box != [] then [s.port[q].box[0]] else []
    case _ => []
  }

  lemma SentIsLinked(s: seq<Sys>, cs: seq<Call>, maxmsgs: int, q: int, k: nat)
    requires Run(s, cs, maxmsgs) && AllIdle(s[0]) && k < |cs|
    ensures SentBy(s, cs, q, k) == LinkedBy(s[k], cs[k], maxmsgs, q)
    ensures ReturnedBy(s, cs, q, k) == TakenBy(s[k], cs[k], maxmsgs, q)
  {
    assert Step(s[k], cs[k], s[k + 1], maxmsgs);
    RunInv(s, cs, maxmsgs, k);
    InvPorts(s[k], maxmsgs);
    if cs[k].GoOn? {
      var pid := cs[k].pid;
      PhaseIsCall(s, cs, maxmsgs, pid, k);
      hide Inv, LastCall;
    }
  }

  ghost predicate InGen(s: Sys, q: int, g: int) { |s.port| == NPORTS && IsPort(q) && s.port[q].gen == g }

  /** Everything sent to port `q` in generation `g` in the first `k` steps, and everything
      handed out. */
  ghost function Ins(s: seq<Sys>, cs: seq<Call>, q: int, g: int, k: nat): seq<int>
    requires |s| == |cs| + 1 && k <= |cs|
  {
    if k == 0 then []
    else Ins(s, cs, q, g, k - 1) + if InGen(s[k - 1], q, g) then SentBy(s, cs, q, k - 1) else []
  }

  ghost function Outs(s: seq<Sys>, cs: seq<Call>, q: int, g: int, k: nat): seq<int>
    requires |s| == |cs| + 1 && k <= |cs|
  {
    if k == 0 then []
    else Outs(s, cs, q, g, k - 1) + if InGen(s[k - 1], q, g) then ReturnedBy(s, cs, q, k - 1) else []
  }

  /** What the port remembers of generation `g`, given what went in and came out. */
  ghost predicate Remembers(e: Port, g: int, ins: seq<int>, outs: seq<int>) {
    if e.gen < g then ins == [] == outs
    else if e.gen > g then outs <= ins
    else if e.state == PtAlloc then ins == e.linked && outs == e.taken
    else ins == [] == outs
  }

  /** How a step changes the messages of port `q`. */
  ghost predicate MessagesMove(s: Sys, c: Call, t: Sys, maxmsgs: int, q: int)
    requires |s.port| == NPORTS == |t.port| && IsPort(q)
  {
    var e, f := s.port[q], t.port[q];
    var ins, outs := LinkedBy(s, c, maxmsgs, q), TakenBy(s, c, maxmsgs, q);
    && (e.state != PtAlloc ==> ins == [] == outs)
    && (e.state == PtAlloc && f.gen == e.gen ==>
        f.state == PtAlloc && f.linked == e.linked + ins && f.taken == e.taken + outs)
    && (e.state == PtAlloc && f.gen > e.gen ==> f.state != PtAlloc && ins == [] == outs)
    && (e.state != PtAlloc && f.state == PtAlloc ==> f.linked == [] == f.taken)
  }

  lemma StepMoves(s: Sys, c: Call, t: Sys, maxmsgs: int, q: int)
    requires Inv(s, maxmsgs) && Step(s, c, t, maxmsgs) && IsPort(q)
    ensures |s.port| == NPORTS == |t.port| && MessagesMove(s, c, t, maxmsgs, q)
  {
    hide Inv, Step, MessagesMove;
    InvPorts(s, maxmsgs);
    match c
    case GoOn(pid) => GoOnMoves(s, c, t, maxmsgs, q);
    case ClearNext(pid) => ClearMoves(s, c, t, maxmsgs, q);
    case _ => CallMoves(s, c, t, maxmsgs, q);
  }

  lemma CallMoves(s: Sys, c: Call, t: Sys, maxmsgs: int, q: int)
    requires Step(s, c, t, maxmsgs) && IsPort(q) && |s.port| == NPORTS && !c.GoOn? && !c.ClearNext?
    ensures |t.port| == NPORTS && MessagesMove(s, c, t, maxmsgs, q)
  {
    hide Inv;
  }

  lemma GoOnMoves(s: Sys, c: Call, t: Sys, maxmsgs: int, q: int)
    requires Step(s, c, t, maxmsgs) && IsPort(q) && |s.port| == NPORTS && c.GoOn?
    ensures |t.port| == NPORTS && MessagesMove(s, c, t, maxmsgs, q)
  {
    hide Inv;
  }

  lemma ClearMoves(s: Sys, c: Call, t: Sys, maxmsgs: int, q: int)
    requires Inv(s, maxmsgs) && Step(s, c, t, maxmsgs) && IsPort(q) && |s.port| == NPORTS && c.ClearNext?
    ensures |t.port| == NPORTS && MessagesMove(s, c, t, maxmsgs, q)
  {
    hide Inv;
    ClearStage(s, c.pid, maxmsgs);
    ClearedPort(s, c.pid, maxmsgs);
  }

  lemma ClearedPort(s: Sys, pid: int, maxmsgs: int)
    requires Inv(s, maxmsgs) && pid in s.proc && s.proc[pid].Clearing? && IsPort(s.proc[pid].port)
    ensures var e := s.port[s.proc[pid].port];
            e.state == PtLimbo && (e.stage >= 2 ==> e.linked == [] == e.taken)
  {
    assert AgreeAt(s, pid, s.proc[pid].port) && PortOk(s.port[s.proc[pid].port]);
  }

  /** The messages handed out in one generation of a port are a prefix of those sent to it in
      that generation: they come out in order, none twice, none from another generation; and
      while it lasts the others are the ones queued. */
  lemma {:induction false} FirstInFirstOut(s: seq<Sys>, cs: seq<Call>, maxmsgs: int, q: int, g: int, k: nat)
    requires Run(s, cs, maxmsgs) && AllIdle(s[0]) && k <= |cs| && IsPort(q) && |s[0].port| == NPORTS
    requires InGen(s[0], q, g) ==> s[0].port[q].state != PtAlloc
    ensures |s[k].port| == NPORTS
    ensures Remembers(s[k].port[q], g, Ins(s, cs, q, g, k), Outs(s, cs, q, g, k))
    ensures Outs(s, cs, q, g, k) <= Ins(s, cs, q, g, k)
    ensures s[k].port[q].state == PtAlloc && s[k].port[q].gen == g ==>
              Ins(s, cs, q, g, k) == Outs(s, cs, q, g, k) + s[k].port[q].box
  {
    hide Inv, Step, LinkedBy, TakenBy, SentBy, ReturnedBy;
    RunInv(s, cs, maxmsgs, k);
    InvPorts(s[k], maxmsgs);
    if k > 0 {
      FirstInFirstOut(s, cs, maxmsgs, q, g, k - 1);
      var a, c, b := s[k - 1], cs[k - 1], s[k];
      assert Step(a, c, s[k - 1 + 1], maxmsgs);
      RunInv(s, cs, maxmsgs, k - 1);
      SentIsLinked(s, cs, maxmsgs, q, k - 1);
      StepMoves(a, c, b, maxmsgs, q);
      StepGen(a, c, b, maxmsgs, q);
    }
    TakenIsPrefix(s[k], q, maxmsgs);
  }

  lemma TakenIsPrefix(s: Sys, q: int, maxmsgs: int)
    requires Inv(s, maxmsgs) && IsPort(q)
    ensures s.port[q].state == PtAlloc ==>
              && s.port[q].taken <= s.port[q].linked
              && s.port[q].linked == s.port[q].taken + s.port[q].box
  {
    assert PortOk(s.port[q]);
  }

  // ---- First come, first served ----------------------------------------------------------

  /** The senders, or the receivers, that wait for a port. */
  function Waiting(e: Port, senders: bool): seq<int> { if senders then e.ssem.queue else e.rsem.queue }

  /** The process that must wait for port `q`, if any, as a list. */
  ghost function ArrivedBy(s: Sys, c: Call, q: int, senders: bool): seq<int> {
    if |s.port| != NPORTS || !IsPort(q) then []
    else
      match c
      case Send(pid, p, _) => if senders && p == q && s.port[q].ssem.count <= 0 then [pid] else []
      case Recv(pid, p) => if !senders && p == q && s.port[q].rsem.count <= 0 then [pid] else []
      case _ => []
  }

  /** The first waiting process, if the step grants it. */
  ghost function GrantedBy(s: Sys, t: Sys, q: int, senders: bool): seq<int>
    requires |s.port| == NPORTS && IsPort(q)
  {
    var l := Waiting(s.port[q], senders);
    if l != [] && l[0] in s.proc && l[0] in t.proc
       && (if senders then s.proc[l[0]].WaitS? && t.proc[l[0]].GotS? else s.proc[l[0]].WaitR? && t.proc[l[0]].GotR?)
    then [l[0]] else []
  }

  ghost predicate AllocIn(s: Sys, q: int, g: int) { InGen(s, q, g) && s.port[q].state == PtAlloc }

  ghost function Arrivals(s: seq<Sys>, cs: seq<Call>, q: int, g: int, senders: bool, k: nat): seq<int>
    requires |s| == |cs| + 1 && k <= |cs|
  {
    if k == 0 then []
    else Arrivals(s, cs, q, g, senders, k - 1)
         + if AllocIn(s[k - 1], q, g) && InGen(s[k], q, g) then ArrivedBy(s[k - 1], cs[k - 1], q, senders) else []
  }

  ghost function Grants(s: seq<Sys>, cs: seq<Call>, q: int, g: int, senders: bool, k: nat): seq<int>
    requires |s| == |cs| + 1 && k <= |cs|
  {
    if k == 0 then []
    else Grants(s, cs, q, g, senders, k - 1)
         + if AllocIn(s[k - 1], q, g) && InGen(s[k], q, g) then GrantedBy(s[k - 1], s[k], q, senders) else []
  }

  /** How a step changes who waits for port `q`. */
  ghost predicate WaitersMove(s: Sys, c: Call, t: Sys, q: int, senders: bool)
    requires |s.port| == NPORTS == |t.port| && IsPort(q)
  {
    var e, f := s.port[q], t.port[q];
    && (e.state == PtAlloc && f.gen == e.gen ==>
          Waiting(e, senders) + ArrivedBy(s, c, q, senders) == GrantedBy(s, t, q, senders) + Waiting(f, senders))
    && (e.state != PtAlloc && f.state == PtAlloc ==> Waiting(f, senders) == [])
    && (e.state == PtAlloc ==> (f.state == PtAlloc <==> f.gen == e.gen))
  }

  /** The first in the queue of a semaphore waits there, and there is one exactly if the
      count is below zero. */
  lemma HeadsWait(s: Sys, p: int, maxmsgs: int)
    requires Inv(s, maxmsgs) && IsPort(p)
    ensures |s.port| == NPORTS
    ensures var e := s.port[p];
            && (e.rsem.queue != [] <==> e.rsem.count < 0) && (e.ssem.queue != [] <==> e.ssem.count < 0)
            && (e.rsem.queue != [] ==> HeadIn(s, p, e.rsem.queue[0]) && s.proc[e.rsem.queue[0]].WaitR?)
            && (e.ssem.queue != [] ==> HeadIn(s, p, e.ssem.queue[0]) && s.proc[e.ssem.queue[0]].WaitS?)
  {
    var e := s.port[p];
    assert PortOk(e) && Known(s, p);
    if e.rsem.queue != [] { assert AgreeAt(s, e.rsem.queue[0], p); }
    if e.ssem.queue != [] { assert AgreeAt(s, e.ssem.queue[0], p); }
  }

  ghost predicate HeadIn(s: Sys, p: int, h: int) { h in s.proc && !s.proc[h].Idle? && s.proc[h].port == p }

  /** Nobody joins or is granted at port `q`. */
  lemma SameWaiters(s: Sys, c: Call, t: Sys, q: int, senders: bool)
    requires |s.port| == NPORTS == |t.port| && IsPort(q) && ArrivedBy(s, c, q, senders) == []
    requires t.port[q].state == s.port[q].state && t.port[q].gen == s.port[q].gen
    requires var l := Waiting(s.port[q], senders);
             && Waiting(t.port[q], senders) == l
             && (l != [] && l[0] in s.proc && l[0] in t.proc ==> t.proc[l[0]] == s.proc[l[0]])
    ensures WaitersMove(s, c, t, q, senders)
  {
  }

  /** The caller joins. */
  lemma JoinedWaiters(s: Sys, c: Call, t: Sys, q: int, senders: bool)
    requires |s.port| == NPORTS == |t.port| && IsPort(q)
    requires t.port[q].state == s.port[q].state && t.port[q].gen == s.port[q].gen
    requires var l := Waiting(s.port[q], senders);
             && Waiting(t.port[q], senders) == l + ArrivedBy(s, c, q, senders)
             && (l != [] && l[0] in s.proc && l[0] in t.proc ==> t.proc[l[0]] == s.proc[l[0]])
    ensures WaitersMove(s, c, t, q, senders)
  {
  }

  /** The first one is granted. */
  lemma ServedWaiters(s: Sys, c: Call, t: Sys, q: int, senders: bool)
    requires |s.port| == NPORTS == |t.port| && IsPort(q) && ArrivedBy(s, c, q, senders) == []
    requires t.port[q].state == s.port[q].state && t.port[q].gen == s.port[q].gen
    requires var l := Waiting(s.port[q], senders);
             && l != [] && Waiting(t.port[q], senders) == l[1..] && GrantedBy(s, t, q, senders) == [l[0]]
    ensures WaitersMove(s, c, t, q, senders)
  {
    var l := Waiting(s.port[q], senders);
    assert l == [l[0]] + l[1..];
  }

  /** What a signal on the receivers of `p` does. */
  lemma SignalRDoes(u: Sys, p: int)
    requires 0 <= p < |u.port| && (u.port[p].rsem.queue != [] <==> u.port[p].rsem.count < 0)
    requires var l := u.port[p].rsem.queue; l != [] ==> l[0] in u.proc && u.proc[l[0]].WaitR?
    ensures var t, e := SignalR(u, p), u.port[p];
            && |t.port| == |u.port| && (forall q :: 0 <= q < |u.port| && q != p ==> t.port[q] == u.port[q])
            && t.port[p].ssem == e.ssem && t.port[p].state == e.state && t.port[p].gen == e.gen
            && if e.rsem.queue == [] then t.port[p].rsem.queue == [] && t.proc == u.proc
               else t.port[p].rsem.queue == e.rsem.queue[1..]
                    && t.proc == u.proc[e.rsem.queue[0] := GotR(p, u.proc[e.rsem.queue[0]].gen)]
  {
  }

  lemma SignalSDoes(u: Sys, p: int)
    requires 0 <= p < |u.port| && (u.port[p].ssem.queue != [] <==> u.port[p].ssem.count < 0)
    requires var l := u.port[p].ssem.queue; l != [] ==> l[0] in u.proc && u.proc[l[0]].WaitS?
    ensures var t, e := SignalS(u, p), u.port[p];
            && |t.port| == |u.port| && (forall q :: 0 <= q < |u.port| && q != p ==> t.port[q] == u.port[q])
            && t.port[p].rsem == e.rsem && t.port[p].state == e.state && t.port[p].gen == e.gen
            && if e.ssem.queue == [] then t.port[p].ssem.queue == [] && t.proc == u.proc
               else var q := e.ssem.queue[0];
                    && t.port[p].ssem.queue == e.ssem.queue[1..]
                    && t.proc == u.proc[q := GotS(p, u.proc[q].gen, u.proc[q].msg)]
  {
  }

  /** `u` is `s` but for the messages and counts of port `p` and the phase of `x`, which does
      not wait. */
  ghost predicate UpTo(s: Sys, u: Sys, p: int, x: int)
    requires |s.port| == NPORTS && IsPort(p)
  {
    && |u.port| == NPORTS && (forall q :: IsPort(q) && q != p ==> u.port[q] == s.port[q])
    && u.port[p].ssem.queue == s.port[p].ssem.queue && u.port[p].rsem.queue == s.port[p].rsem.queue
    && u.port[p].state == s.port[p].state && u.port[p].gen == s.port[p].gen
    && (forall y :: y in s.proc && y != x ==> y in u.proc && u.proc[y] == s.proc[y])
    && (x in s.proc ==> !s.proc[x].WaitS? && !s.proc[x].WaitR?)
  }

  lemma AfterSignalR(s: Sys, c: Call, u: Sys, p: int, x: int, maxmsgs: int, q: int, senders: bool)
    requires Inv(s, maxmsgs) && IsPort(p) && IsPort(q) && |s.port| == NPORTS && UpTo(s, u, p, x)
    requires (u.port[p].rsem.queue != [] <==> u.port[p].rsem.count < 0) && ArrivedBy(s, c, q, senders) == []
    ensures |SignalR(u, p).port| == NPORTS && WaitersMove(s, c, SignalR(u, p), q, senders)
  {
    hide Inv, SignalR, WaitersMove;
    HeadsWait(s, p, maxmsgs);
    HeadsWait(s, q, maxmsgs);
    SignalRDoes(u, p);
    if q == p && !senders && u.port[p].rsem.queue != [] {
      ServedWaiters(s, c, SignalR(u, p), q, senders);
    } else {
      SameWaiters(s, c, SignalR(u, p), q, senders);
    }
  }

  lemma AfterSignalS(s: Sys, c: Call, u: Sys, p: int, x: int, maxmsgs: int, q: int, senders: bool)
    requires Inv(s, maxmsgs) && IsPort(p) && IsPort(q) && |s.port| == NPORTS && UpTo(s, u, p, x)
    requires (u.port[p].ssem.queue != [] <==> u.port[p].ssem.count < 0) && ArrivedBy(s, c, q, senders) == []
    ensures |SignalS(u, p).port| == NPORTS && WaitersMove(s, c, SignalS(u, p), q, senders)
  {
    hide Inv, SignalS, WaitersMove;
    HeadsWait(s, p, maxmsgs);
    HeadsWait(s, q, maxmsgs);
    SignalSDoes(u, p);
    if q == p && senders && u.port[p].ssem.queue != [] {
      ServedWaiters(s, c, SignalS(u, p), q, senders);
    } else {
      SameWaiters(s, c, SignalS(u, p), q, senders);
    }
  }

  lemma CallWaiters(s: Sys, c: Call, t: Sys, maxmsgs: int, q: int, senders: bool)
    requires Inv(s, maxmsgs) && Step(s, c, t, maxmsgs) && IsPort(q) && |s.port| == NPORTS && (c.Send? || c.Recv?)
    ensures |t.port| == NPORTS && WaitersMove(s, c, t, q, senders)
  {
    hide Inv, SignalR, SignalS, WaitersMove;
    var p, e := c.p, s.port[c.p];
    HeadsWait(s, p, maxmsgs);
    HeadsWait(s, q, maxmsgs);
    NotQueued(s, c.pid, p, maxmsgs);
    if c.Send? && e.ssem.count > 0 {
      var u := SetPort(s, p, Linked(e.(ssem := Sema(e.ssem.count - 1, e.ssem.queue)), c.msg)).(free := s.free - 1);
      AfterSignalR(s, c, u, p, c.pid, maxmsgs, q, senders);
    } else if c.Recv? && e.rsem.count > 0 {
      var u := SetPort(s, p, Unlinked(e.(rsem := Sema(e.rsem.count - 1, e.rsem.queue)))).(free := s.free + 1);
      AfterSignalS(s, c, u, p, c.pid, maxmsgs, q, senders);
    } else {
      JoinedWaiters(s, c, t, q, senders);
    }
  }

  lemma GoOnWaiters(s: Sys, c: Call, t: Sys, maxmsgs: int, q: int, senders: bool)
    requires Inv(s, maxmsgs) && Step(s, c, t, maxmsgs) && IsPort(q) && |s.port| == NPORTS && c.GoOn?
    ensures |t.port| == NPORTS && WaitersMove(s, c, t, q, senders)
  {
    hide Inv, SignalR, SignalS, WaitersMove;
    var x := c.pid;
    var p := s.proc[x].port;
    var e := s.port[p];
    HeadsWait(s, p, maxmsgs);
    HeadsWait(s, q, maxmsgs);
    if FreshS(s, x, maxmsgs) {
      AfterSignalR(s, c, SetPort(s, p, Linked(e.(gs := e.gs - {x}), s.proc[x].msg)).(
                             free := s.free - 1, proc := s.proc[x := Idle]), p, x, maxmsgs, q, senders);
    } else if FreshR(s, x, maxmsgs) {
      AfterSignalS(s, c, SetPort(s, p, Unlinked(e.(gr := e.gr - {x}))).(
                             free := s.free + 1, proc := s.proc[x := Idle]), p, x, maxmsgs, q, senders);
    } else {
      SameWaiters(s, c, t, q, senders);
    }
  }

  lemma ClearWaiters(s: Sys, c: Call, t: Sys, maxmsgs: int, q: int, senders: bool)
    requires Inv(s, maxmsgs) && Step(s, c, t, maxmsgs) && IsPort(q) && |s.port| == NPORTS
    requires c.Clear? || c.ClearNext? || c.Create?
    ensures |t.port| == NPORTS && WaitersMove(s, c, t, q, senders)
  {
    hide Inv, Step;
    ClearedPortIs(s, c, t, maxmsgs);
    var p := if c.ClearNext? then s.proc[c.pid].port else c.p;
    if p == q { ClearedHere(s, c, t, maxmsgs, senders); } else { ClearedElsewhere(s, c, t, maxmsgs, q, senders); }
  }

  lemma ClearedPortIs(s: Sys, c: Call, t: Sys, maxmsgs: int)
    requires Step(s, c, t, maxmsgs) && (c.Clear? || c.ClearNext? || c.Create?)
    ensures if c.ClearNext? then c.pid in s.proc && s.proc[c.pid].Clearing? && IsPort(s.proc[c.pid].port)
            else IsPort(c.p)
  {
    hide Inv;
  }

  lemma ClearedHere(s: Sys, c: Call, t: Sys, maxmsgs: int, senders: bool)
    requires Inv(s, maxmsgs) && Step(s, c, t, maxmsgs) && |s.port| == NPORTS
    requires c.Clear? || c.ClearNext? || c.Create?
    requires c.ClearNext? ==> c.pid in s.proc && s.proc[c.pid].Clearing? && IsPort(s.proc[c.pid].port)
    ensures var q := if c.ClearNext? then s.proc[c.pid].port else c.p;
            IsPort(q) && |t.port| == NPORTS && WaitersMove(s, c, t, q, senders)
  {
    if c.ClearNext? { ClearedQueues(s, c.pid, maxmsgs); }
    hide Inv, GrantedBy, ReleaseAll;
  }

  lemma ClearedElsewhere(s: Sys, c: Call, t: Sys, maxmsgs: int, q: int, senders: bool)
    requires Inv(s, maxmsgs) && Step(s, c, t, maxmsgs) && IsPort(q) && |s.port| == NPORTS
    requires c.Clear? || c.ClearNext? || c.Create?
    requires c.ClearNext? ==> c.pid in s.proc && s.proc[c.pid].Clearing? && IsPort(s.proc[c.pid].port)
    requires q != if c.ClearNext? then s.proc[c.pid].port else c.p
    ensures |t.port| == NPORTS && WaitersMove(s, c, t, q, senders)
  {
    HeadsWait(s, q, maxmsgs);
    if c.ClearNext? { OthersHeads(s, s.proc[c.pid].port, q, maxmsgs); }
    hide Inv, WaitersMove;
    SameWaiters(s, c, t, q, senders);
  }

  /** Who waits for one port does not wait for another. */
  lemma OthersHeads(s: Sys, p: int, q: int, maxmsgs: int)
    requires Inv(s, maxmsgs) && IsPort(p) && IsPort(q) && p != q
    ensures |s.port| == NPORTS
    ensures forall x :: x in s.port[q].ssem.queue || x in s.port[q].rsem.queue ==>
              x !in s.port[p].ssem.queue && x !in s.port[p].rsem.queue
  {
    forall x | x in s.port[q].ssem.queue || x in s.port[q].rsem.queue
      ensures x !in s.port[p].ssem.queue && x !in s.port[p].rsem.queue
    {
      assert Known(s, q);
      assert AgreeAt(s, x, q) && AgreeAt(s, x, p);
    }
  }

  lemma ClearedQueues(s: Sys, pid: int, maxmsgs: int)
    requires Inv(s, maxmsgs) && pid in s.proc && s.proc[pid].Clearing? && IsPort(s.proc[pid].port)
    ensures var e := s.port[s.proc[pid].port];
            && e.state == PtLimbo && 1 <= e.stage <= 3 && e.realloc == s.proc[pid].realloc
            && (e.stage >= 3 ==> e.ssem.queue == [] == e.rsem.queue && e.box == [] && e.rsem.count == 0
                                 && (e.realloc ==> e.ssem.count == e.maxcnt))
  {
    assert AgreeAt(s, pid, s.proc[pid].port) && PortOk(s.port[s.proc[pid].port]);
  }

  lemma StepWaiters(s: Sys, c: Call, t: Sys, maxmsgs: int, q: int, senders: bool)
    requires Inv(s, maxmsgs) && Step(s, c, t, maxmsgs) && IsPort(q)
    ensures |s.port| == NPORTS == |t.port| && WaitersMove(s, c, t, q, senders)
  {
    hide Inv, Step, WaitersMove;
    InvPorts(s, maxmsgs);
    match c
    case GoOn(_) => GoOnWaiters(s, c, t, maxmsgs, q, senders);
    case Send(_, _, _) => CallWaiters(s, c, t, maxmsgs, q, senders);
    case Recv(_, _) => CallWaiters(s, c, t, maxmsgs, q, senders);
    case _ => ClearWaiters(s, c, t, maxmsgs, q, senders);
  }

  /** In one generation of a port the senders, and the receivers, that had to wait are
      granted in the order in which they called, and the others wait in that order. */
  lemma {:induction false} FirstComeFirstServed(s: seq<Sys>, cs: seq<Call>, maxmsgs: int, q: int, g: int,
                                                senders: bool, k: nat)
    requires Run(s, cs, maxmsgs) && k <= |cs| && IsPort(q)
    requires !AllocIn(s[0], q, g)
    ensures AllocIn(s[k], q, g) ==>
              Arrivals(s, cs, q, g, senders, k) == Grants(s, cs, q, g, senders, k) + Waiting(s[k].port[q], senders)
    ensures |s[k].port| == NPORTS
    ensures !AllocIn(s[k], q, g) && s[k].port[q].gen <= g ==>
              Arrivals(s, cs, q, g, senders, k) == [] == Grants(s, cs, q, g, senders, k)
  {
    hide Inv, Step, ArrivedBy, GrantedBy;
    RunInv(s, cs, maxmsgs, k);
    InvPorts(s[k], maxmsgs);
    if k > 0 {
      FirstComeFirstServed(s, cs, maxmsgs, q, g, senders, k - 1);
      var a, c, b := s[k - 1], cs[k - 1], s[k];
      assert Step(a, c, s[k - 1 + 1], maxmsgs);
      RunInv(s, cs, maxmsgs, k - 1);
      StepWaiters(a, c, b, maxmsgs, q, senders);
      StepGen(a, c, b, maxmsgs, q);
      var i, o := Arrivals(s, cs, q, g, senders, k - 1), Grants(s, cs, q, g, senders, k - 1);
      if AllocIn(a, q, g) && AllocIn(b, q, g) {
        var e, f := Waiting(a.port[q], senders), Waiting(b.port[q], senders);
        assert i + ArrivedBy(a, c, q, senders) == o + (e + ArrivedBy(a, c, q, senders));
        assert o + (GrantedBy(a, b, q, senders) + f) == (o + GrantedBy(a, b, q, senders)) + f;
      }
    }
  }

  // ---- The end of a clearing ---------------------------------------------------------------

  /** A port that was reset is allocated again and a port that was deleted is free, both
      without messages and without anybody waiting. */
  lemma ClearedAs(s: seq<Sys>, cs: seq<Call>, maxmsgs: int, k: nat)
    requires Run(s, cs, maxmsgs) && AllIdle(s[0]) && k < |cs| && cs[k].ClearNext?
    ensures var pid := cs[k].pid;
            pid in s[k].proc && s[k].proc[pid].Clearing?
    ensures var j := LastCall(cs, cs[k].pid, k);
            && j >= 0 && cs[j].Clear? && IsPort(cs[j].p) && |s[k].port| == NPORTS == |s[k + 1].port|
            && var e, f := s[k].port[cs[j].p], s[k + 1].port[cs[j].p];
               e.stage == 3 ==>
                 && f.state == (if cs[j].realloc then PtAlloc else PtFree) && f.box == []
                 && f.ssem.queue == [] == f.rsem.queue && f.gen == e.gen
                 && (cs[j].realloc ==> f.ssem.count == f.maxcnt == e.maxcnt && f.rsem.count == 0)
  {
    hide Inv;
    assert Step(s[k], cs[k], s[k + 1], maxmsgs);
    RunInv(s, cs, maxmsgs, k);
    PhaseIsCall(s, cs, maxmsgs, cs[k].pid, k);
    ClearedQueues(s[k], cs[k].pid, maxmsgs);
  }
}
