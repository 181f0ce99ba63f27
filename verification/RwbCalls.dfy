/** The calls on read-write blockers in place, with rescheduling deferred to the end of
    each. */
module RwbCalls {
  import opened Common
  import opened RwBlocker
  import opened RwbTable
  import opened RwbRuns

  class Rwbtab {
    var rwbtab: seq<Rwbentry>
    var rwbflags: seq<int>
    var nextrwb: int
    ghost var who: seq<Members>

    ghost function State(): Rwbs
      reads this
    {
      Rwbs(rwbtab, rwbflags, who)
    }

    ghost predicate Valid()
      reads this
    {
      TabInv(State()) && IsRwb(nextrwb)
    }

    /** The part of initialize that clears the table. */
    constructor Sysinit()
      ensures Valid() && State() == Fresh()
    {
      rwbtab := seq(RWB_COUNT, _ => Rwbentry(false, 0, [], 0));
      rwbflags := seq(NPROC, _ => 0);
      nextrwb := 0;
      who := seq(RWB_COUNT, _ => Members(0, {}, {}, [], []));
      new;
      FreshInv();
      assert rwbtab == Fresh().tab && rwbflags == Fresh().flags && who == Fresh().who;
    }

    /** newrwb. */
    method Newrwb() returns (rwb: int)
      requires Valid()
      modifies this`nextrwb, this`rwbtab
      ensures Shape(old(State())) && IsRwb(nextrwb)
      ensures rwb == SYSERR ==> rwbtab == old(rwbtab)
      ensures rwb == SYSERR <==> forall i :: IsRwb(i) ==> old(rwbtab)[i].used
      ensures rwb != SYSERR ==>
                IsRwb(rwb) && !old(rwbtab)[rwb].used && rwbtab == old(rwbtab)[rwb := old(rwbtab)[rwb].(used := true)]
    {
      hide Probed, TabInv;
      TabShape(State());
      ghost var start := nextrwb;
      ProbedNext(start, RWB_COUNT, 0);
      for i := 0 to RWB_COUNT
        invariant rwbtab == old(rwbtab) && IsRwb(nextrwb) && nextrwb == Probed(start, RWB_COUNT, i)
        invariant forall j :: 0 <= j < i ==> rwbtab[Probed(start, RWB_COUNT, j)].used
      {
        ProbedNext(start, RWB_COUNT, i);
        rwb := nextrwb;
        nextrwb := if nextrwb + 1 >= RWB_COUNT then 0 else nextrwb + 1;
        if !rwbtab[rwb].used {
          rwbtab := rwbtab[rwb := rwbtab[rwb].(used := true)];
          return;
        }
      }
      forall i | IsRwb(i)
        ensures rwbtab[i].used
      {
        ProbedAll(start, RWB_COUNT, i);
      }
      return SYSERR;
    }

    method Rwbcreate(count: int) returns (r: int)
      requires Valid()
      modifies this
      ensures Valid()
      ensures r == SYSERR <==> count < 0 || forall i :: IsRwb(i) ==> old(rwbtab)[i].used
      ensures r == SYSERR ==> State() == old(State())
      ensures r != SYSERR ==> IsRwb(r) && Step(old(State()), Create(r, count), State())
    {
      hide TabInv, Step, Opened;
      ghost var s := State();
      TabShape(s);
      if count < 0 {
        return SYSERR;
      }
      r := Newrwb();
      if r == SYSERR {
        return;
      }
      OpenedInv(s, r, count);
      OpenedIs(s, r, count);
      rwbtab := rwbtab[r := rwbtab[r].(rwcount := count)];
      who := who[r := who[r].(base := count)];
      assert State() == Opened(s, r, count);
    }

    lemma OpenedIs(s: Rwbs, i: int, count: int)
      requires Shape(s) && IsRwb(i) && !s.tab[i].used && count >= 0
      ensures Opened(s, i, count) ==
              Rwbs(s.tab[i := s.tab[i].(used := true)][i := s.tab[i].(used := true, rwcount := count)],
                   s.flags, s.who[i := s.who[i].(base := count)])
      ensures Step(s, Create(i, count), Opened(s, i, count))
    {
      assert s.tab[i := s.tab[i].(used := true)][i := s.tab[i].(used := true, rwcount := count)]
          == s.tab[i := s.tab[i].(used := true, rwcount := count)];
    }

    method RwbTryread(currpid: int, rwb: int) returns (r: int, blocked: bool)
      requires Valid() && Pid(currpid)
      modifies this
      ensures r == SYSERR <==> BadRwb(old(State()), rwb)
      ensures r == SYSERR ==> State() == old(State())
      ensures r != SYSERR ==> r == OK && IsRwb(rwb) && Shape(old(State()))
                              && State() == ReadTried(old(State()), rwb, currpid)
      // the table stays in order exactly when the caller uses no blocker yet
      ensures r != SYSERR ==> (Valid() <==> old(rwbflags)[currpid] == 0)
      ensures r != SYSERR && old(rwbflags)[currpid] == 0 ==>
                && Step(old(State()), Read(rwb, currpid), State())
                && (blocked <==> currpid !in who[rwb].readers) && (!blocked ==> who[rwb].writers == {})
    {
      hide TabInv, ReadTried, Step;
      TabShape(State());
      blocked := false;
      if !IsRwb(rwb) || !rwbtab[rwb].used {
        return SYSERR, false;
      }
      ghost var s := State();
      TryKeepsOrder(s, rwb, currpid);
      if s.flags[currpid] == 0 { Alone(s, rwb, currpid); }
      ReadIs(s, rwb, currpid);
      Steps(s, rwb, currpid);
      rwbflags := rwbflags[currpid := READER];
      ghost var m := who[rwb].(asked := who[rwb].asked + [currpid]);
      var e := rwbtab[rwb];
      if e.rwcount < 0 || e.qcount > 0 {
        rwbtab := rwbtab[rwb := e.(qcount := e.qcount + 1, rwqueue := e.rwqueue + [currpid])];
        blocked := true;
      } else {
        rwbtab := rwbtab[rwb := e.(rwcount := e.rwcount + 1)];
        m := m.(readers := m.readers + {currpid}, entered := m.entered + [currpid]);
      }
      who := who[rwb := m];
      assert State() == ReadTried(s, rwb, currpid);
      return OK, blocked;
    }

    method RwbTrywrite(currpid: int, rwb: int) returns (r: int, blocked: bool)
      requires Valid() && Pid(currpid)
      modifies this
      ensures r == SYSERR <==> BadRwb(old(State()), rwb)
      ensures r == SYSERR ==> State() == old(State())
      ensures r != SYSERR ==> r == OK && IsRwb(rwb) && Shape(old(State()))
                              && State() == WriteTried(old(State()), rwb, currpid)
      // the table stays in order exactly when the caller uses no blocker yet
      ensures r != SYSERR ==> (Valid() <==> old(rwbflags)[currpid] == 0)
      ensures r != SYSERR && old(rwbflags)[currpid] == 0 ==>
                && Step(old(State()), Write(rwb, currpid), State())
                && (blocked <==> currpid !in who[rwb].writers)
                && (!blocked ==> who[rwb].writers == {currpid} && who[rwb].readers == {})
    {
      hide TabInv, WriteTried, Step;
      TabShape(State());
      blocked := false;
      if !IsRwb(rwb) || !rwbtab[rwb].used {
        return SYSERR, false;
      }
      ghost var s := State();
      TryKeepsOrder(s, rwb, currpid);
      if s.flags[currpid] == 0 { Alone(s, rwb, currpid); }
      WriteIs(s, rwb, currpid);
      Steps(s, rwb, currpid);
      rwbflags := rwbflags[currpid := WRITER];
      ghost var m := who[rwb].(asked := who[rwb].asked + [currpid]);
      var e := rwbtab[rwb];
      if e.rwcount != 0 || e.qcount > 0 {
        rwbtab := rwbtab[rwb := e.(qcount := e.qcount + 1, rwqueue := e.rwqueue + [currpid])];
        blocked := true;
      } else {
        rwbtab := rwbtab[rwb := e.(rwcount := e.rwcount - 1)];
        m := m.(writers := m.writers + {currpid}, entered := m.entered + [currpid]);
      }
      who := who[rwb := m];
      assert State() == WriteTried(s, rwb, currpid);
      return OK, blocked;
    }

    /** What the count says about who is inside. */
    lemma Alone(s: Rwbs, i: int, x: int)
      requires TabInv(s) && IsRwb(i) && Pid(x) && s.flags[x] == 0
      ensures s.tab[i].rwcount >= 0 ==> s.who[i].writers == {}
      ensures s.tab[i].rwcount == 0 ==> s.who[i].readers == {}
      ensures x !in s.who[i].readers && x !in s.who[i].writers && x !in s.tab[i].rwqueue
    {
      assert EntryInv(s, i) && Single(s, x) && !Uses(s, i, x);
    }

    lemma Steps(s: Rwbs, i: int, x: int)
      requires Shape(s) && !BadRwb(s, i) && Pid(x)
      ensures s.flags[x] == 0 ==> Step(s, Read(i, x), ReadTried(s, i, x)) && Step(s, Write(i, x), WriteTried(s, i, x))
      ensures x in s.who[i].readers || x in s.who[i].writers ==> Step(s, Leave(i, x), SignalMade(s, i, x))
    {
    }

    /** The two tries, field by field. */
    lemma ReadIs(s: Rwbs, i: int, x: int)
      requires Shape(s) && IsRwb(i) && Pid(x)
      ensures var e, m := s.tab[i], s.who[i].(asked := s.who[i].asked + [x]);
              ReadTried(s, i, x) ==
                if e.rwcount < 0 || e.qcount > 0 then
                  Rwbs(s.tab[i := e.(qcount := e.qcount + 1, rwqueue := e.rwqueue + [x])], s.flags[x := READER],
                      s.who[i := m])
                else
                  Rwbs(s.tab[i := e.(rwcount := e.rwcount + 1)], s.flags[x := READER],
                       s.who[i := m.(readers := m.readers + {x}, entered := m.entered + [x])])
    {
    }

    lemma WriteIs(s: Rwbs, i: int, x: int)
      requires Shape(s) && IsRwb(i) && Pid(x)
      ensures var e, m := s.tab[i], s.who[i].(asked := s.who[i].asked + [x]);
              WriteTried(s, i, x) ==
                if e.rwcount != 0 || e.qcount > 0 then
                  Rwbs(s.tab[i := e.(qcount := e.qcount + 1, rwqueue := e.rwqueue + [x])], s.flags[x := WRITER],
                      s.who[i := m])
                else
                  Rwbs(s.tab[i := e.(rwcount := e.rwcount - 1)], s.flags[x := WRITER],
                       s.who[i := m.(writers := m.writers + {x}, entered := m.entered + [x])])
    {
    }

    // ---- signalrwb ---------------------------------------------------------------------

    /** Entry `i` of the table holds what `t` says. */
    ghost predicate Holds(i: int, t: Lock)
      reads this
    {
      && |rwbtab| == |who| == RWB_COUNT && |rwbflags| == NPROC && IsRwb(i)
      && rwbtab[i] == Rwbentry(true, t.rwcount, t.queue, t.qcount)
      && who[i] == Members(t.base, t.readers, t.writers, t.asked, t.entered)
      && forall k :: 0 <= k < |t.queue| ==> Pid(t.queue[k]) && rwbflags[t.queue[k]] == Flag(t, t.queue[k])
    }

    /** The first waiting process leaves the queue as a reader or as a writer. */
    method TakeOff(i: int, step: int, ghost t: Lock, ghost u: Lock)
      requires Holds(i, t) && t.queue != []
      requires (step == 1 && u == ReleaseReader(t)) || (step == -1 && u == ReleaseWriter(t))
      modifies this`rwbtab, this`who
      ensures Holds(i, u) && rwbtab == old(rwbtab)[i := rwbtab[i]] && who == old(who)[i := who[i]]
    {
      rwbtab := rwbtab[i := rwbtab[i].(qcount := rwbtab[i].qcount - 1)];
      rwbtab := rwbtab[i := rwbtab[i].(rwqueue := rwbtab[i].rwqueue[1..])];
      rwbtab := rwbtab[i := rwbtab[i].(rwcount := rwbtab[i].rwcount + step)];
      who := who[i := Members(u.base, u.readers, u.writers, u.asked, u.entered)];
    }

    /** The loop that releases the readers at the head of the queue. */
    method ReleaseLoop(i: int, ghost t: Lock)
      requires Holds(i, t) && t.queue != [] && Flag(t, t.queue[0]) == READER
      modifies this`rwbtab, this`who
      ensures Holds(i, ReleaseReaders(t)) && rwbtab == old(rwbtab)[i := rwbtab[i]] && who == old(who)[i := who[i]]
    {
      ghost var u := t;
      var next := rwbflags[rwbtab[i].rwqueue[0]];
      while next == READER
        invariant Holds(i, u) && ReleaseReaders(t) == ReleaseReaders(u)
        invariant next == if u.queue == [] then 0 else Flag(u, u.queue[0])
        invariant rwbtab == old(rwbtab)[i := rwbtab[i]] && who == old(who)[i := who[i]]
        decreases |u.queue|
      {
        TakeOff(i, 1, u, ReleaseReader(u));
        u := ReleaseReader(u);
        next := if rwbtab[i].rwqueue == [] then 0 else rwbflags[rwbtab[i].rwqueue[0]];
      }
    }

    /** The holder leaves: its flag is cleared and the count corrected. */
    method LeaveCount(i: int, x: int, ghost s: Rwbs)
      requires s == State() && TabInv(s) && !BadRwb(s, i) && Pid(x) && (x in s.who[i].readers || x in s.who[i].writers)
      modifies this`rwbtab, this`rwbflags, this`who
      ensures Holds(i, Left(View(s, i), x))
      ensures rwbtab == old(rwbtab)[i := rwbtab[i]] && who == old(who)[i := who[i]] && rwbflags == old(rwbflags)[x := 0]
    {
      HolderFlag(s, i, x);
      hide Inv, TabInv;
      var isWriter := rwbflags[x];
      rwbflags := rwbflags[x := 0];
      if isWriter == WRITER {
        rwbtab := rwbtab[i := rwbtab[i].(rwcount := rwbtab[i].rwcount + 1)];
      } else {
        rwbtab := rwbtab[i := rwbtab[i].(rwcount := rwbtab[i].rwcount - 1)];
      }
      who := who[i := who[i].(readers := who[i].readers - {x}, writers := who[i].writers - {x})];
    }

    lemma HolderFlag(s: Rwbs, i: int, x: int)
      requires TabInv(s) && !BadRwb(s, i) && Pid(x) && (x in s.who[i].readers || x in s.who[i].writers)
      ensures Shape(s) && View(s, i).flags[x] == s.flags[x]
      ensures forall k :: 0 <= k < |s.tab[i].rwqueue| ==>
                var y := s.tab[i].rwqueue[k]; Pid(y) && y != x && s.flags[y] == View(s, i).flags[y]
    {
      assert EntryInv(s, i) && FlagOk(View(s, i), x) && Uses(s, i, x);
      forall k | 0 <= k < |s.tab[i].rwqueue|
        ensures var y := s.tab[i].rwqueue[k]; Pid(y) && y != x && s.flags[y] == View(s, i).flags[y]
      {
        var y := s.tab[i].rwqueue[k];
        assert y in View(s, i).queue && Uses(s, i, y);
      }
    }

    method Signalrwb(thisid: int, rwb: int) returns (r: int)
      requires Valid()
      requires Pid(thisid) && !BadRwb(State(), rwb) ==> thisid in who[rwb].readers || thisid in who[rwb].writers
      modifies this
      ensures Valid() && (r == SYSERR <==> BadRwb(old(State()), rwb) || !Pid(thisid))
      ensures r == SYSERR ==> State() == old(State())
      ensures r != SYSERR ==> r == OK && Step(old(State()), Leave(rwb, thisid), State())
    {
      hide Inv, TabInv, View, Next, Left, Step;
      ghost var s := State();
      TabShape(s);
      if !IsRwb(rwb) || !rwbtab[rwb].used || !Pid(thisid) {
        return SYSERR;
      }
      SignalKeepsOrder(s, rwb, thisid);
      Steps(s, rwb, thisid);
      HeadFlag(s, rwb, thisid);
      LeaveCount(rwb, thisid, s);
      LetIn(rwb, Left(View(s, rwb), thisid));
      assert State() == SignalMade(s, rwb, thisid);
      return OK;
    }

    /** The rest of _signalrwb: the head of the queue is released if it may enter. */
    method LetIn(rwb: int, ghost t: Lock)
      requires Holds(rwb, t) && (t.queue != [] ==> Flag(t, t.queue[0]) == WRITER || Flag(t, t.queue[0]) == READER)
      modifies this`rwbtab, this`who
      ensures Holds(rwb, Next(t)) && rwbtab == old(rwbtab)[rwb := rwbtab[rwb]] && who == old(who)[rwb := who[rwb]]
    {
      if rwbtab[rwb].rwqueue != [] {
        if rwbflags[rwbtab[rwb].rwqueue[0]] == WRITER {
          if rwbtab[rwb].rwcount == 0 {
            TakeOff(rwb, -1, t, ReleaseWriter(t));
          }
        } else {
          ReleaseLoop(rwb, t);
        }
      }
    }

    lemma HeadFlag(s: Rwbs, i: int, x: int)
      requires TabInv(s) && !BadRwb(s, i) && Pid(x) && (x in s.who[i].readers || x in s.who[i].writers)
      ensures Shape(s)
      ensures var t := Left(View(s, i), x);
              t.queue != [] ==> Flag(t, t.queue[0]) == WRITER || Flag(t, t.queue[0]) == READER
    {
      assert EntryInv(s, i);
      LeftLoose(View(s, i), x);
      var t := Left(View(s, i), x);
      if t.queue != [] { assert t.queue[0] in t.queue && FlagOk(t, t.queue[0]); }
    }
  }
}
