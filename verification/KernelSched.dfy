/** set_scheduler: every ready process gets a new priority and the ready list is sorted
    again through the scratch list. */
module KernelSched {
  import opened Common
  import opened QueueTab
  import opened DeltaList
  import opened KernelSpec

  ghost predicate Descending(keys: Keys, l: seq<int>)
    requires Keyed(keys, l)
  {
    forall i, j :: 0 <= i < j < |l| ==> keys[l[i]] >= keys[l[j]]
  }

  /** The list after each process of `l` has been inserted in `acc` by its new priority. */
  function Resort(sp: Keys, l: seq<int>, acc: seq<int>): (r: seq<int>)
    requires Keyed(sp, l) && Keyed(sp, acc)
    ensures Keyed(sp, r)
    decreases |l|
  {
    if l == [] then acc else Resort(sp, l[1..], Ins(acc, Ahead(sp, acc, sp[l[0]]), l[0]))
  }

  /** Nobody is lost, nobody is there twice, and the result is in descending order. */
  lemma {:induction false} ResortIsSort(sp: Keys, l: seq<int>, acc: seq<int>)
    requires Keyed(sp, l) && Keyed(sp, acc) && NoDup(l) && NoDup(acc) && Apart(l, acc) && Descending(sp, acc)
    ensures var r := Resort(sp, l, acc);
            && Keyed(sp, r) && NoDup(r) && Descending(sp, r) && |r| == |l| + |acc|
            && forall x :: x in r <==> x in l || x in acc
    decreases |l|
  {
    if l != [] {
      var x, p := l[0], Ahead(sp, acc, sp[l[0]]);
      var acc' := Ins(acc, p, x);
      assert x in l;
      AheadSorted(sp, acc, x, sp[x]);
      assert sp[x := sp[x]] == sp;
      InsNoDup(acc, p, x);
      forall y { InsIn(acc, p, x, y); }
      forall y | y in l[1..]
        ensures y in l && y != x
      {
      }
      ResortIsSort(sp, l[1..], acc');
      forall y
        ensures y in l <==> y == x || y in l[1..]
      {
        assert l == [x] + l[1..];
      }
    }
  }

  lemma InsNoDup(l: seq<int>, k: int, x: int)
    requires 0 <= k <= |l| && NoDup(l) && x !in l
    ensures NoDup(Ins(l, k, x))
  {
  }

  /** The keys once the processes of `l` have their new priorities. */
  function NewKeys(keys: Keys, sp: Keys, l: seq<int>): (r: Keys)
    requires |keys| == NPROC == |sp|
    ensures |r| == NPROC && forall x :: 0 <= x < NPROC ==> r[x] == if x in l then sp[x] else keys[x]
  {
    seq(NPROC, x requires 0 <= x < NPROC => if x in l then sp[x] else keys[x])
  }

  function NewPrios(proc: seq<Proc>, sp: Keys, l: seq<int>): (r: seq<Proc>)
    requires |proc| == NPROC == |sp|
    ensures |r| == NPROC && forall x :: 0 <= x < NPROC ==> r[x] == if x in l then proc[x].(prio := sp[x]) else proc[x]
  {
    seq(NPROC, x requires 0 <= x < NPROC => if x in l then proc[x].(prio := sp[x]) else proc[x])
  }

  /** set_scheduler with a changed value. */
  function Rescheduled(s: Sys, sp: seq<int>): Sys
    requires Typed(s) && |sp| == NPROC
  {
    var l := s.lists[READYLIST];
    s.(lists := s.lists[READYLIST := Resort(sp, l, [])], keys := NewKeys(s.keys, sp, l),
       proc := NewPrios(s.proc, sp, l), readycount := |l|, leaked := 0)
  }

  /** What set_scheduler does when its loop reaches only the first `c` processes: copyqueue
      drops the others. */
  function Covered(s: Sys, sp: seq<int>, c: nat): Sys
    requires Typed(s) && |sp| == NPROC && c <= |s.lists[READYLIST]|
  {
    var l := s.lists[READYLIST][..c];
    s.(lists := s.lists[READYLIST := Resort(sp, l, [])], keys := NewKeys(s.keys, sp, l),
       proc := NewPrios(s.proc, sp, l), readycount := c, leaked := 0)
  }

  lemma CoveredAll(s: Sys, sp: seq<int>)
    requires Typed(s) && |sp| == NPROC
    ensures Covered(s, sp, |s.lists[READYLIST]|) == Rescheduled(s, sp)
  {
    assert s.lists[READYLIST][..|s.lists[READYLIST]|] == s.lists[READYLIST];
  }

  /** The new ready list is a permutation of the old one, sorted by the new priorities. */
  ghost predicate Permuted(s: Sys, t: Sys)
    requires Typed(s) && Typed(t)
  {
    var l, l' := s.lists[READYLIST], t.lists[READYLIST];
    && |l'| == |l| && NoDup(l') && (forall x :: x in l' <==> x in l)
    && Descending(t.keys, l') && t.readycount == |l'|
  }

  /** The processes of a list that have priority `v`, in its order. */
  function OfPrio(sp: Keys, l: seq<int>, v: int): seq<int>
    requires Keyed(sp, l)
  {
    if l == [] then [] else (if sp[l[0]] == v then [l[0]] else []) + OfPrio(sp, l[1..], v)
  }

  lemma {:induction false} OfPrioSplit(sp: Keys, a: seq<int>, b: seq<int>, v: int)
    requires Keyed(sp, a) && Keyed(sp, b)
    ensures Keyed(sp, a + b) && OfPrio(sp, a + b, v) == OfPrio(sp, a, v) + OfPrio(sp, b, v)
  {
    if a == [] {
      assert a + b == b;
    } else {
      assert (a + b)[1..] == a[1..] + b;
      OfPrioSplit(sp, a[1..], b, v);
    }
  }

  lemma {:induction false} NoneOfPrio(sp: Keys, l: seq<int>, v: int)
    requires Keyed(sp, l) && forall i :: 0 <= i < |l| ==> sp[l[i]] < v
    ensures OfPrio(sp, l, v) == []
  {
    if l != [] { NoneOfPrio(sp, l[1..], v); }
  }

  lemma OneOfPrio(sp: Keys, x: int, v: int)
    requires |sp| == NPROC && Pid(x)
    ensures OfPrio(sp, [x], v) == if sp[x] == v then [x] else []
    ensures OfPrio(sp, [], v) == []
  {
  }

  lemma BehindAreLower(sp: Keys, acc: seq<int>, key: int)
    requires Keyed(sp, acc) && Descending(sp, acc)
    ensures var p := Ahead(sp, acc, key);
            forall i :: 0 <= i < |acc[p..]| ==> Pid(acc[p..][i]) && sp[acc[p..][i]] < key
  {
    hide Ahead;
    var p := Ahead(sp, acc, key);
    forall i | 0 <= i < |acc[p..]|
      ensures Pid(acc[p..][i]) && sp[acc[p..][i]] < key
    {
      assert sp[acc[p]] >= sp[acc[p + i]];
    }
  }

  /** A process goes behind all of its new priority. */
  lemma InsOfPrio(sp: Keys, acc: seq<int>, x: int, v: int)
    requires Keyed(sp, acc) && Descending(sp, acc) && Pid(x)
    ensures var p := Ahead(sp, acc, sp[x]);
            Keyed(sp, Ins(acc, p, x)) && OfPrio(sp, Ins(acc, p, x), v) == OfPrio(sp, acc, v) + OfPrio(sp, [x], v)
  {
    hide Ahead, OfPrio, Descending;
    var p := Ahead(sp, acc, sp[x]);
    var a, b := acc[..p], acc[p..];
    assert acc == a + b && Ins(acc, p, x) == (a + [x]) + b;
    OfPrioSplit(sp, a, b, v);
    OfPrioSplit(sp, a, [x], v);
    OfPrioSplit(sp, a + [x], b, v);
    OneOfPrio(sp, x, v);
    if sp[x] == v {
      BehindAreLower(sp, acc, v);
      NoneOfPrio(sp, b, v);
    }
  }

  /** What the next step of the sort needs. */
  lemma NextSorted(sp: Keys, l: seq<int>, acc: seq<int>)
    requires Keyed(sp, l) && Keyed(sp, acc) && Apart(l, acc) && NoDup(l) && Descending(sp, acc) && l != []
    ensures var acc' := Ins(acc, Ahead(sp, acc, sp[l[0]]), l[0]);
            Keyed(sp, acc') && Descending(sp, acc') && Apart(l[1..], acc') && NoDup(l[1..])
  {
    var x, p := l[0], Ahead(sp, acc, sp[l[0]]);
    assert x in l;
    AheadSorted(sp, acc, x, sp[x]);
    assert sp[x := sp[x]] == sp;
    hide Ahead;
    forall y { InsIn(acc, p, x, y); }
    forall y | y in l[1..]
      ensures y in l && y != x
    {
    }
  }

  /** Processes of the same new priority keep their order. */
  lemma {:induction false} ResortStable(sp: Keys, l: seq<int>, acc: seq<int>, v: int)
    requires Keyed(sp, l) && Keyed(sp, acc) && Apart(l, acc) && NoDup(l) && Descending(sp, acc)
    ensures OfPrio(sp, Resort(sp, l, acc), v) == OfPrio(sp, acc, v) + OfPrio(sp, l, v)
    decreases |l|
  {
    hide OfPrio, Descending, NoDup, Apart, Ahead, Ins;
    OneOfPrio(sp, 0, v);
    if l != [] {
      NextSorted(sp, l, acc);
      InsOfPrio(sp, acc, l[0], v);
      ResortStable(sp, l[1..], Ins(acc, Ahead(sp, acc, sp[l[0]]), l[0]), v);
      OfPrioSplit(sp, [l[0]], l[1..], v);
      assert [l[0]] + l[1..] == l;
    }
  }

  /** Every ready process has its new priority and nobody else another one than before; the
      ready list is in descending order of the new priorities, equals in the old order. */
  ghost predicate Resorted(s: Sys, t: Sys, sp: seq<int>)
    requires Typed(s) && Typed(t) && |sp| == NPROC
  {
    var l, l' := s.lists[READYLIST], t.lists[READYLIST];
    && Descending(sp, l') && (forall v :: OfPrio(sp, l', v) == OfPrio(sp, l, v))
    && forall x :: Pid(x) ==> t.proc[x] == if x in l then s.proc[x].(prio := sp[x]) else s.proc[x]
  }

  lemma RescheduledSorts(s: Sys, sp: seq<int>)
    requires Shape(s) && PrioOk(sp)
    ensures Typed(s) && |sp| == NPROC && Typed(Rescheduled(s, sp)) && Resorted(s, Rescheduled(s, sp), sp)
  {
    Basics(s);
    ReadyList(s);
    RescheduledPermutes(s, sp);
    hide Shape, Resort, NewKeys, OfPrio;
    var l := s.lists[READYLIST];
    ResortIsSort(sp, l, []);
    forall v
      ensures OfPrio(sp, Resort(sp, l, []), v) == OfPrio(sp, l, v)
    {
      ResortStable(sp, l, [], v);
      OneOfPrio(sp, 0, v);
    }
  }

  lemma CoveredSorts(s: Sys, sp: seq<int>)
    requires SysInv(s) && PrioOk(sp)
    ensures Typed(s) && |sp| == NPROC && Typed(Covered(s, sp, |s.lists[READYLIST]|))
    ensures Resorted(s, Covered(s, sp, |s.lists[READYLIST]|), sp)
  {
    hide Resorted, Shape, Covered, Rescheduled;
    RescheduledSorts(s, sp);
    CoveredAll(s, sp);
  }

  lemma ReadyList(s: Sys)
    requires Shape(s)
    ensures READYLIST in s.lists && Pids(s.lists[READYLIST])
    ensures NoDup(s.lists[READYLIST]) && |s.lists[READYLIST]| <= NPROC
  {
    PidBound(s.lists[READYLIST], NPROC);
  }

  lemma {:induction false} PidBound(l: seq<int>, n: nat)
    requires NoDup(l) && forall i :: 0 <= i < |l| ==> 0 <= l[i] < n
    ensures |l| <= n
    decreases n
  {
    if l == [] {
    } else if k :| 0 <= k < |l| && l[k] == n - 1 {
      var l' := Del(l, k);
      forall j | 0 <= j < |l'| ensures 0 <= l'[j] < n - 1 && l'[j] == l[if j < k then j else j + 1] {
      }
      PidBound(l', n - 1);
    } else {
      assert 0 <= l[0] < n;
      PidBound(l, n - 1);
    }
  }

  lemma RescheduledPermutes(s: Sys, sp: seq<int>)
    requires Shape(s) && PrioOk(sp)
    ensures Typed(s) && Typed(Rescheduled(s, sp)) && Permuted(s, Rescheduled(s, sp))
  {
    hide Ahead, NewPrios;
    Basics(s);
    ReadyList(s);
    hide Shape, Resort, NewPrios, NewKeys;
    ResortIsSort(sp, s.lists[READYLIST], []);
    var t := Rescheduled(s, sp);
    var l' := t.lists[READYLIST];
    assert forall i :: 0 <= i < |l'| ==> l'[i] in l' && t.keys[l'[i]] == sp[l'[i]];
  }

  /** set_scheduler keeps the invariant. */
  lemma RescheduledInv(s: Sys, sp: seq<int>)
    requires Core(s) && PrioOk(sp)
    ensures Typed(s) && Core(Rescheduled(s, sp))
  {
    Basics(s);
    ReadyList(s);
    ResortIsSort(sp, s.lists[READYLIST], []);
    RescheduledPermutes(s, sp);
    RescheduledAgrees(s, sp);
    RescheduledReady(s, sp);
    RescheduledSems(s, sp);
    RescheduledAsleep(s, sp);
    RescheduledRest(s, sp);
    hide Agree, Asleep, SemsOk, ReadySorted, Counted, Running, Shape;
  }

  lemma RescheduledAgrees(s: Sys, sp: seq<int>)
    requires Shape(s) && Agree(s, EMPTY) && PrioOk(sp) && Typed(s)
    ensures Shape(Rescheduled(s, sp)) && Agree(Rescheduled(s, sp), EMPTY)
  {
    hide Resort, NewKeys;
    ReadyList(s);
    ResortIsSort(sp, s.lists[READYLIST], []);
    var t := Rescheduled(s, sp);
    forall x | Pid(x)
      ensures AtHome(t, x)
    {
      assert AtHome(s, x);
      assert Home(t.proc[x]) == Home(s.proc[x]);
    }
  }

  lemma RescheduledReady(s: Sys, sp: seq<int>)
    requires Shape(s) && PrioOk(sp) && Typed(s) && Shape(Rescheduled(s, sp)) && Typed(Rescheduled(s, sp))
    requires Permuted(s, Rescheduled(s, sp))
    ensures ReadySorted(Rescheduled(s, sp))
  {
    hide Resort, Shape;
    var t := Rescheduled(s, sp);
    var l' := t.lists[READYLIST];
    assert forall i :: 0 <= i < |l'| ==> l'[i] in l';
  }

  lemma RescheduledSems(s: Sys, sp: seq<int>)
    requires Shape(s) && SemsOk(s) && |sp| == NPROC && Typed(s) && Shape(Rescheduled(s, sp))
    ensures SemsOk(Rescheduled(s, sp))
  {
    hide Resort;
    forall i | 0 <= i < NSEM
      ensures SemOk(Rescheduled(s, sp), i)
    {
      assert SemOk(s, i);
    }
  }

  lemma RescheduledRest(s: Sys, sp: seq<int>)
    requires Core(s) && PrioOk(sp) && Typed(s) && Shape(Rescheduled(s, sp)) && Typed(Rescheduled(s, sp))
    requires Permuted(s, Rescheduled(s, sp))
    ensures Counted(Rescheduled(s, sp)) && Running(Rescheduled(s, sp))
  {
    hide NewPrios;
    ReadyList(s);
    hide Resort, Agree, Asleep, SemsOk, ReadySorted, PrioOk;
  }

  lemma RescheduledAsleep(s: Sys, sp: seq<int>)
    requires Shape(s) && Agree(s, EMPTY) && Asleep(s) && |sp| == NPROC && Typed(s) && Shape(Rescheduled(s, sp))
    ensures Asleep(Rescheduled(s, sp))
  {
    hide Resort;
    var z := s.lists[SLEEPQ];
    forall i | 0 <= i < |z|
      ensures z[i] !in s.lists[READYLIST]
    {
      assert z[i] in z && AtHome(s, z[i]);
    }
  }

  /** A ready process beyond the first `c` is on no queue afterwards. */
  lemma LeftOut(s: Sys, sp: seq<int>, c: nat, i: int)
    requires Core(s) && PrioOk(sp) && Typed(s) && c <= i < |s.lists[READYLIST]|
    ensures var t, x := Covered(s, sp, c), s.lists[READYLIST][i];
            Pid(x) && t.proc[x].state == PrReady && OnNone(t.lists, x) && !Core(t)
  {
    var t, l := Covered(s, sp, c), s.lists[READYLIST];
    var x := l[i];
    ReadyList(s);
    assert AtHome(s, x);
    assert x !in l[..c];
    ResortIn(sp, l[..c], []);
    forall q | q in t.lists
      ensures x !in t.lists[q]
    {
      assert Allocated(q);
    }
    LostIsWrong(t, x);
  }

  lemma LostIsWrong(t: Sys, x: int)
    requires Pid(x) && |t.proc| == NPROC && t.proc[x].state == PrReady && OnNone(t.lists, x)
    ensures !Core(t)
  {
    if Shape(t) { assert Allocated(READYLIST) && !AtHome(t, x); }
  }

  /** set_scheduler loses nobody exactly when its loop covers the whole ready list, and
      otherwise breaks the agreement of queues and states. */
  lemma CoveredIff(s: Sys, sp: seq<int>, c: nat)
    requires Core(s) && PrioOk(sp) && Typed(s) && c <= |s.lists[READYLIST]|
    ensures Typed(Covered(s, sp, c))
    ensures Permuted(s, Covered(s, sp, c)) <==> c == |s.lists[READYLIST]|
    ensures Core(Covered(s, sp, c)) <==> c == |s.lists[READYLIST]|
  {
    hide Core, Permuted;
    ResortIn(sp, s.lists[READYLIST][..c], []);
    if c == |s.lists[READYLIST]| {
      CoveredAll(s, sp);
      CoreShape(s);
      RescheduledPermutes(s, sp);
      RescheduledInv(s, sp);
    } else {
      LeftOut(s, sp, c, c);
      ShorterIsNot(s, Covered(s, sp, c));
    }
  }

  lemma CoreShape(s: Sys)
    requires Core(s)
    ensures Shape(s)
  {
  }

  lemma ShorterIsNot(s: Sys, t: Sys)
    requires Typed(s) && Typed(t) && |t.lists[READYLIST]| < |s.lists[READYLIST]|
    ensures !Permuted(s, t)
  {
  }

  /** readycount is a 16-bit counter that kill and suspend leave too high: it covers the
      ready list if and only if those left over since the last time have not made it wrap
      around past the length of the list. */
  lemma CountCovers(s: Sys)
    requires Core(s)
    ensures READYLIST in s.lists
    ensures s.readycount >= |s.lists[READYLIST]| <==> s.leaked % WRAP16 + |s.lists[READYLIST]| < WRAP16
  {
    ReadyList(s);
    var n, m := |s.lists[READYLIST]|, s.leaked % WRAP16;
    assert (n + s.leaked) % WRAP16 == (n + m) % WRAP16;
  }

  lemma {:induction false} ResortLast(sp: Keys, l: seq<int>, acc: seq<int>, x: int)
    requires Keyed(sp, l) && Keyed(sp, acc) && Pid(x)
    ensures Pids(l + [x])
    ensures var r := Resort(sp, l, acc); Resort(sp, l + [x], acc) == Ins(r, Ahead(sp, r, sp[x]), x)
    decreases |l|
  {
    if l == [] {
      assert (l + [x])[1..] == [];
    } else {
      assert (l + [x])[1..] == l[1..] + [x];
      ResortLast(sp, l[1..], Ins(acc, Ahead(sp, acc, sp[l[0]]), l[0]), x);
    }
  }

  lemma {:induction false} AheadSame(keys: Keys, keys': Keys, l: seq<int>, key: int)
    requires Keyed(keys, l) && |keys'| == NPROC && forall i :: 0 <= i < |l| ==> keys'[l[i]] == keys[l[i]]
    ensures Ahead(keys', l, key) == Ahead(keys, l, key)
  {
    if l != [] {
      assert forall i :: 0 <= i < |l[1..]| ==> l[1..][i] == l[i + 1];
      AheadSame(keys, keys', l[1..], key);
    }
  }

  /** The loop of set_scheduler after the first `j` processes have moved. */
  function Moved(s: Sys, sp: Keys, j: nat): Sys
    requires Typed(s) && SCRATCH in s.lists && |sp| == NPROC && j <= |s.lists[READYLIST]|
  {
    var l := s.lists[READYLIST];
    s.(lists := s.lists[READYLIST := l[j..]][SCRATCH := Resort(sp, l[..j], [])],
       keys := NewKeys(s.keys, sp, l[..j]), proc := NewPrios(s.proc, sp, l[..j]))
  }

  lemma MovedNone(s: Sys, sp: Keys)
    requires Typed(s) && SCRATCH in s.lists && |sp| == NPROC && s.lists[SCRATCH] == []
    ensures Moved(s, sp, 0) == s
  {
    var t, l := Moved(s, sp, 0), s.lists[READYLIST];
    assert l[0..] == l && l[..0] == [];
    assert t.keys == s.keys && t.proc == s.proc && t.lists == s.lists;
  }

  lemma NewKeysMore(keys: Keys, proc: seq<Proc>, sp: Keys, l: seq<int>, j: nat)
    requires |keys| == NPROC == |sp| == |proc| && j < |l| && Pid(l[j])
    ensures NewKeys(keys, sp, l[..j + 1]) == NewKeys(keys, sp, l[..j])[l[j] := sp[l[j]]]
    ensures NewPrios(proc, sp, l[..j + 1])
            == NewPrios(proc, sp, l[..j])[l[j] := NewPrios(proc, sp, l[..j])[l[j]].(prio := sp[l[j]])]
  {
    assert l[..j + 1] == l[..j] + [l[j]];
  }

  /** The scratch list grows by one, at the place that insert finds. */
  lemma ScratchMore(keys: Keys, sp: Keys, l: seq<int>, j: nat)
    requires |keys| == NPROC == |sp| && Pids(l) && j < |l|
    ensures var acc, x := Resort(sp, l[..j], []), l[j];
            && Keyed(NewKeys(keys, sp, l[..j]), acc)
            && Resort(sp, l[..j + 1], []) == Ins(acc, Ahead(NewKeys(keys, sp, l[..j]), acc, sp[x]), x)
  {
    var acc, x := Resort(sp, l[..j], []), l[j];
    assert l[..j + 1] == l[..j] + [x];
    ResortLast(sp, l[..j], [], x);
    ResortIn(sp, l[..j], []);
    assert forall i :: 0 <= i < |acc| ==> acc[i] in acc;
    AheadSame(sp, NewKeys(keys, sp, l[..j]), acc, sp[x]);
  }

  /** One turn of the loop. */
  lemma MovedMore(s: Sys, sp: Keys, j: nat)
    requires Typed(s) && SCRATCH in s.lists && |sp| == NPROC && j < |s.lists[READYLIST]|
    ensures var r, t, x := Moved(s, sp, j), Moved(s, sp, j + 1), s.lists[READYLIST][j];
            && READYLIST in r.lists && SCRATCH in r.lists && Pid(x)
            && Keyed(r.keys, r.lists[SCRATCH]) && r.lists[READYLIST] != [] && r.lists[READYLIST][0] == x
            && t.lists == r.lists[READYLIST := Del(r.lists[READYLIST], 0)]
                                 [SCRATCH := Ins(r.lists[SCRATCH], Ahead(r.keys, r.lists[SCRATCH], sp[x]), x)]
            && t.keys == r.keys[x := sp[x]] && |r.proc| == NPROC && t.proc == r.proc[x := r.proc[x].(prio := sp[x])]
  {
    var l := s.lists[READYLIST];
    hide Resort, NewKeys, NewPrios, Ahead;
    ScratchMore(s.keys, sp, l, j);
    NewKeysMore(s.keys, s.proc, sp, l, j);
    assert Del(l[j..], 0) == l[j + 1..];
  }

  lemma MovedEnd(s: Sys, sp: Keys, j: nat)
    requires Typed(s) && SCRATCH in s.lists && |sp| == NPROC && j == |s.lists[READYLIST]|
    ensures Moved(s, sp, j).lists[READYLIST] == []
  {
  }

  lemma {:induction false} ResortIn(sp: Keys, l: seq<int>, acc: seq<int>)
    requires Keyed(sp, l) && Keyed(sp, acc)
    ensures forall x :: x in Resort(sp, l, acc) ==> x in l || x in acc
    ensures |Resort(sp, l, acc)| == |l| + |acc|
    decreases |l|
  {
    if l != [] {
      var p := Ahead(sp, acc, sp[l[0]]);
      forall y { InsIn(acc, p, l[0], y); }
      ResortIn(sp, l[1..], Ins(acc, p, l[0]));
    }
  }

  /** When the first `c` have moved, copyqueue completes the change. */
  lemma MovedThen(s: Sys, sp: Keys, c: nat)
    requires Typed(s) && SCRATCH in s.lists && |sp| == NPROC && s.lists[SCRATCH] == [] && c <= |s.lists[READYLIST]|
    ensures var m := Moved(s, sp, c);
            && |m.lists[SCRATCH]| == c
            && m.(lists := m.lists[READYLIST := m.lists[SCRATCH]][SCRATCH := []], readycount := c, leaked := 0)
               == Covered(s, sp, c)
  {
    var l := s.lists[READYLIST][..c];
    var m := Moved(s, sp, c);
    ResortIn(sp, l, []);
    assert m.lists[READYLIST := m.lists[SCRATCH]][SCRATCH := []] == s.lists[READYLIST := Resort(sp, l, [])];
  }
}
