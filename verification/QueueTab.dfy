/** The table of process queues: one array of entries holds every queue as a doubly linked
    list of process ids between a head and a tail entry. */
module QueueTab {
  import opened Common

  const NQENT := 328
  const EMPTY := -1
  const MAXKEY := 0x7FFF_FFFF
  const MINKEY := -0x8000_0000

  datatype Qentry = Qentry(qkey: int, qnext: int, qprev: int)

  type Tab = seq<Qentry>
  type Lists = map<int, seq<int>>

  predicate Qid(q: int) { NPROC <= q < NQENT - 1 && q % 2 == 0 }

  /** Entry `i` of the queue with head `q` and tail `q + 1`. */
  function Node(q: int, l: seq<int>, i: int): int {
    if i < 0 then q else if i < |l| then l[i] else q + 1
  }

  ghost predicate Link(tab: Tab, q: int, l: seq<int>, i: int) {
    && 0 <= Node(q, l, i) < |tab| && 0 <= Node(q, l, i + 1) < |tab|
    && tab[Node(q, l, i)].qnext == Node(q, l, i + 1) && tab[Node(q, l, i + 1)].qprev == Node(q, l, i)
  }

  ghost predicate Pids(l: seq<int>) { forall i :: 0 <= i < |l| ==> Pid(l[i]) }

  /** The table holds list `l` in queue `q`. */
  ghost predicate IsList(tab: Tab, q: int, l: seq<int>) {
    && |tab| == NQENT && Qid(q) && Pids(l) && NoDup(l)
    && tab[q].qkey == MAXKEY && tab[q + 1].qkey == MINKEY
    && forall i :: -1 <= i < |l| ==> Link(tab, q, l, i)
  }

  ghost predicate Apart(a: seq<int>, b: seq<int>) { forall x :: x in a ==> x !in b }

  /** Well-formed, pairwise disjoint queues. */
  ghost predicate TabOk(tab: Tab, lists: Lists) {
    && |tab| == NQENT
    && (forall q :: q in lists ==> IsList(tab, q, lists[q]))
    && (forall p, q :: p in lists && q in lists && p != q ==> Apart(lists[p], lists[q]))
  }

  ghost predicate OnNone(lists: Lists, pid: int) { forall q :: q in lists ==> pid !in lists[q] }

  function Ins(l: seq<int>, k: int, x: int): seq<int>
    requires 0 <= k <= |l|
  {
    l[..k] + [x] + l[k..]
  }

  function Del(l: seq<int>, i: int): seq<int>
    requires 0 <= i < |l|
  {
    l[..i] + l[i + 1..]
  }

  lemma InsIn(l: seq<int>, k: int, x: int, y: int)
    requires 0 <= k <= |l|
    ensures y in Ins(l, k, x) <==> y == x || y in l
  {
    assert l == l[..k] + l[k..];
  }

  lemma DelIn(l: seq<int>, i: int, y: int)
    requires 0 <= i < |l| && NoDup(l)
    ensures y in Del(l, i) <==> y in l && y != l[i]
  {
    if y in l && y != l[i] {
      var j :| 0 <= j < |l| && l[j] == y;
      assert y == Del(l, i)[if j < i then j else j - 1];
    }
    if y in Del(l, i) {
      var j :| 0 <= j < |Del(l, i)| && Del(l, i)[j] == y;
      assert l[if j < i then j else j + 1] == y;
    }
  }

  /** `pid` is linked in between `prev` and `next`. */
  function LinkIn(tab: Tab, pid: int, prev: int, next: int): Tab
    requires 0 <= pid < |tab| && 0 <= prev < |tab| && 0 <= next < |tab|
  {
    var t := tab[pid := tab[pid].(qnext := next, qprev := prev)];
    var u := t[prev := t[prev].(qnext := pid)];
    u[next := u[next].(qprev := pid)]
  }

  predicate Linkable(tab: Tab, pid: int) {
    0 <= pid < |tab| && 0 <= tab[pid].qnext < |tab| && 0 <= tab[pid].qprev < |tab|
  }

  /** `pid` is unlinked from its neighbours; its own entry keeps its links. */
  function LinkOut(tab: Tab, pid: int): Tab
    requires Linkable(tab, pid)
  {
    var next, prev := tab[pid].qnext, tab[pid].qprev;
    var t := tab[prev := tab[prev].(qnext := next)];
    t[next := t[next].(qprev := prev)]
  }

  /** Nodes of a list are different entries. */
  lemma Distinct(tab: Tab, q: int, l: seq<int>, i: int, j: int)
    requires IsList(tab, q, l) && -1 <= i < j <= |l|
    ensures Node(q, l, i) != Node(q, l, j)
  {
  }

  lemma Inserted(tab: Tab, q: int, l: seq<int>, k: int, pid: int)
    requires IsList(tab, q, l) && 0 <= k <= |l| && Pid(pid) && pid !in l
    ensures 0 <= Node(q, l, k - 1) < |tab| && 0 <= Node(q, l, k) < |tab|
    ensures IsList(LinkIn(tab, pid, Node(q, l, k - 1), Node(q, l, k)), q, Ins(l, k, pid))
  {
    assert Link(tab, q, l, k - 1);
    var prev, next, l' := Node(q, l, k - 1), Node(q, l, k), Ins(l, k, pid);
    var tab' := LinkIn(tab, pid, prev, next);
    forall i | -1 <= i < |l'|
      ensures Link(tab', q, l', i)
    {
      if i < k - 1 {
        assert Link(tab, q, l, i);
        Distinct(tab, q, l, i, k - 1);
        Distinct(tab, q, l, i + 1, k);
      } else if i > k {
        assert Link(tab, q, l, i - 1);
        Distinct(tab, q, l, k - 1, i - 1);
        Distinct(tab, q, l, k, i);
      }
    }
  }

  lemma Removed(tab: Tab, q: int, l: seq<int>, i: int)
    requires IsList(tab, q, l) && 0 <= i < |l|
    ensures Linkable(tab, l[i]) && tab[l[i]].qnext == Node(q, l, i + 1) && tab[l[i]].qprev == Node(q, l, i - 1)
    ensures IsList(LinkOut(tab, l[i]), q, Del(l, i))
  {
    assert Link(tab, q, l, i - 1) && Link(tab, q, l, i);
    var l', tab' := Del(l, i), LinkOut(tab, l[i]);
    forall j | -1 <= j < |l'|
      ensures Link(tab', q, l', j)
    {
      if j < i - 1 {
        assert Link(tab, q, l, j);
        Distinct(tab, q, l, j, i - 1);
        Distinct(tab, q, l, j + 1, i + 1);
      } else if j >= i {
        assert Link(tab, q, l, j + 1);
        Distinct(tab, q, l, i - 1, j + 1);
        Distinct(tab, q, l, i + 1, j + 2);
      } else {
        Distinct(tab, q, l, i - 1, i + 1);
      }
    }
  }

  /** A list whose entries are not written is still there. */
  lemma Framed(tab: Tab, tab': Tab, q: int, l: seq<int>)
    requires IsList(tab, q, l) && |tab'| == |tab| && tab'[q] == tab[q] && tab'[q + 1] == tab[q + 1]
    requires forall i :: 0 <= i < |l| ==> Pid(l[i]) && tab'[l[i]] == tab[l[i]]
    ensures IsList(tab', q, l)
  {
    forall i | -1 <= i < |l|
      ensures Link(tab', q, l, i)
    {
      assert Link(tab, q, l, i);
    }
  }

  lemma TabInserted(tab: Tab, lists: Lists, q: int, k: int, pid: int)
    requires TabOk(tab, lists) && q in lists && 0 <= k <= |lists[q]| && Pid(pid) && OnNone(lists, pid)
    ensures 0 <= Node(q, lists[q], k - 1) < |tab| && 0 <= Node(q, lists[q], k) < |tab|
    ensures TabOk(LinkIn(tab, pid, Node(q, lists[q], k - 1), Node(q, lists[q], k)), lists[q := Ins(lists[q], k, pid)])
  {
    var l := lists[q];
    Inserted(tab, q, l, k, pid);
    var tab', lists' := LinkIn(tab, pid, Node(q, l, k - 1), Node(q, l, k)), lists[q := Ins(l, k, pid)];
    forall p | p in lists' && p != q
      ensures IsList(tab', p, lists'[p]) && Apart(lists'[p], lists'[q]) && Apart(lists'[q], lists'[p])
    {
      assert Apart(lists[p], l) && Apart(l, lists[p]);
      assert forall i :: 0 <= i < |lists[p]| ==> lists[p][i] in lists[p];
      Framed(tab, tab', p, lists[p]);
      forall y { InsIn(l, k, pid, y); }
    }
  }

  lemma TabRemoved(tab: Tab, lists: Lists, q: int, i: int)
    requires TabOk(tab, lists) && q in lists && 0 <= i < |lists[q]|
    ensures Linkable(tab, lists[q][i])
    ensures TabOk(LinkOut(tab, lists[q][i]), lists[q := Del(lists[q], i)])
    ensures OnNone(lists[q := Del(lists[q], i)], lists[q][i])
  {
    var l := lists[q];
    Removed(tab, q, l, i);
    var tab', lists' := LinkOut(tab, l[i]), lists[q := Del(l, i)];
    forall y { DelIn(l, i, y); }
    forall p | p in lists' && p != q
      ensures IsList(tab', p, lists'[p]) && Apart(lists'[p], lists'[q]) && Apart(lists'[q], lists'[p])
      ensures l[i] !in lists'[p]
    {
      assert Apart(lists[p], l) && Apart(l, lists[p]);
      assert forall j :: 0 <= j < |lists[p]| ==> lists[p][j] in lists[p];
      Framed(tab, tab', p, lists[p]);
    }
  }

  /** Only keys and entries of processes on no queue differ. */
  ghost predicate SameLinks(tab: Tab, tab': Tab, lists: Lists) {
    |tab| == |tab'| && forall x :: 0 <= x < |tab| && (x >= NPROC || !OnNone(lists, x)) ==>
      tab'[x].qnext == tab[x].qnext && tab'[x].qprev == tab[x].qprev && (x >= NPROC ==> tab'[x].qkey == tab[x].qkey)
  }

  lemma Rekeyed(tab: Tab, tab': Tab, lists: Lists)
    requires TabOk(tab, lists) && SameLinks(tab, tab', lists)
    ensures TabOk(tab', lists)
  {
    forall q | q in lists
      ensures IsList(tab', q, lists[q])
    {
      var l := lists[q];
      forall i | -1 <= i < |l|
        ensures Link(tab', q, l, i)
      {
        assert Link(tab, q, l, i);
        assert forall j :: 0 <= j < |l| ==> l[j] in lists[q];
      }
    }
  }

  /** The whole list of one queue moves to another, which was empty. */
  function MoveAll(tab: Tab, src: int, dst: int): Tab
    requires 0 <= src < |tab| - 1 && 0 <= dst < |tab| - 1
    requires 0 <= tab[src].qnext < |tab| && 0 <= tab[src + 1].qprev < |tab|
  {
    var first, last := tab[src].qnext, tab[src + 1].qprev;
    var t := tab[src := tab[src].(qnext := src + 1)];
    var u := t[src + 1 := t[src + 1].(qprev := src)];
    var v := u[dst := u[dst].(qnext := first)];
    var w := v[first := v[first].(qprev := dst)];
    var x := w[dst + 1 := w[dst + 1].(qprev := last)];
    x[last := x[last].(qnext := dst + 1)]
  }

  lemma MovedDst(tab: Tab, src: int, dst: int, l: seq<int>)
    requires IsList(tab, src, l) && IsList(tab, dst, []) && src != dst && l != []
    ensures 0 <= tab[src].qnext < |tab| && 0 <= tab[src + 1].qprev < |tab|
    ensures IsList(MoveAll(tab, src, dst), dst, l) && IsList(MoveAll(tab, src, dst), src, [])
  {
    assert Link(tab, src, l, -1) && Link(tab, src, l, |l| - 1);
    var tab' := MoveAll(tab, src, dst);
    forall i | -1 <= i < |l|
      ensures Link(tab', dst, l, i)
    {
      assert Link(tab, src, l, i);
    }
    assert Link(tab', src, [], -1);
  }

  lemma TabMoved(tab: Tab, lists: Lists, src: int, dst: int)
    requires TabOk(tab, lists) && src in lists && dst in lists && src != dst && lists[src] != [] && lists[dst] == []
    ensures 0 <= tab[src].qnext < |tab| && 0 <= tab[src + 1].qprev < |tab|
    ensures 0 <= src < |tab| - 1 && 0 <= dst < |tab| - 1
    ensures TabOk(MoveAll(tab, src, dst), lists[dst := lists[src]][src := []])
  {
    var l := lists[src];
    MovedDst(tab, src, dst, l);
    assert Link(tab, src, l, -1) && Link(tab, src, l, |l| - 1);
    var tab', lists' := MoveAll(tab, src, dst), lists[dst := l][src := []];
    forall p | p in lists' && p != src && p != dst
      ensures IsList(tab', p, lists'[p]) && Apart(lists'[p], l) && Apart(l, lists'[p])
    {
      assert Apart(lists[p], l) && Apart(l, lists[p]);
      assert forall j :: 0 <= j < |lists[p]| ==> lists[p][j] in lists[p];
      assert l[0] in l && l[|l| - 1] in l;
      Framed(tab, tab', p, lists[p]);
    }
  }

  /** Two queues that each end in the tail of the other: what copyqueue makes of an empty
      source. */
  ghost predicate Crossed(tab: Tab, src: int, dst: int) {
    && |tab| == NQENT && Qid(src) && Qid(dst) && src != dst
    && tab[dst].qnext == src + 1 && tab[src].qnext == dst + 1
  }

  lemma MovedNothing(tab: Tab, src: int, dst: int)
    requires IsList(tab, src, []) && IsList(tab, dst, []) && src != dst
    ensures tab[src].qnext == src + 1 && tab[src + 1].qprev == src
    ensures Crossed(MoveAll(tab, src, dst), src, dst)
  {
    assert Link(tab, src, [], -1) && Link(tab, dst, [], -1);
  }

  lemma FirstIs(tab: Tab, q: int, l: seq<int>)
    ensures IsList(tab, q, l) ==> Pid(tab[q].qnext) || tab[q].qnext == q + 1
  {
    if IsList(tab, q, l) { assert Link(tab, q, l, -1); }
  }

  /** Then neither is a list any more, and the destination looks empty. */
  lemma CrossedIsBroken(tab: Tab, lists: Lists, src: int, dst: int)
    requires Crossed(tab, src, dst) && dst in lists
    ensures !TabOk(tab, lists)
  {
    FirstIs(tab, dst, lists[dst]);
  }

  /** The table after newqueue has initialised head `q` and tail `q + 1`. */
  function Empty(tab: Tab, q: int): Tab
    requires 0 <= q < |tab| - 1
  {
    tab[q := Qentry(MAXKEY, q + 1, EMPTY)][q + 1 := Qentry(MINKEY, EMPTY, q)]
  }

  lemma TabNew(tab: Tab, lists: Lists, q: int)
    requires TabOk(tab, lists) && Qid(q) && q !in lists
    ensures TabOk(Empty(tab, q), lists[q := []])
  {
    var tab', lists' := Empty(tab, q), lists[q := []];
    assert Link(tab', q, [], -1);
    forall p | p in lists' && p != q
      ensures IsList(tab', p, lists'[p])
    {
      assert IsList(tab, p, lists[p]);
      Framed(tab, tab', p, lists[p]);
    }
  }

  // ---- Running out of queues ----------------------------------------------------------------

  /** What newqueue makes of the next id. */
  function NextQid(next: int): int { if next > NQENT then next else next + 2 }

  /** The next id after `k` calls of newqueue. */
  function NextAfter(k: nat): int { if k == 0 then NPROC else NextQid(NextAfter(k - 1)) }

  /** Every call either refuses or returns the id of a queue inside the table, but for one:
      the first call after the table is full. */
  lemma {:induction false} OneIdTooMany(k: nat)
    ensures NextAfter(k) > NQENT || Qid(NextAfter(k)) <==> k != (NQENT - NPROC) / 2
    ensures NextAfter(k) == Min(NPROC + 2 * k, NQENT + 2)
  {
    if k > 0 { OneIdTooMany(k - 1); }
  }
}
