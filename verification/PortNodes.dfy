/** The pool of message nodes: every node is on the free list or in the message list of
    one port, exactly once, and the lists are linked through the nodes. */
module PortNodes {
  import opened Common

  const NULL := 0

  datatype PtNode = PtNode(msg: int, next: int)

  type Nodes = map<int, PtNode>

  function First(l: seq<int>): int { if l == [] then NULL else l[0] }

  function Last(l: seq<int>): int { if l == [] then NULL else l[|l| - 1] }

  function Nth(l: seq<int>, i: int): int { if 0 <= i < |l| then l[i] else NULL }

  ghost predicate NodeAt(node: Nodes, l: seq<int>, i: int) {
    0 <= i < |l| && l[i] != NULL && l[i] in node && node[l[i]].next == Nth(l, i + 1)
  }

  ghost predicate Linked(node: Nodes, l: seq<int>) { forall i :: 0 <= i < |l| ==> NodeAt(node, l, i) }

  /** Node `i` of list `a` lives there. */
  ghost predicate Lives(ls: seq<seq<int>>, home: map<int, int>, a: int, i: int) {
    0 <= a < |ls| && 0 <= i < |ls[a]| && ls[a][i] in home && home[ls[a][i]] == a
  }

  ghost predicate Pool(node: Nodes, ls: seq<seq<int>>, home: map<int, int>) {
    && (forall a :: 0 <= a < |ls| ==> Linked(node, ls[a]) && NoDup(ls[a]))
    && (forall a, i :: 0 <= a < |ls| && 0 <= i < |ls[a]| ==> Lives(ls, home, a, i))
    && (forall x :: x in home ==> 0 <= home[x] < |ls| && x in ls[home[x]])
  }

  lemma LivesOnce(node: Nodes, ls: seq<seq<int>>, home: map<int, int>, a: int, x: int)
    requires Pool(node, ls, home) && 0 <= a < |ls| && x in ls[a]
    ensures x in home && home[x] == a && x != NULL && x in node
  {
    var i :| 0 <= i < |ls[a]| && ls[a][i] == x;
    assert Lives(ls, home, a, i) && NodeAt(node, ls[a], i);
  }

  /** The messages along a list. */
  function Msgs(node: Nodes, l: seq<int>): (m: seq<int>)
    ensures |m| == |l|
  {
    seq(|l|, i requires 0 <= i < |l| => if l[i] in node then node[l[i]].msg else 0)
  }

  /** A list none of whose nodes is written stays as it is. */
  lemma Framed(node: Nodes, node': Nodes, l: seq<int>)
    requires Linked(node, l) && forall x :: x in l && x in node ==> x in node' && node'[x] == node[x]
    ensures Linked(node', l) && Msgs(node', l) == Msgs(node, l)
  {
    forall i | 0 <= i < |l|
      ensures NodeAt(node', l, i) && Msgs(node', l)[i] == Msgs(node, l)[i]
    {
      assert NodeAt(node, l, i) && l[i] in l;
    }
  }

  /** The nodes after the first free node `x` has been linked behind `tail` with `msg`. */
  function Appended(node: Nodes, x: int, tail: int, msg: int): Nodes
    requires x in node && (tail == NULL || tail in node)
  {
    var n := node[x := PtNode(msg, NULL)];
    if tail == NULL then n else n[tail := n[tail].(next := x)]
  }

  lemma AppendLinked(node: Nodes, l: seq<int>, x: int, msg: int)
    requires Linked(node, l) && NoDup(l) && x !in l && x in node && x != NULL
    ensures Last(l) == NULL || Last(l) in node
    ensures var node' := Appended(node, x, Last(l), msg);
            Linked(node', l + [x]) && NoDup(l + [x]) && Msgs(node', l + [x]) == Msgs(node, l) + [msg]
  {
    if l != [] { assert NodeAt(node, l, |l| - 1) && l[|l| - 1] in l; }
    var node', l' := Appended(node, x, Last(l), msg), l + [x];
    forall i | 0 <= i < |l'|
      ensures NodeAt(node', l', i)
    {
      if i < |l| { assert NodeAt(node, l, i) && l[i] in l; }
    }
    forall i | 0 <= i < |l'|
      ensures Msgs(node', l')[i] == (Msgs(node, l) + [msg])[i]
    {
      if i < |l| { assert NodeAt(node, l, i) && l[i] in l; }
    }
  }

  /** ptsend: the first node of list `f` goes to the end of list `p`. */
  lemma PoolSend(node: Nodes, ls: seq<seq<int>>, home: map<int, int>, f: int, p: int, msg: int)
    requires Pool(node, ls, home) && 0 <= f < |ls| && 0 <= p < |ls| && f != p && ls[f] != []
    ensures var x := ls[f][0];
            && x in node && (Last(ls[p]) == NULL || Last(ls[p]) in node) && node[x].next == First(ls[f][1..])
            && x != NULL && Last(ls[p]) != x && (Last(ls[p]) == NULL <==> ls[p] == [])
            && var node', ls' := Appended(node, x, Last(ls[p]), msg), ls[f := ls[f][1..]][p := ls[p] + [x]];
               && Pool(node', ls', home[x := p]) && Msgs(node', ls'[p]) == Msgs(node, ls[p]) + [msg]
               && forall a :: 0 <= a < |ls| && a != p && a != f ==> Msgs(node', ls'[a]) == Msgs(node, ls[a])
  {
    var x := ls[f][0];
    assert NodeAt(node, ls[f], 0) && x in ls[f];
    LivesOnce(node, ls, home, f, x);
    if x in ls[p] { LivesOnce(node, ls, home, p, x); }
    AppendLinked(node, ls[p], x, msg);
    var node', ls', home' := Appended(node, x, Last(ls[p]), msg), ls[f := ls[f][1..]][p := ls[p] + [x]], home[x := p];
    if ls[p] != [] { assert Last(ls[p]) in ls[p]; LivesOnce(node, ls, home, p, Last(ls[p])); }
    forall a | 0 <= a < |ls| && a != p
      ensures Linked(node', ls'[a]) && NoDup(ls'[a]) && Msgs(node', ls'[a]) == Msgs(node, ls'[a])
    {
      OthersKept(node, ls, home, a, x, p);
      TailLinked(node, ls[a]);
      var l := ls'[a];
      forall y | y in l && y in node
        ensures node'[y] == node[y]
      {
        assert y in ls[a];
        if a == f { TailWithout(ls[f]); }
        LivesOnce(node, ls, home, a, y);
      }
      Framed(node, node', l);
    }
    forall a, i | 0 <= a < |ls'| && 0 <= i < |ls'[a]|
      ensures Lives(ls', home', a, i)
    {
      if a == f {
        assert Lives(ls, home, a, i + 1);
        TailWithout(ls[f]);
      } else if a != p || i < |ls[p]| {
        assert Lives(ls, home, a, i);
      }
    }
    forall y | y in home'
      ensures 0 <= home'[y] < |ls'| && y in ls'[home'[y]]
    {
      if y != x && home[y] == f { TailHas(ls[f], y); }
    }
  }

  lemma OthersKept(node: Nodes, ls: seq<seq<int>>, home: map<int, int>, a: int, x: int, p: int)
    requires Pool(node, ls, home) && 0 <= a < |ls|
    ensures Linked(node, ls[a]) && NoDup(ls[a])
  {
  }

  lemma TailLinked(node: Nodes, l: seq<int>)
    requires Linked(node, l) && NoDup(l)
    ensures l != [] ==> Linked(node, l[1..]) && NoDup(l[1..])
  {
    if l != [] {
      var t := l[1..];
      forall i | 0 <= i < |t|
        ensures NodeAt(node, t, i)
      {
        assert NodeAt(node, l, i + 1);
      }
    }
  }

  lemma TailWithout(l: seq<int>)
    requires l != [] && NoDup(l)
    ensures l[0] !in l[1..]
  {
  }

  lemma TailHas(l: seq<int>, y: int)
    requires y in l && y != l[0]
    ensures y in l[1..]
  {
    var i :| 0 <= i < |l| && l[i] == y;
    assert l[1..][i - 1] == y;
  }

  /** ptrecv: the first node of list `p` goes to the front of list `f`. */
  lemma PoolRecv(node: Nodes, ls: seq<seq<int>>, home: map<int, int>, f: int, p: int)
    requires Pool(node, ls, home) && 0 <= f < |ls| && 0 <= p < |ls| && f != p && ls[p] != []
    ensures var x := ls[p][0];
            && x in node && node[x].next == First(ls[p][1..])
            && Msgs(node, ls[p]) == [node[x].msg] + Msgs(node, ls[p][1..])
            && (x == Last(ls[p]) <==> |ls[p]| == 1)
            && var node', ls' := node[x := node[x].(next := First(ls[f]))], ls[p := ls[p][1..]][f := [x] + ls[f]];
               && Pool(node', ls', home[x := f]) && Msgs(node', ls'[p]) == Msgs(node, ls[p])[1..]
               && forall a :: 0 <= a < |ls| && a != p && a != f ==> Msgs(node', ls'[a]) == Msgs(node, ls[a])
  {
    var x := ls[p][0];
    assert NodeAt(node, ls[p], 0) && x in ls[p];
    LivesOnce(node, ls, home, p, x);
    var node', ls', home' := node[x := node[x].(next := First(ls[f]))], ls[p := ls[p][1..]][f := [x] + ls[f]],
        home[x := f];
    TailWithout(ls[p]);
    forall a | 0 <= a < |ls|
      ensures Linked(node', ls'[a]) && NoDup(ls'[a]) && (a != f ==> Msgs(node', ls'[a]) == Msgs(node, ls'[a]))
    {
      OthersKept(node, ls, home, a, x, p);
      TailLinked(node, ls[a]);
      if x in ls[a] { LivesOnce(node, ls, home, a, x); }
      var l := if a == p then ls[p][1..] else ls[a];
      assert x !in l;
      Framed(node, node', l);
      if a == f { ConsLinked(node', ls[f], x); }
    }
    forall a, i | 0 <= a < |ls'| && 0 <= i < |ls'[a]|
      ensures Lives(ls', home', a, i)
    {
      if a == p {
        assert Lives(ls, home, a, i + 1);
        assert ls[p][1..][i] != x;
      } else if a != f {
        assert Lives(ls, home, a, i);
      } else if i > 0 {
        assert Lives(ls, home, a, i - 1);
      }
    }
    forall y | y in home'
      ensures 0 <= home'[y] < |ls'| && y in ls'[home'[y]]
    {
      if y != x && home[y] == p { TailHas(ls[p], y); }
    }
  }

  lemma ConsLinked(node: Nodes, l: seq<int>, x: int)
    requires Linked(node, l) && NoDup(l) && x !in l && x in node && x != NULL && node[x].next == First(l)
    ensures Linked(node, [x] + l) && NoDup([x] + l)
  {
    var l' := [x] + l;
    forall i | 0 <= i < |l'|
      ensures NodeAt(node, l', i)
    {
      if i > 0 { assert NodeAt(node, l, i - 1); }
    }
  }

  function Rehomed(home: map<int, int>, p: int, f: int): map<int, int> {
    map x | x in home :: if home[x] == p then f else home[x]
  }

  /** _ptclear: the whole list `p` goes to the front of list `f`. */
  lemma PoolSplice(node: Nodes, ls: seq<seq<int>>, home: map<int, int>, f: int, p: int)
    requires Pool(node, ls, home) && 0 <= f < |ls| && 0 <= p < |ls| && f != p && ls[p] != []
    ensures var y := Last(ls[p]);
            && y in node
            && var node', ls' := node[y := node[y].(next := First(ls[f]))], ls[p := []][f := ls[p] + ls[f]];
               && Pool(node', ls', Rehomed(home, p, f))
               && forall a :: 0 <= a < |ls| && a != p && a != f ==> Msgs(node', ls'[a]) == Msgs(node, ls[a])
  {
    var y := Last(ls[p]);
    assert y in ls[p] && y == ls[p][|ls[p]| - 1];
    LivesOnce(node, ls, home, p, y);
    var node', ls', home' := node[y := node[y].(next := First(ls[f]))], ls[p := []][f := ls[p] + ls[f]],
        Rehomed(home, p, f);
    forall a | 0 <= a < |ls|
      ensures Linked(node', ls'[a]) && NoDup(ls'[a]) && (a != f && a != p ==> Msgs(node', ls'[a]) == Msgs(node, ls[a]))
    {
      OthersKept(node, ls, home, a, y, p);
      if a == f {
        forall x | x in ls[p]
          ensures x !in ls[f]
        {
          LivesOnce(node, ls, home, p, x);
          if x in ls[f] { LivesOnce(node, ls, home, f, x); }
        }
        JoinLinked(node, ls[p], ls[f]);
      } else if a != p {
        if y in ls[a] { LivesOnce(node, ls, home, a, y); }
        Framed(node, node', ls[a]);
      }
    }
    forall a, i | 0 <= a < |ls'| && 0 <= i < |ls'[a]|
      ensures Lives(ls', home', a, i)
    {
      if a == f && i < |ls[p]| {
        assert Lives(ls, home, p, i);
      } else if a == f {
        assert Lives(ls, home, f, i - |ls[p]|);
      } else {
        assert Lives(ls, home, a, i);
      }
    }
  }

  lemma JoinLinked(node: Nodes, k: seq<int>, l: seq<int>)
    requires Linked(node, k) && NoDup(k) && Linked(node, l) && NoDup(l) && k != [] && forall x :: x in k ==> x !in l
    ensures Last(k) in node && Linked(node[Last(k) := node[Last(k)].(next := First(l))], k + l) && NoDup(k + l)
  {
    var y := Last(k);
    assert NodeAt(node, k, |k| - 1) && y in k;
    var node', m := node[y := node[y].(next := First(l))], k + l;
    forall i | 0 <= i < |m|
      ensures NodeAt(node', m, i)
    {
      if i < |k| {
        assert NodeAt(node, k, i);
      } else {
        assert NodeAt(node, l, i - |k|) && l[i - |k|] in l;
      }
    }
    forall i, j | 0 <= i < j < |m|
      ensures m[i] != m[j]
    {
      assert i < |k| ==> m[i] in k;
      assert j >= |k| ==> m[j] == l[j - |k|] && m[j] in l;
    }
  }
}
