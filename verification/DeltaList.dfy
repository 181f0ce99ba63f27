/** The sleep queue as a delta list: each key is the delay after the process before it.
    What matters is the absolute delay of each process. */
module DeltaList {
  import opened Common
  import opened QueueTab

  type Keys = seq<int>

  datatype Sleeper = Sleeper(pid: int, due: int)

  ghost predicate Keyed(keys: Keys, l: seq<int>) { |keys| == NPROC && Pids(l) }

  /** The processes of the list with their delays, `base` ticks from now. */
  function Due(keys: Keys, l: seq<int>, base: int): (d: seq<Sleeper>)
    requires Keyed(keys, l)
    ensures |d| == |l|
  {
    if l == [] then []
    else [Sleeper(l[0], base + keys[l[0]])] + Due(keys, l[1..], base + keys[l[0]])
  }

  /** How many processes insertd passes. */
  function Passed(keys: Keys, l: seq<int>, key: int): (p: int)
    requires Keyed(keys, l)
    ensures 0 <= p <= |l|
  {
    if l == [] || keys[l[0]] > key then 0 else 1 + Passed(keys, l[1..], key - keys[l[0]])
  }

  /** The delay left after them. */
  function Left(keys: Keys, l: seq<int>, key: int): int
    requires Keyed(keys, l)
  {
    if l == [] || keys[l[0]] > key then key else Left(keys, l[1..], key - keys[l[0]])
  }

  ghost predicate NonNegative(keys: Keys, l: seq<int>)
    requires Keyed(keys, l)
  {
    forall i :: 0 <= i < |l| ==> keys[l[i]] >= 0
  }

  lemma {:induction false} DueFramed(keys: Keys, keys': Keys, l: seq<int>, base: int)
    requires Keyed(keys, l) && |keys'| == NPROC && forall x :: x in l ==> Pid(x) && keys'[x] == keys[x]
    ensures Due(keys', l, base) == Due(keys, l, base)
  {
    if l != [] {
      assert l[0] in l;
      DueFramed(keys, keys', l[1..], base + keys[l[0]]);
    }
  }

  /** The delays of the whole list shift with the base. */
  lemma {:induction false} DueShift(keys: Keys, l: seq<int>, base: int, d: int, i: int)
    requires Keyed(keys, l) && 0 <= i < |l|
    ensures Due(keys, l, base)[i].pid == l[i] == Due(keys, l, base + d)[i].pid
    ensures Due(keys, l, base + d)[i].due == Due(keys, l, base)[i].due + d
  {
    if i > 0 {
      DueShift(keys, l[1..], base + keys[l[0]], d, i - 1);
      assert base + d + keys[l[0]] == base + keys[l[0]] + d;
    }
  }

  /** Delays never fall along the list. */
  lemma {:induction false} DueRises(keys: Keys, l: seq<int>, base: int, i: int)
    requires Keyed(keys, l) && NonNegative(keys, l) && 0 <= i < |l|
    ensures Due(keys, l, base)[i].due >= base + keys[l[0]]
  {
    if i > 0 {
      assert keys[l[1]] >= 0;
      DueRises(keys, l[1..], base + keys[l[0]], i - 1);
    }
  }

  /** Keys after insertd has put `pid` at its place. */
  function InsdKeys(keys: Keys, l: seq<int>, pid: int, key: int): Keys
    requires Keyed(keys, l) && Pid(pid)
  {
    var p, left := Passed(keys, l, key), Left(keys, l, key);
    var keys' := keys[pid := left];
    if p < |l| then keys'[l[p] := keys'[l[p]] - left] else keys'
  }

  lemma ConsSplit(x: Sleeper, e: seq<Sleeper>, p: int)
    requires 0 < p <= |e| + 1
    ensures ([x] + e)[..p] == [x] + e[..p - 1] && ([x] + e)[p..] == e[p - 1..]
  {
  }

  lemma InsTail(l: seq<int>, p: int, x: int)
    requires 0 < p <= |l|
    ensures Ins(l, p, x) != [] && Ins(l, p, x)[0] == l[0] && Ins(l, p, x)[1..] == Ins(l[1..], p - 1, x)
  {
  }

  lemma DueCons(keys: Keys, l: seq<int>, base: int)
    requires Keyed(keys, l) && l != []
    ensures Due(keys, l, base) == [Sleeper(l[0], base + keys[l[0]])] + Due(keys, l[1..], base + keys[l[0]])
  {
  }

  lemma DueNone(keys: Keys, base: int)
    requires |keys| == NPROC
    ensures Due(keys, [], base) == []
  {
  }

  lemma ConsInsert(x: Sleeper, e: seq<Sleeper>, y: Sleeper, p: int)
    requires 0 < p <= |e| + 1
    ensures ([x] + e)[..p] + [y] + ([x] + e)[p..] == [x] + (e[..p - 1] + [y] + e[p - 1..])
  {
    ConsSplit(x, e, p);
    assert [x] + e[..p - 1] + [y] + e[p - 1..] == [x] + (e[..p - 1] + [y] + e[p - 1..]);
  }

  lemma InsertFirst(y: Sleeper, e: seq<Sleeper>)
    ensures e[..0] + [y] + e[0..] == [y] + e
  {
  }

  /** The new process goes first: what is left of its delay comes off the next key. */
  lemma InsertsFirst(keys: Keys, l: seq<int>, pid: int, key: int, base: int)
    requires Keyed(keys, l) && NoDup(l) && Pid(pid) && pid !in l && Passed(keys, l, key) == 0
    ensures Pids(Ins(l, 0, pid)) && |InsdKeys(keys, l, pid, key)| == NPROC
    ensures Due(InsdKeys(keys, l, pid, key), Ins(l, 0, pid), base)
         == Due(keys, l, base)[..0] + [Sleeper(pid, base + key)] + Due(keys, l, base)[0..]
  {
    var keys', l' := InsdKeys(keys, l, pid, key), Ins(l, 0, pid);
    assert l'[0] == pid && l'[1..] == l;
    assert Left(keys, l, key) == key;
    hide Due, Passed, Left;
    DueCons(keys', l', base);
    InsertFirst(Sleeper(pid, base + key), Due(keys, l, base));
    if l == [] {
      DueNone(keys', base + key);
      DueNone(keys, base);
    } else {
      DueFramed(keys, keys', l[1..], base + keys[l[0]]);
      DueCons(keys', l, base + key);
      DueCons(keys, l, base);
    }
  }

  lemma PassedTail(keys: Keys, l: seq<int>, pid: int, key: int)
    requires Keyed(keys, l) && NoDup(l) && Pid(pid) && pid !in l && Passed(keys, l, key) > 0
    ensures l != [] && NoDup(l[1..]) && Passed(keys, l, key) == Passed(keys, l[1..], key - keys[l[0]]) + 1
    ensures InsdKeys(keys, l[1..], pid, key - keys[l[0]]) == InsdKeys(keys, l, pid, key)
    ensures InsdKeys(keys, l, pid, key)[l[0]] == keys[l[0]]
  {
  }

  /** insertd adds the process at its delay, after equal ones, and changes no other delay. */
  lemma {:induction false} Inserts(keys: Keys, l: seq<int>, pid: int, key: int, base: int)
    requires Keyed(keys, l) && NoDup(l) && Pid(pid) && pid !in l
    ensures var p := Passed(keys, l, key);
            && Pids(Ins(l, p, pid)) && |InsdKeys(keys, l, pid, key)| == NPROC
            && Due(InsdKeys(keys, l, pid, key), Ins(l, p, pid), base)
               == Due(keys, l, base)[..p] + [Sleeper(pid, base + key)] + Due(keys, l, base)[p..]
  {
    hide Due, Left, Passed, InsdKeys, Ins, NoDup;
    var p := Passed(keys, l, key);
    if p == 0 {
      InsertsFirst(keys, l, pid, key, base);
    } else {
      PassedTail(keys, l, pid, key);
      var t, base' := l[1..], base + keys[l[0]];
      Inserts(keys, t, pid, key - keys[l[0]], base');
      InsTail(l, p, pid);
      InsPids(l, p, pid);
      DueCons(keys, l, base);
      DueCons(InsdKeys(keys, l, pid, key), Ins(l, p, pid), base);
      ConsInsert(Sleeper(l[0], base'), Due(keys, t, base'), Sleeper(pid, base + key), p);
    }
  }

  lemma InsPids(l: seq<int>, p: int, pid: int)
    requires Pids(l) && 0 <= p <= |l| && Pid(pid)
    ensures Pids(Ins(l, p, pid))
  {
  }

  /** Everyone before the place is due no later, everyone after it strictly later. */
  lemma {:induction false} PassedIsSorted(keys: Keys, l: seq<int>, key: int, base: int, i: int)
    requires Keyed(keys, l) && NonNegative(keys, l) && 0 <= i < |l|
    ensures i < Passed(keys, l, key) <==> Due(keys, l, base)[i].due <= base + key
  {
    if keys[l[0]] > key {
      DueRises(keys, l, base, i);
    } else if i > 0 {
      PassedIsSorted(keys, l[1..], key - keys[l[0]], base + keys[l[0]], i - 1);
    }
  }

  lemma {:induction false} LeftFits(keys: Keys, l: seq<int>, key: int)
    requires Keyed(keys, l) && NonNegative(keys, l) && key >= 0
    ensures 0 <= Left(keys, l, key) <= key
    ensures Passed(keys, l, key) == 0 ==> Left(keys, l, key) == key
    ensures Passed(keys, l, key) < |l| ==> keys[l[Passed(keys, l, key)]] > Left(keys, l, key)
  {
    if l != [] && keys[l[0]] <= key {
      assert keys[l[0]] >= 0;
      LeftFits(keys, l[1..], key - keys[l[0]]);
    }
  }

  /** Keys after unsleep has handed the delay of process `i` on to the next one. */
  function UnslKeys(keys: Keys, l: seq<int>, i: int): Keys
    requires Keyed(keys, l) && 0 <= i < |l|
  {
    if i + 1 < |l| then keys[l[i + 1] := keys[l[i + 1]] + keys[l[i]]] else keys
  }

  lemma ConsWithout(x: Sleeper, e: seq<Sleeper>, i: int)
    requires 0 < i <= |e|
    ensures ([x] + e)[..i] + ([x] + e)[i + 1..] == [x] + (e[..i - 1] + e[i..])
  {
  }

  lemma UnslTail(keys: Keys, l: seq<int>, i: int)
    requires Keyed(keys, l) && NoDup(l) && 0 < i < |l|
    ensures NoDup(l[1..]) && UnslKeys(keys, l[1..], i - 1) == UnslKeys(keys, l, i)
    ensures UnslKeys(keys, l, i)[l[0]] == keys[l[0]] && |UnslKeys(keys, l, i)| == NPROC && Pids(Del(l, i))
  {
  }

  /** unsleep removes one process and changes no other delay. */
  lemma {:induction false} Unsleeps(keys: Keys, l: seq<int>, i: int, base: int)
    requires Keyed(keys, l) && NoDup(l) && 0 <= i < |l|
    ensures Pids(Del(l, i)) && |UnslKeys(keys, l, i)| == NPROC
    ensures Due(UnslKeys(keys, l, i), Del(l, i), base) == Due(keys, l, base)[..i] + Due(keys, l, base)[i + 1..]
  {
    hide Due, UnslKeys, Del, NoDup;
    if i == 0 {
      UnsleepsFirst(keys, l, base);
    } else {
      var t, base' := l[1..], base + keys[l[0]];
      UnslTail(keys, l, i);
      Unsleeps(keys, t, i - 1, base');
      DelTail(l, i);
      DueCons(keys, l, base);
      DueCons(UnslKeys(keys, l, i), Del(l, i), base);
      ConsWithout(Sleeper(l[0], base'), Due(keys, t, base'), i);
    }
  }

  lemma DelTail(l: seq<int>, i: int)
    requires 0 < i < |l|
    ensures Del(l, i) != [] && Del(l, i)[0] == l[0] && Del(l, i)[1..] == Del(l[1..], i - 1)
  {
  }

  lemma UnsleepsFirst(keys: Keys, l: seq<int>, base: int)
    requires Keyed(keys, l) && NoDup(l) && l != []
    ensures Pids(Del(l, 0)) && |UnslKeys(keys, l, 0)| == NPROC
    ensures Due(UnslKeys(keys, l, 0), Del(l, 0), base) == Due(keys, l, base)[1..]
  {
    assert Del(l, 0) == l[1..];
    if |l| > 1 {
      DueFramed(keys, UnslKeys(keys, l, 0), l[1..][1..], base + keys[l[0]] + keys[l[1]]);
      assert l[1..][0] == l[1];
      assert base + (keys[l[1]] + keys[l[0]]) == base + keys[l[0]] + keys[l[1]];
    }
  }

  /** One tick lowers every delay by one. */
  lemma TickLowers(keys: Keys, l: seq<int>, base: int)
    requires Keyed(keys, l) && NoDup(l) && l != []
    ensures Due(keys[l[0] := keys[l[0]] - 1], l, base) == Due(keys, l, base - 1)
  {
    DueFramed(keys, keys[l[0] := keys[l[0]] - 1], l[1..], base + keys[l[0]] - 1);
    assert base + (keys[l[0]] - 1) == base - 1 + keys[l[0]] == base + keys[l[0]] - 1;
  }

  /** How many processes wakeup releases. */
  function Expired(keys: Keys, l: seq<int>): (n: int)
    requires Keyed(keys, l)
    ensures 0 <= n <= |l|
  {
    if l == [] || keys[l[0]] > 0 then 0 else 1 + Expired(keys, l[1..])
  }

  /** When the first key has come down to 0 these are exactly the processes that are due,
      and the others keep their delays. */
  lemma {:induction false} ExpiredAreDue(keys: Keys, l: seq<int>, i: int)
    requires Keyed(keys, l) && NonNegative(keys, l) && 0 <= i < |l|
    ensures i < Expired(keys, l) <==> Due(keys, l, 0)[i].due <= 0
    ensures Due(keys, l[Expired(keys, l)..], 0) == Due(keys, l, 0)[Expired(keys, l)..]
  {
    if keys[l[0]] > 0 {
      DueRises(keys, l, 0, i);
    } else {
      var t := l[1..];
      assert keys[l[0]] >= 0;
      assert Due(keys, l, 0) == [Sleeper(l[0], 0)] + Due(keys, t, 0);
      assert l[Expired(keys, l)..] == t[Expired(keys, t)..];
      if t != [] { ExpiredAreDue(keys, t, if i > 0 then i - 1 else 0); }
    }
  }

  /** What a tick makes of sleeper `i` when the first key is at least 1: it is released if
      it had one tick left, and otherwise has one less. */
  lemma TickDue(keys: Keys, l: seq<int>, i: int)
    requires Keyed(keys, l) && NoDup(l) && NonNegative(keys, l) && 0 <= i < |l| && keys[l[0]] >= 1
    ensures var keys' := keys[l[0] := keys[l[0]] - 1];
            var d, n := Due(keys, l, 0)[i].due, Expired(keys', l);
            && d >= 1 && (i < n <==> d == 1)
            && (i >= n ==> Due(keys', l[n..], 0)[i - n] == Sleeper(l[i], d - 1))
  {
    var keys' := keys[l[0] := keys[l[0]] - 1];
    TickLowers(keys, l, 0);
    DueShift(keys, l, 0, -1, i);
    DueRises(keys, l, 0, i);
    assert NonNegative(keys', l);
    ExpiredAreDue(keys', l, i);
  }
}
