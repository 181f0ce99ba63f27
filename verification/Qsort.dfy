/** The in-place quick sort of the library: a three-way partition around the middle element,
    a recursive call for the smaller side only, and a loop for the other.  Addresses are
    element indices. */
module Qsort {
  /** A comparison function in the manner of qsort: a total preorder. */
  ghost predicate Preorder<T(!new)>(cmp: (T, T) -> int) {
    && (forall x, y :: cmp(x, y) < 0 <==> cmp(y, x) > 0)
    && (forall x, y :: cmp(x, y) == 0 ==> cmp(y, x) == 0)
    && (forall x, y, z :: cmp(x, y) <= 0 && cmp(y, z) <= 0 ==> cmp(x, z) <= 0)
  }

  ghost predicate Sorted<T(!new)>(s: seq<T>, cmp: (T, T) -> int) {
    forall i, j :: 0 <= i < j < |s| ==> cmp(s[i], s[j]) <= 0
  }

  function Pow2(n: nat): (p: nat)
    ensures p > 0
  {
    if n == 0 then 1 else 2 * Pow2(n - 1)
  }

  /** The number of halvings until at most one element is left. */
  function Log2(n: nat): (d: nat)
    ensures n < Pow2(d) && (d > 0 ==> Pow2(d - 1) <= n)
  {
    if n == 0 then 0 else Log2Half(n); 1 + Log2(n / 2)
  }

  lemma Log2Half(n: nat)
    ensures n / 2 < n || n == 0
  {
  }

  // ---- Exchanges -----------------------------------------------------------------------

  lemma SwapPerm<T(!new)>(s: seq<T>, i: int, j: int)
    requires 0 <= i < |s| && 0 <= j < |s|
    ensures multiset(s[i := s[j]][j := s[i]]) == multiset(s)
  {
  }

  method Qsexc<T(!new)>(arr: array<T>, i: int, j: int)
    requires 0 <= i < arr.Length && 0 <= j < arr.Length
    modifies arr
    ensures arr[..] == old(arr[..])[i := old(arr[j])][j := old(arr[i])]
    ensures multiset(arr[..]) == multiset(old(arr[..]))
  {
    SwapPerm(arr[..], i, j);
    arr[i], arr[j] := arr[j], arr[i];
  }

  lemma RotatePerm<T(!new)>(s: seq<T>, i: int, j: int, k: int)
    requires 0 <= i < |s| && 0 <= j < |s| && 0 <= k < |s| && i != j
    ensures multiset(s[i := s[k]][k := s[j]][j := s[i]]) == multiset(s)
  {
    if i == k {
      assert s[i := s[k]][k := s[j]][j := s[i]] == s[i := s[j]][j := s[i]];
      SwapPerm(s, i, j);
    } else {
      RotateDistinct(s, i, j, k);
    }
  }

  lemma RotateDistinct<T(!new)>(s: seq<T>, i: int, j: int, k: int)
    requires 0 <= i < |s| && 0 <= j < |s| && 0 <= k < |s| && i != j && i != k
    ensures multiset(s[i := s[k]][k := s[j]][j := s[i]]) == multiset(s)
  {
    var t := s[i := s[k]][k := s[i]];
    SwapPerm(s, i, k);
    SwapPerm(t, k, j);
    assert s[i := s[k]][k := s[j]][j := s[i]] == t[k := t[j]][j := t[k]];
  }

  /** `i` gets what `k` had, `k` what `j` had and `j` what `i` had. */
  method Qstexc<T(!new)>(arr: array<T>, i: int, j: int, k: int)
    requires 0 <= i < arr.Length && 0 <= j < arr.Length && 0 <= k < arr.Length && i != j
    modifies arr
    ensures arr[..] == old(arr[..])[i := old(arr[k])][k := old(arr[j])][j := old(arr[i])]
    ensures multiset(arr[..]) == multiset(old(arr[..]))
  {
    RotatePerm(arr[..], i, j, k);
    var c := arr[i];
    arr[i] := arr[k];
    arr[k] := arr[j];
    arr[j] := c;
    assert arr[..] == old(arr[..])[i := old(arr[k])][k := old(arr[j])][j := old(arr[i])];
  }

  // ---- The partition -------------------------------------------------------------------

  /** Element `k` while partitioning: below `i` all is less than the pivot, from `lp` to
      `hp` equal to it, above `j` greater. */
  ghost predicate Place<T(!new)>(s: seq<T>, cmp: (T, T) -> int, i: int, lp: int, hp: int, j: int, k: int) {
    && 0 <= k < |s| && 0 <= lp < |s|
    && (k < i ==> cmp(s[k], s[lp]) < 0)
    && (lp <= k <= hp ==> cmp(s[k], s[lp]) == 0)
    && (j < k ==> cmp(s[k], s[lp]) > 0)
  }

  ghost predicate Parted<T(!new)>(s: seq<T>, cmp: (T, T) -> int, a: int, l: int, i: int, lp: int, hp: int, j: int) {
    forall k :: a <= k < l ==> Place(s, cmp, i, lp, hp, j, k)
  }

  predicate InOrder(a: int, i: int, lp: int, hp: int, j: int, l: int, n: int) { 0 <= a <= i <= lp <= hp <= j < l <= n }

  /** Everything else is as it was. */
  ghost predicate Same<T(!new)>(s: seq<T>, t: seq<T>, a: int, l: int) {
    && |s| == |t| && 0 <= a <= l <= |s| && s[..a] == t[..a]
    && s[l..] == t[l..] && multiset(s[a..l]) == multiset(t[a..l])
  }

  lemma Middle<T(!new)>(s: seq<T>, a: int, l: int)
    requires 0 <= a <= l <= |s|
    ensures multiset(s[a..l]) == multiset(s) - multiset(s[..a]) - multiset(s[l..])
  {
    assert s == s[..a] + s[a..l] + s[l..];
  }

  lemma SameByPerm<T(!new)>(s: seq<T>, t: seq<T>, a: int, l: int)
    requires Moved(s, t, a, l) && 0 <= a <= l <= |s|
    ensures Same(s, t, a, l)
  {
    assert s[..a] == t[..a] && s[l..] == t[l..];
    Middle(s, a, l);
    Middle(t, a, l);
  }

  /** A small element at `i` or a large one at `j` is where it should be. */
  lemma InPlace<T(!new)>(s: seq<T>, cmp: (T, T) -> int, a: int, l: int, i: int, lp: int, hp: int, j: int)
    requires Preorder(cmp) && InOrder(a, i, lp, hp, j, l, |s|) && Parted(s, cmp, a, l, i, lp, hp, j)
    ensures i < lp && cmp(s[i], s[lp]) < 0 ==> Parted(s, cmp, a, l, i + 1, lp, hp, j)
    ensures j > hp && cmp(s[hp], s[j]) < 0 ==> Parted(s, cmp, a, l, i, lp, hp, j - 1)
  {
    assert Place(s, cmp, i, lp, hp, j, hp);
    var i', j' := i + 1, j - 1;
    forall k | a <= k < l
      ensures i < lp && cmp(s[i], s[lp]) < 0 ==> Place(s, cmp, i', lp, hp, j, k)
      ensures j > hp && cmp(s[hp], s[j]) < 0 ==> Place(s, cmp, i, lp, hp, j', k)
    {
      assert Place(s, cmp, i, lp, hp, j, k);
    }
  }

  /** The five exchanges of the partition. */
  lemma LowEqual<T(!new)>(s: seq<T>, cmp: (T, T) -> int, a: int, l: int, i: int, lp: int, hp: int, j: int)
    requires Preorder(cmp) && InOrder(a, i, lp, hp, j, l, |s|) && Parted(s, cmp, a, l, i, lp, hp, j)
    requires i < lp && cmp(s[i], s[lp]) == 0
    ensures Parted(s[i := s[lp - 1]][lp - 1 := s[i]], cmp, a, l, i, lp - 1, hp, j)
  {
    var t := s[i := s[lp - 1]][lp - 1 := s[i]];
    var lp' := lp - 1;
    forall k | a <= k < l
      ensures Place(t, cmp, i, lp', hp, j, k)
    {
      assert Place(s, cmp, i, lp, hp, j, k);
    }
  }

  lemma HighEqual<T(!new)>(s: seq<T>, cmp: (T, T) -> int, a: int, l: int, i: int, lp: int, hp: int, j: int)
    requires Preorder(cmp) && InOrder(a, i, lp, hp, j, l, |s|) && Parted(s, cmp, a, l, i, lp, hp, j)
    requires j > hp && cmp(s[hp], s[j]) == 0
    ensures Parted(s[hp + 1 := s[j]][j := s[hp + 1]], cmp, a, l, i, lp, hp + 1, j)
  {
    var t := s[hp + 1 := s[j]][j := s[hp + 1]];
    assert Place(s, cmp, i, lp, hp, j, hp);
    var hp' := hp + 1;
    forall k | a <= k < l
      ensures Place(t, cmp, i, lp, hp', j, k)
    {
      assert Place(s, cmp, i, lp, hp, j, k);
    }
  }

  /** A small element at `j` goes below the pivots, which move up by one. */
  lemma HighLess<T(!new)>(s: seq<T>, cmp: (T, T) -> int, a: int, l: int, lp: int, hp: int, j: int)
    requires Preorder(cmp) && InOrder(a, lp, lp, hp, j, l, |s|) && Parted(s, cmp, a, l, lp, lp, hp, j)
    requires j > hp && cmp(s[hp], s[j]) > 0
    ensures Parted(s[lp := s[j]][j := s[hp + 1]][hp + 1 := s[lp]], cmp, a, l, lp + 1, lp + 1, hp + 1, j)
  {
    var t := s[lp := s[j]][j := s[hp + 1]][hp + 1 := s[lp]];
    assert Place(s, cmp, lp, lp, hp, j, hp) && Place(s, cmp, lp, lp, hp, j, lp);
    assert hp > lp ==> Place(s, cmp, lp, lp, hp, j, lp + 1);
    assert t[lp + 1] == if hp == lp then s[lp] else s[lp + 1];
    assert cmp(t[lp + 1], s[lp]) == 0;
    var lp', hp' := lp + 1, hp + 1;
    forall k | a <= k < l
      ensures Place(t, cmp, lp', lp', hp', j, k)
    {
      assert Place(s, cmp, lp, lp, hp, j, k);
    }
  }

  /** A large element at `i` and a small one at `j` change places. */
  lemma BothWrong<T(!new)>(s: seq<T>, cmp: (T, T) -> int, a: int, l: int, i: int, lp: int, hp: int, j: int)
    requires Preorder(cmp) && InOrder(a, i, lp, hp, j, l, |s|) && Parted(s, cmp, a, l, i, lp, hp, j)
    requires i < lp && j > hp && cmp(s[i], s[lp]) > 0 && cmp(s[hp], s[j]) > 0
    ensures Parted(s[i := s[j]][j := s[i]], cmp, a, l, i + 1, lp, hp, j - 1)
  {
    var t := s[i := s[j]][j := s[i]];
    assert Place(s, cmp, i, lp, hp, j, hp);
    var i', j' := i + 1, j - 1;
    forall k | a <= k < l
      ensures Place(t, cmp, i', lp, hp, j', k)
    {
      assert Place(s, cmp, i, lp, hp, j, k);
    }
  }

  /** A large element at `i` goes above the pivots, which move down by one. */
  lemma LowGreater<T(!new)>(s: seq<T>, cmp: (T, T) -> int, a: int, l: int, i: int, lp: int, hp: int)
    requires Preorder(cmp) && InOrder(a, i, lp, hp, hp, l, |s|) && Parted(s, cmp, a, l, i, lp, hp, hp)
    requires i < lp && cmp(s[i], s[lp]) > 0
    ensures Parted(s[hp := s[i]][i := s[lp - 1]][lp - 1 := s[hp]], cmp, a, l, i, lp - 1, hp - 1, hp - 1)
  {
    var t := s[hp := s[i]][i := s[lp - 1]][lp - 1 := s[hp]];
    assert Place(s, cmp, i, lp, hp, hp, hp);
    var lp', hp' := lp - 1, hp - 1;
    forall k | a <= k < l
      ensures Place(t, cmp, i, lp', hp', hp', k)
    {
      assert Place(s, cmp, i, lp, hp, hp, k);
    }
  }

  lemma Begins<T(!new)>(s: seq<T>, cmp: (T, T) -> int, a: int, l: int, p: int)
    requires Preorder(cmp) && 0 <= a <= p < l <= |s|
    ensures Parted(s, cmp, a, l, a, p, p, l - 1) && Moved(s, s, a, l)
  {
    Reflexive(cmp, s[p]);
    var j := l - 1;
    forall k | a <= k < l
      ensures Place(s, cmp, a, p, p, j, k)
    {
    }
  }

  lemma Reflexive<T(!new)>(cmp: (T, T) -> int, x: T)
    requires Preorder(cmp)
    ensures cmp(x, x) == 0
  {
  }

  /** The elements of `t` are those of `s`, and those outside `a .. l` have not moved. */
  ghost predicate Moved<T(!new)>(s: seq<T>, t: seq<T>, a: int, l: int) {
    && |s| == |t| && multiset(s) == multiset(t)
    && forall k :: 0 <= k < |s| && (k < a || k >= l) && k < |t| ==> s[k] == t[k]
  }

  lemma MovedMore<T(!new)>(s: seq<T>, t: seq<T>, u: seq<T>, a: int, l: int)
    requires Moved(s, t, a, l) && Moved(t, u, a, l)
    ensures Moved(s, u, a, l)
  {
  }

  method Exchange<T(!new)>(arr: array<T>, i: int, j: int, ghost s0: seq<T>, ghost a: int, ghost l: int)
    requires 0 <= a <= i < l <= arr.Length && a <= j < l && Moved(s0, arr[..], a, l)
    modifies arr
    ensures arr[..] == old(arr[..])[i := old(arr[..])[j]][j := old(arr[..])[i]] && Moved(s0, arr[..], a, l)
  {
    ghost var s := arr[..];
    Qsexc(arr, i, j);
    MovedMore(s0, s, arr[..], a, l);
  }

  method Exchange3<T(!new)>(arr: array<T>, i: int, j: int, k: int, ghost s0: seq<T>, ghost a: int, ghost l: int)
    requires 0 <= a <= i < l <= arr.Length && a <= j < l && a <= k < l && i != j && Moved(s0, arr[..], a, l)
    modifies arr
    ensures var s := old(arr[..]); arr[..] == s[i := s[k]][k := s[j]][j := s[i]] && Moved(s0, arr[..], a, l)
  {
    ghost var s := arr[..];
    Qstexc(arr, i, j, k);
    MovedMore(s0, s, arr[..], a, l);
  }

  /** One comparison with an element above the pivots; `again` when a small one there was
      exchanged for a large one below them. */
  method HighStep<T(!new)>(arr: array<T>, a: int, l: int, i0: int, lp0: int, hp0: int, j0: int, cmp: (T, T) -> int,
                    ghost s0: seq<T>)
    returns (i: int, lp: int, hp: int, j: int, again: bool)
    requires Preorder(cmp) && InOrder(a, i0, lp0, hp0, j0, l, arr.Length)
    requires Parted(arr[..], cmp, a, l, i0, lp0, hp0, j0)
    requires Moved(s0, arr[..], a, l) && j0 > hp0 && (i0 < lp0 ==> cmp(arr[i0], arr[lp0]) > 0)
    modifies arr
    ensures InOrder(a, i, lp, hp, j, l, arr.Length)
    ensures Parted(arr[..], cmp, a, l, i, lp, hp, j) && Moved(s0, arr[..], a, l)
    ensures lp - i + j - hp < lp0 - i0 + j0 - hp0
    ensures !again ==> i < lp ==> cmp(arr[i], arr[lp]) > 0
  {
    hide Parted, Moved, Preorder;
    i, lp, hp, j, again := i0, lp0, hp0, j0, false;
    ghost var s := arr[..];
    var c := cmp(arr[hp], arr[j]);
    if c == 0 {
      HighEqual(s, cmp, a, l, i, lp, hp, j);
      hp := hp + 1;
      Exchange(arr, hp, j, s0, a, l);
      assert arr[..][i] == s[i] && arr[..][lp] == s[lp];
    } else if c > 0 {
      if i == lp {
        HighLess(s, cmp, a, l, lp, hp, j);
        hp := hp + 1;
        Exchange3(arr, i, hp, j, s0, a, l);
        lp := lp + 1;
        i := lp;
      } else {
        BothWrong(s, cmp, a, l, i, lp, hp, j);
        Exchange(arr, i, j, s0, a, l);
        j := j - 1;
        i := i + 1;
        again := true;
      }
    } else {
      InPlace(s, cmp, a, l, i, lp, hp, j);
      j := j - 1;
    }
  }

  /** The inner loop of qs1. */
  method HighLoop<T(!new)>(arr: array<T>, a: int, l: int, i0: int, lp0: int, hp0: int, j0: int, cmp: (T, T) -> int,
                    ghost s0: seq<T>)
    returns (i: int, lp: int, hp: int, j: int, again: bool)
    requires Preorder(cmp) && InOrder(a, i0, lp0, hp0, j0, l, arr.Length)
    requires Parted(arr[..], cmp, a, l, i0, lp0, hp0, j0)
    requires Moved(s0, arr[..], a, l) && (i0 < lp0 ==> cmp(arr[i0], arr[lp0]) > 0)
    modifies arr
    ensures InOrder(a, i, lp, hp, j, l, arr.Length)
    ensures Parted(arr[..], cmp, a, l, i, lp, hp, j) && Moved(s0, arr[..], a, l)
    ensures again ==> lp - i + j - hp < lp0 - i0 + j0 - hp0
    ensures !again ==> j == hp && lp - i + j - hp <= lp0 - i0 + j0 - hp0 && (i < lp ==> cmp(arr[i], arr[lp]) > 0)
  {
    hide Parted, Moved, Preorder;
    i, lp, hp, j, again := i0, lp0, hp0, j0, false;
    while j > hp && !again
      invariant InOrder(a, i, lp, hp, j, l, arr.Length)
      invariant Parted(arr[..], cmp, a, l, i, lp, hp, j) && Moved(s0, arr[..], a, l)
      invariant again ==> lp - i + j - hp < lp0 - i0 + j0 - hp0
      invariant !again ==> lp - i + j - hp <= lp0 - i0 + j0 - hp0 && (i < lp ==> cmp(arr[i], arr[lp]) > 0)
      decreases lp - i + j - hp
    {
      i, lp, hp, j, again := HighStep(arr, a, l, i, lp, hp, j, cmp, s0);
    }
  }

  /** One turn of the outer loop; `done` when everything is in its place. */
  method Turn<T(!new)>(arr: array<T>, a: int, l: int, i0: int, lp0: int, hp0: int, j0: int, cmp: (T, T) -> int,
                ghost s0: seq<T>)
    returns (i: int, lp: int, hp: int, j: int, done: bool)
    requires Preorder(cmp) && InOrder(a, i0, lp0, hp0, j0, l, arr.Length)
    requires Parted(arr[..], cmp, a, l, i0, lp0, hp0, j0)
    requires Moved(s0, arr[..], a, l)
    modifies arr
    ensures InOrder(a, i, lp, hp, j, l, arr.Length)
    ensures Parted(arr[..], cmp, a, l, i, lp, hp, j) && Moved(s0, arr[..], a, l)
    ensures if done then i == lp && j == hp else lp - i + j - hp < lp0 - i0 + j0 - hp0
  {
    hide Parted, Moved, Preorder;
    i, lp, hp, j, done := i0, lp0, hp0, j0, false;
    if i < lp {
      var c := cmp(arr[i], arr[lp]);
      if c == 0 {
        LowEqual(arr[..], cmp, a, l, i, lp, hp, j);
        lp := lp - 1;
        Exchange(arr, i, lp, s0, a, l);
        return;
      }
      if c < 0 {
        InPlace(arr[..], cmp, a, l, i, lp, hp, j);
        i := i + 1;
        return;
      }
    }
    var again;
    i, lp, hp, j, again := HighLoop(arr, a, l, i, lp, hp, j, cmp, s0);
    if again {
      return;
    }
    if i == lp {
      done := true;
      return;
    }
    LowGreater(arr[..], cmp, a, l, i, lp, hp);
    lp := lp - 1;
    Exchange3(arr, j, lp, i, s0, a, l);
    hp := hp - 1;
    j := hp;
  }

  /** The loop of qs1 that splits `a .. l` into less, equal and greater. */
  method Partition<T(!new)>(arr: array<T>, a: int, l: int, cmp: (T, T) -> int) returns (lp: int, hp: int)
    requires Preorder(cmp) && 0 <= a < l <= arr.Length
    modifies arr
    ensures InOrder(a, lp, lp, hp, hp, l, arr.Length)
    ensures Parted(arr[..], cmp, a, l, lp, lp, hp, hp) && Same(old(arr[..]), arr[..], a, l)
  {
    var n := (l - a) / 2;
    hp, lp := a + n, a + n;
    var i, j := a, l - 1;
    ghost var s0 := arr[..];
    Begins(s0, cmp, a, l, lp);
    hide Parted, Preorder, Moved, Same;
    var done := false;
    while !done
      invariant InOrder(a, i, lp, hp, j, l, arr.Length)
      invariant Parted(arr[..], cmp, a, l, i, lp, hp, j) && Moved(s0, arr[..], a, l)
      invariant done ==> i == lp && j == hp
      decreases !done, lp - i + j - hp
    {
      i, lp, hp, j, done := Turn(arr, a, l, i, lp, hp, j, cmp, s0);
    }
    SameByPerm(s0, arr[..], a, l);
  }

  // ---- Sorting -------------------------------------------------------------------------

  /** The elements of a stretch are the same ones. */
  lemma StillThere<T(!new)>(s: seq<T>, t: seq<T>, a: int, l: int, k: int) returns (m: int)
    requires Same(s, t, a, l) && a <= k < l
    ensures a <= m < l && s[m] == t[k]
  {
    assert t[k] == t[a..l][k - a];
    assert t[k] in multiset(t[a..l]);
    assert t[k] in multiset(s[a..l]);
    var i :| 0 <= i < |s[a..l]| && s[a..l][i] == t[k];
    m := a + i;
  }

  /** Sorting one side of a partition leaves it a partition. */
  lemma StillParted<T(!new)>(s: seq<T>, t: seq<T>, cmp: (T, T) -> int, a: int, l: int, lp: int, hp: int, b: int, e: int)
    requires 0 <= a <= lp <= hp < l <= |s| && Parted(s, cmp, a, l, lp, lp, hp, hp) && Same(s, t, b, e)
    requires (a <= b <= e <= lp) || (hp < b <= e <= l)
    ensures Parted(t, cmp, a, l, lp, lp, hp, hp)
  {
    Outside(s, t, b, e, lp);
    forall k | a <= k < l
      ensures Place(t, cmp, lp, lp, hp, hp, k)
    {
      assert Place(s, cmp, lp, lp, hp, hp, k);
      if b <= k < e {
        var m := StillThere(s, t, b, e, k);
        assert Place(s, cmp, lp, lp, hp, hp, m);
      } else {
        Outside(s, t, b, e, k);
      }
    }
  }

  lemma Outside<T(!new)>(s: seq<T>, t: seq<T>, a: int, l: int, k: int)
    requires Same(s, t, a, l) && 0 <= k < |s| && (k < a || k >= l)
    ensures s[k] == t[k]
  {
    if k < a { assert s[..a][k] == t[..a][k]; } else { assert s[l..][k - l] == t[l..][k - l]; }
  }

  /** A change inside a stretch is a change inside a longer one. */
  lemma SameWider<T(!new)>(s: seq<T>, t: seq<T>, a: int, l: int, b: int, e: int)
    requires Same(s, t, b, e) && 0 <= a <= b && e <= l <= |s|
    ensures Same(s, t, a, l)
  {
    forall k | 0 <= k < |s| && (k < b || k >= e)
      ensures s[k] == t[k]
    {
      Outside(s, t, b, e, k);
    }
    assert s == s[..b] + s[b..e] + s[e..] && t == t[..b] + t[b..e] + t[e..];
    assert multiset(s) == multiset(t);
    assert Moved(s, t, a, l);
    SameByPerm(s, t, a, l);
  }

  lemma SameTwice<T(!new)>(s: seq<T>, t: seq<T>, u: seq<T>, a: int, l: int)
    requires Same(s, t, a, l) && Same(t, u, a, l)
    ensures Same(s, u, a, l)
  {
  }

  ghost predicate Ordered<T(!new)>(s: seq<T>, cmp: (T, T) -> int, x: int, y: int) {
    0 <= x < |s| && 0 <= y < |s| && cmp(s[x], s[y]) <= 0
  }

  /** In `a0 .. l0` every pair is in order that does not lie in `a .. l` as a whole. */
  ghost predicate Done<T(!new)>(s: seq<T>, cmp: (T, T) -> int, a0: int, a: int, l: int, l0: int) {
    forall x, y :: a0 <= x < y < l0 && (x < a || y >= l) ==> Ordered(s, cmp, x, y)
  }

  /** What is left to sort may be permuted. */
  lemma DonePermuted<T(!new)>(s: seq<T>, t: seq<T>, cmp: (T, T) -> int, a0: int, a: int, l: int, l0: int)
    requires Done(s, cmp, a0, a, l, l0) && Same(s, t, a, l) && 0 <= a0 <= a <= l <= l0 <= |s|
    ensures Done(t, cmp, a0, a, l, l0)
  {
    forall x, y | a0 <= x < y < l0 && (x < a || y >= l)
      ensures Ordered(t, cmp, x, y)
    {
      var m, n := x, y;
      if a <= x < l { m := StillThere(s, t, a, l, x); } else { Outside(s, t, a, l, x); }
      if a <= y < l { n := StillThere(s, t, a, l, y); } else { Outside(s, t, a, l, y); }
      assert Ordered(s, cmp, m, n);
    }
  }

  /** With one side of the partition sorted only the other side is left. */
  lemma DoneShrinks<T(!new)>(s: seq<T>, cmp: (T, T) -> int, a0: int, a: int, l: int, l0: int, lp: int, hp: int)
    requires Preorder(cmp) && 0 <= a0 <= a <= lp <= hp < l <= l0 <= |s|
    requires Done(s, cmp, a0, a, l, l0) && Parted(s, cmp, a, l, lp, lp, hp, hp)
    ensures Sorted(s[hp + 1..l], cmp) ==> Done(s, cmp, a0, a, lp, l0)
    ensures Sorted(s[a..lp], cmp) ==> Done(s, cmp, a0, hp + 1, l, l0)
  {
    var h := hp + 1;
    forall x, y | a0 <= x < y < l0
      ensures Sorted(s[h..l], cmp) && (x < a || y >= lp) ==> Ordered(s, cmp, x, y)
      ensures Sorted(s[a..lp], cmp) && (x < h || y >= l) ==> Ordered(s, cmp, x, y)
    {
      if x < a || y >= l {
        assert Ordered(s, cmp, x, y);
      } else {
        assert Place(s, cmp, lp, lp, hp, hp, x) && Place(s, cmp, lp, lp, hp, hp, y);
        if x >= h && Sorted(s[h..l], cmp) {
          assert s[h..l][x - h] == s[x] && s[h..l][y - h] == s[y];
        }
        if y < lp && Sorted(s[a..lp], cmp) {
          assert s[a..lp][x - a] == s[x] && s[a..lp][y - a] == s[y];
        }
      }
    }
  }

  lemma DoneSorted<T(!new)>(s: seq<T>, cmp: (T, T) -> int, a0: int, a: int, l: int, l0: int)
    requires Done(s, cmp, a0, a, l, l0) && 0 <= a0 <= a <= l <= l0 <= |s| && l - a <= 1
    ensures Sorted(s[a0..l0], cmp)
  {
    var u := s[a0..l0];
    forall i, j | 0 <= i < j < |u|
      ensures cmp(u[i], u[j]) <= 0
    {
      var x, y := a0 + i, a0 + j;
      assert Ordered(s, cmp, x, y);
    }
  }

  /** The smaller side is less than half. */
  lemma HalfFits(n: int, m: int, d: nat)
    requires 2 <= n < Pow2(d) && 0 <= m && 2 * m <= n - 1
    ensures d > 0 && m < Pow2(d - 1)
  {
  }

  /** One round of qs1: partition, and a recursive call for the smaller side. */
  method Round<T(!new)>(arr: array<T>, a0: int, l0: int, cmp: (T, T) -> int, ghost d: nat)
    returns (a: int, l: int, ghost depth: nat)
    requires Preorder(cmp) && 0 <= a0 && a0 + 2 <= l0 <= arr.Length && l0 - a0 < Pow2(d)
    modifies arr
    ensures a0 <= a <= l <= l0 && l - a < l0 - a0 && Same(old(arr[..]), arr[..], a0, l0)
    ensures Done(arr[..], cmp, a0, a, l, l0) && depth <= d
    decreases d, 0
  {
    hide Parted, Preorder, Same, Sorted, Done;
    ghost var s := arr[..];
    DoneInitial(s, cmp, a0, l0);
    var lp, hp := Partition(arr, a0, l0, cmp);
    ghost var t := arr[..];
    DonePermuted(s, t, cmp, a0, a0, l0, l0);
    if lp - a0 >= l0 - hp {
      HalfFits(l0 - a0, l0 - (hp + 1), d);
      depth := Qs1(arr, hp + 1, l0, cmp, d - 1);
      a, l := a0, lp;
      StillParted(t, arr[..], cmp, a0, l0, lp, hp, hp + 1, l0);
      SameWider(t, arr[..], a0, l0, hp + 1, l0);
    } else {
      HalfFits(l0 - a0, lp - a0, d);
      depth := Qs1(arr, a0, lp, cmp, d - 1);
      a, l := hp + 1, l0;
      StillParted(t, arr[..], cmp, a0, l0, lp, hp, a0, lp);
      SameWider(t, arr[..], a0, l0, a0, lp);
    }
    DonePermuted(t, arr[..], cmp, a0, a0, l0, l0);
    DoneShrinks(arr[..], cmp, a0, a0, l0, l0, lp, hp);
    SameTwice(s, t, arr[..], a0, l0);
    depth := depth + 1;
  }

  lemma DoneInitial<T(!new)>(s: seq<T>, cmp: (T, T) -> int, a: int, l: int)
    ensures Done(s, cmp, a, a, l, l)
  {
  }

  lemma DoneNested<T(!new)>(s: seq<T>, t: seq<T>, cmp: (T, T) -> int, a0: int, a: int, l: int, l0: int, b: int, e: int)
    requires Done(s, cmp, a0, a, l, l0) && Same(s, t, a, l) && Done(t, cmp, a, b, e, l)
    requires 0 <= a0 <= a <= b <= e <= l <= l0 <= |s|
    ensures Done(t, cmp, a0, b, e, l0)
  {
    DonePermuted(s, t, cmp, a0, a, l, l0);
    forall x, y | a0 <= x < y < l0 && (x < b || y >= e)
      ensures Ordered(t, cmp, x, y)
    {
      if x < a || y >= l { assert Ordered(t, cmp, x, y); }
    }
  }

  /** qs1 sorts `a0 .. l0`; `depth` is how deep its recursive calls nest, at most the
      number of halvings of the length. */
  method Qs1<T(!new)>(arr: array<T>, a0: int, l0: int, cmp: (T, T) -> int, ghost d: nat) returns (ghost depth: nat)
    requires Preorder(cmp) && 0 <= a0 <= l0 <= arr.Length && l0 - a0 < Pow2(d)
    modifies arr
    ensures Sorted(arr[a0..l0], cmp) && Same(old(arr[..]), arr[..], a0, l0) && depth <= d
    decreases d, 1
  {
    hide Preorder, Same, Sorted, Done;
    var a, l := a0, l0;
    depth := 0;
    DoneInitial(arr[..], cmp, a0, l0);
    SameInitial(arr[..], a0, l0);
    while l - a > 1
      invariant a0 <= a <= l <= l0 && depth <= d
      invariant Done(arr[..], cmp, a0, a, l, l0) && Same(old(arr[..]), arr[..], a0, l0)
      decreases l - a
    {
      ghost var s, b, e := arr[..], a, l;
      ghost var deeper;
      a, l, deeper := Round(arr, a, l, cmp, d);
      depth := if deeper > depth then deeper else depth;
      DoneNested(s, arr[..], cmp, a0, b, e, l0, a, l);
      SameWider(s, arr[..], a0, l0, b, e);
      SameTwice(old(arr[..]), s, arr[..], a0, l0);
    }
    DoneSorted(arr[..], cmp, a0, a, l, l0);
    assert arr[..][a0..l0] == arr[a0..l0];
  }

  lemma SameInitial<T(!new)>(s: seq<T>, a: int, l: int)
    requires 0 <= a <= l <= |s|
    ensures Same(s, s, a, l)
  {
  }

  /** qsort: the array ends sorted and a permutation of what it was, and the recursion is
      no deeper than log2 of its length, plus one. */
  method Qsort<T(!new)>(arr: array<T>, cmp: (T, T) -> int) returns (ghost depth: nat)
    requires Preorder(cmp)
    modifies arr
    ensures Sorted(arr[..], cmp) && multiset(arr[..]) == multiset(old(arr[..]))
    ensures depth <= Log2(arr.Length) && (arr.Length > 0 ==> Pow2(Log2(arr.Length) - 1) <= arr.Length)
  {
    depth := Qs1(arr, 0, arr.Length, cmp, Log2(arr.Length));
    assert arr[0..arr.Length] == arr[..];
    assert old(arr[..])[0..arr.Length] == old(arr[..]);
    assert arr[..][0..arr.Length] == arr[..];
  }
}
