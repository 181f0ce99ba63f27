/** Words and constants shared by the components. */
module Common {
  const TWO32 := 0x1_0000_0000
  const WRAP16 := 0x1_0000
  const OK := 1
  const SYSERR := -1
  const NPROC := 100

  predicate Uint32(x: int) { 0 <= x < TWO32 }

  predicate Pid(x: int) { 0 <= x < NPROC }

  function Max(a: int, b: int): int { if a < b then b else a }

  function Min(a: int, b: int): int { if a < b then a else b }

  ghost predicate NoDup(l: seq<int>) { forall i, j :: 0 <= i < j < |l| ==> l[i] != l[j] }

  // ---- A search that goes round a table ------------------------------------------------------

  /** The `j`th entry of a table of `n` that a search from `start` looks at. */
  function Probed(start: int, n: int, j: int): (p: int)
    requires 0 <= start < n && 0 <= j <= n
    ensures 0 <= p < n
  {
    if start + j < n then start + j else start + j - n
  }

  lemma ProbedNext(start: int, n: int, j: int)
    requires 0 <= start < n && 0 <= j < n
    ensures Probed(start, n, 0) == start
    ensures Probed(start, n, j + 1) == if Probed(start, n, j) + 1 >= n then 0 else Probed(start, n, j) + 1
  {
  }

  lemma ProbedAll(start: int, n: int, i: int)
    requires 0 <= start < n && 0 <= i < n
    ensures exists j :: 0 <= j < n && Probed(start, n, j) == i
  {
    assert Probed(start, n, if i >= start then i - start else i - start + n) == i;
  }
}
