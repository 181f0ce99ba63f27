/** Whole runs of the allocator: blocks in use never overlap each other or free memory, and
    no byte of the heap is lost. */
module HeapRuns {
  import opened Common
  import opened HeapSpec
  import opened Heap

  /** The free list, the blocks handed out and the counter in the list head. */
  datatype Arena = Arena(free: seq<Block>, live: seq<Block>, counter: int)

  /** A call, with the allocation policy in force; a free names the block in use. */
  datatype Call =
    | Mem(nbytes: int, firstfit: bool)
    | Stk(nbytes: int, firstfit: bool)
    | FreeMem(j: int)
    | FreeStk(j: int)

  function Without(l: seq<Block>, j: int): seq<Block>
    requires 0 <= j < |l|
  {
    l[..j] + l[j + 1..]
  }

  ghost predicate TookMem(a: Arena, n: int, firstfit: bool, b: Arena) {
    exists i :: MemPick(a.free, n, firstfit, i)
                && b == Arena(TakeLow(a.free, i, n), a.live + [LowPart(a.free, i, n)], Sub32(a.counter, n))
  }

  ghost predicate TookStk(a: Arena, n: int, firstfit: bool, b: Arena) {
    exists i :: StkPick(a.free, n, firstfit, i)
                && b == Arena(TakeHigh(a.free, i, n), a.live + [HighPart(a.free, i, n)], Sub32(a.counter, n))
  }

  ghost predicate Gave(a: Arena, j: int, b: Arena)
    requires 0 <= j < |a.live|
  {
    Returned(a.free, a.live[j], b.free) && b.live == Without(a.live, j) && b.counter == Add32(a.counter, a.live[j].len)
  }

  /** One call on properly obtained blocks; HeapCalls.Client makes such calls in place. */
  ghost predicate Step(a: Arena, c: Call, b: Arena) {
    match c
    case Mem(nbytes, firstfit) =>
      && Uint32(nbytes)
      && if Roundmb(nbytes) != 0 && Enough(a.free, Roundmb(nbytes)) then
           TookMem(a, Roundmb(nbytes), firstfit, b)
         else b == a
    case Stk(nbytes, firstfit) =>
      && Uint32(nbytes)
      && if Roundmb(nbytes) != 0 && Enough(a.free, Roundmb(nbytes)) then
           TookStk(a, Roundmb(nbytes), firstfit, b)
         else b == a
    case FreeMem(j) => 0 <= j < |a.live| && if FreememOk(a.free, a.live[j]) then Gave(a, j, b) else b == a
    case FreeStk(j) => 0 <= j < |a.live| && if FreestkOk(a.free, a.live[j]) then Gave(a, j, b) else b == a
  }

  ghost predicate InUse(live: seq<Block>, x: int) { exists i :: 0 <= i < |live| && Holds(live[i], x) }

  /** Every byte of the heap is free or in exactly one block in use. */
  ghost predicate Conserved(a: Arena, lo: int, hi: int) {
    && (forall x :: InUse(a.live, x) ==> lo <= x < hi && !IsFree(a.free, x))
    && (forall x :: lo <= x < hi ==> IsFree(a.free, x) || InUse(a.live, x))
    && (forall i, j, x :: 0 <= i < |a.live| && 0 <= j < |a.live| && Holds(a.live[i], x) && Holds(a.live[j], x) ==>
        i == j)
  }

  /** The counter differs from the number of free bytes by a constant, in 32 bits. */
  predicate Counts(a: Arena, base: int) { (Total(a.free) - a.counter - base) % TWO32 == 0 }

  ghost predicate Inv(a: Arena, lo: int, hi: int, base: int) {
    && Wf(a.free, lo, hi) && InHeap(a.live, lo, hi) && Conserved(a, lo, hi) && Counts(a, base)
  }

  // ---- Allocation --------------------------------------------------------------------

  lemma UsedAfter(live: seq<Block>, b: Block, x: int)
    ensures InUse(live + [b], x) <==> InUse(live, x) || Holds(b, x)
  {
    var l := live + [b];
    if InUse(live, x) {
      var i :| 0 <= i < |live| && Holds(live[i], x);
      assert Holds(l[i], x);
    }
    if Holds(b, x) { assert Holds(l[|live|], x); }
  }

  /** Handing out a free range `b` that is then no longer free. */
  lemma TakenConserved(a: Arena, lo: int, hi: int, g: seq<Block>, b: Block, c: int)
    requires Wf(a.free, lo, hi) && Conserved(a, lo, hi)
    requires forall x :: IsFree(g, x) <==> IsFree(a.free, x) && !Holds(b, x)
    requires forall x :: Holds(b, x) ==> IsFree(a.free, x)
    ensures Conserved(Arena(g, a.live + [b], c), lo, hi)
  {
    var l := a.live + [b];
    forall x
      ensures InUse(l, x) <==> InUse(a.live, x) || Holds(b, x)
    {
      UsedAfter(a.live, b, x);
    }
    forall i, j, x | 0 <= i < |l| && 0 <= j < |l| && Holds(l[i], x) && Holds(l[j], x)
      ensures i == j
    {
      if i < |a.live| { assert InUse(a.live, x); }
      if j < |a.live| { assert InUse(a.live, x); }
    }
    forall x | Holds(b, x)
      ensures lo <= x < hi
    {
      assert IsFree(a.free, x);
    }
  }

  lemma MemInv(a: Arena, lo: int, hi: int, base: int, n: int, firstfit: bool, b: Arena)
    requires Inv(a, lo, hi, base) && 0 < n && n % MIN_BLOCKSIZE == 0 && TookMem(a, n, firstfit, b)
    ensures Inv(b, lo, hi, base)
  {
    var i :| MemPick(a.free, n, firstfit, i)
             && b == Arena(TakeLow(a.free, i, n), a.live + [LowPart(a.free, i, n)], Sub32(a.counter, n));
    TakenWf(a.free, lo, hi, i, n);
    forall x { TakenFree(a.free, lo, hi, i, n, x); }
    TakenConserved(a, lo, hi, b.free, LowPart(a.free, i, n), b.counter);
    TotalTaken(a.free, i, n);
  }

  lemma StkInv(a: Arena, lo: int, hi: int, base: int, n: int, firstfit: bool, b: Arena)
    requires Inv(a, lo, hi, base) && 0 < n && n % MIN_BLOCKSIZE == 0 && TookStk(a, n, firstfit, b)
    ensures Inv(b, lo, hi, base)
  {
    var i :| StkPick(a.free, n, firstfit, i)
             && b == Arena(TakeHigh(a.free, i, n), a.live + [HighPart(a.free, i, n)], Sub32(a.counter, n));
    TakenWf(a.free, lo, hi, i, n);
    forall x { TakenFree(a.free, lo, hi, i, n, x); }
    TakenConserved(a, lo, hi, b.free, HighPart(a.free, i, n), b.counter);
    TotalTaken(a.free, i, n);
  }

  // ---- Freeing -----------------------------------------------------------------------

  /** A block in use overlaps no free block. */
  lemma LiveApart(a: Arena, lo: int, hi: int, j: int)
    requires Wf(a.free, lo, hi) && InHeap(a.live, lo, hi) && Conserved(a, lo, hi) && 0 <= j < |a.live|
    ensures FreestkOk(a.free, a.live[j])
  {
    var f, b := a.free, a.live[j];
    forall i | 0 <= i < |f|
      ensures Apart(f[i], b)
    {
      var x := if f[i].addr < b.addr then b.addr else f[i].addr;
      if Holds(f[i], x) && Holds(b, x) {
        assert IsFree(f, x) && InUse(a.live, x);
      }
    }
  }

  lemma UsedWithout(live: seq<Block>, j: int, x: int)
    requires 0 <= j < |live|
    ensures InUse(live, x) <==> InUse(Without(live, j), x) || Holds(live[j], x)
  {
    var l := Without(live, j);
    if InUse(live, x) && !Holds(live[j], x) {
      var i :| 0 <= i < |live| && Holds(live[i], x);
      assert Holds(l[if i < j then i else i - 1], x);
    }
    if InUse(l, x) {
      var i :| 0 <= i < |l| && Holds(l[i], x);
      assert Holds(live[if i < j then i else i + 1], x);
    }
  }

  lemma GivenConserved(a: Arena, lo: int, hi: int, j: int, b: Arena)
    requires 0 <= j < |a.live| && Conserved(a, lo, hi) && b.live == Without(a.live, j)
    requires forall x :: IsFree(b.free, x) <==> IsFree(a.free, x) || Holds(a.live[j], x)
    ensures Conserved(b, lo, hi)
  {
    var l := b.live;
    forall x
      ensures InUse(a.live, x) <==> InUse(l, x) || Holds(a.live[j], x)
      ensures !(InUse(l, x) && Holds(a.live[j], x))
    {
      UsedWithout(a.live, j, x);
      if InUse(l, x) {
        var i :| 0 <= i < |l| && Holds(l[i], x);
        assert Holds(a.live[if i < j then i else i + 1], x);
      }
    }
    forall p, q, x | 0 <= p < |l| && 0 <= q < |l| && Holds(l[p], x) && Holds(l[q], x)
      ensures p == q
    {
      assert Holds(a.live[if p < j then p else p + 1], x) && Holds(a.live[if q < j then q else q + 1], x);
    }
  }

  lemma GaveInv(a: Arena, lo: int, hi: int, base: int, j: int, b: Arena)
    requires Inv(a, lo, hi, base) && 0 <= j < |a.live| && Gave(a, j, b)
    ensures Inv(b, lo, hi, base)
  {
    hide Given, Total, IsFree, Holds, FitsAt;
    var d := a.live[j];
    var k :| Below(a.free, d.addr, k) && FitsAt(a.free, k, d) && b.free == Given(a.free, k, d);
    assert InHeap([d], lo, hi);
    GivenWf(a.free, lo, hi, k, d);
    forall x { GivenFree(a.free, lo, hi, k, d, x); }
    GivenConserved(a, lo, hi, j, b);
    TotalGiven(a.free, k, d);
  }

  // ---- Runs --------------------------------------------------------------------------

  lemma StepInv(a: Arena, c: Call, b: Arena, lo: int, hi: int, base: int)
    requires Inv(a, lo, hi, base) && Step(a, c, b)
    ensures Inv(b, lo, hi, base)
  {
    hide Inv, TookMem, TookStk, Gave;
    match c
    case Mem(nbytes, firstfit) =>
      if b != a { MemInv(a, lo, hi, base, Roundmb(nbytes), firstfit, b); }
    case Stk(nbytes, firstfit) =>
      if b != a { StkInv(a, lo, hi, base, Roundmb(nbytes), firstfit, b); }
    case FreeMem(j) =>
      if b != a { GaveInv(a, lo, hi, base, j, b); }
    case FreeStk(j) =>
      if b != a { GaveInv(a, lo, hi, base, j, b); }
  }

  ghost predicate Run(s: seq<Arena>, cs: seq<Call>) {
    |s| == |cs| + 1 && forall i :: 0 <= i < |cs| ==> Step(s[i], cs[i], s[i + 1])
  }

  /** In every state of every run from a fresh heap the free list is sorted and coalesced,
      every byte is free or in exactly one block in use, and the counter is right. */
  lemma {:induction false} RunInv(s: seq<Arena>, cs: seq<Call>, lo: int, hi: int, k: nat)
    requires Run(s, cs) && k <= |cs| && lo < hi && (hi - lo) % MIN_BLOCKSIZE == 0
    requires s[0] == Arena([Block(lo, hi - lo)], [], 0)
    ensures Inv(s[k], lo, hi, hi - lo)
  {
    if k == 0 {
      var f := [Block(lo, hi - lo)];
      forall x
        ensures lo <= x < hi <==> IsFree(f, x)
      {
        if lo <= x < hi { assert f[0].addr <= x < f[0].addr + f[0].len; }
      }
      assert Total(f) == hi - lo + Total(f[1..]);
    } else {
      RunInv(s, cs, lo, hi, k - 1);
      assert Step(s[k - 1], cs[k - 1], s[k - 1 + 1]);
      StepInv(s[k - 1], cs[k - 1], s[k], lo, hi, hi - lo);
    }
  }

  /** freestk never refuses a block in use; freemem does exactly when the block lies above
      all free memory. */
  lemma RefusedIff(a: Arena, lo: int, hi: int, base: int, j: int)
    requires Inv(a, lo, hi, base) && 0 <= j < |a.live|
    ensures FreestkOk(a.free, a.live[j])
    ensures FreememOk(a.free, a.live[j]) <==> exists i :: 0 <= i < |a.free| && a.live[j].addr < a.free[i].addr
  {
    LiveApart(a, lo, hi, j);
  }

  // ---- A free undoes an allocation -----------------------------------------------------

  /** Giving back what was just taken restores the list itself, not only the set. */
  lemma Undone(f: seq<Block>, lo: int, hi: int, g: seq<Block>, b: Block, h: seq<Block>)
    requires Wf(f, lo, hi) && Wf(g, lo, hi) && InHeap([b], lo, hi) && Returned(g, b, h)
    requires forall x :: IsFree(g, x) <==> IsFree(f, x) && !Holds(b, x)
    requires forall x :: Holds(b, x) ==> IsFree(f, x)
    ensures h == f
  {
    var k :| Below(g, b.addr, k) && FitsAt(g, k, b) && h == Given(g, k, b);
    GivenWf(g, lo, hi, k, b);
    forall x
      ensures IsFree(h, x) <==> IsFree(f, x)
    {
      GivenFree(g, lo, hi, k, b, x);
    }
    Canonical(h, f, lo, hi);
  }

  lemma TakenBack(f: seq<Block>, lo: int, hi: int, i: int, n: int, h: seq<Block>)
    requires Wf(f, lo, hi) && 0 <= i < |f| && 0 < n <= f[i].len && n % MIN_BLOCKSIZE == 0
    ensures Returned(TakeLow(f, i, n), LowPart(f, i, n), h) ==> h == f
    ensures Returned(TakeHigh(f, i, n), HighPart(f, i, n), h) ==> h == f
  {
    assert InHeap([LowPart(f, i, n)], lo, hi) && InHeap([HighPart(f, i, n)], lo, hi);
    TakenWf(f, lo, hi, i, n);
    forall x { TakenFree(f, lo, hi, i, n, x); }
    hide Wf, IsFree, Holds, TakeLow, TakeHigh, LowPart, HighPart, Returned;
    if Returned(TakeLow(f, i, n), LowPart(f, i, n), h) { Undone(f, lo, hi, TakeLow(f, i, n), LowPart(f, i, n), h); }
    if Returned(TakeHigh(f, i, n), HighPart(f, i, n), h) { Undone(f, lo, hi, TakeHigh(f, i, n), HighPart(f, i, n), h); }
  }

  /** freemem of a block that getmem has just returned is accepted unless the block was
      the whole of the highest free block, and then it restores the free list. */
  lemma FreeUndoesGetmem(f: seq<Block>, lo: int, hi: int, i: int, n: int, h: seq<Block>)
    requires Wf(f, lo, hi) && 0 <= i < |f| && 0 < n <= f[i].len && n % MIN_BLOCKSIZE == 0
    ensures FreememOk(TakeLow(f, i, n), LowPart(f, i, n)) <==> !(i == |f| - 1 && f[i].len == n)
    ensures Returned(TakeLow(f, i, n), LowPart(f, i, n), h) ==> h == f
  {
    hide Returned;
    var g, b := TakeLow(f, i, n), LowPart(f, i, n);
    TakenBack(f, lo, hi, i, n, h);
    TakenApart(f, lo, hi, i, n);
    if i == |f| - 1 && f[i].len == n {
      forall j | 0 <= j < |g|
        ensures g[j].addr < b.addr
      {
        assert Gap(f, j, i);
      }
    } else if f[i].len == n {
      assert Gap(f, i, i + 1);
      assert g[i] == f[i + 1];
    } else {
      assert b.addr < g[i].addr;
    }
  }

  lemma TakenApart(f: seq<Block>, lo: int, hi: int, i: int, n: int)
    requires Wf(f, lo, hi) && 0 <= i < |f| && 0 < n <= f[i].len
    ensures FreestkOk(TakeLow(f, i, n), LowPart(f, i, n)) && FreestkOk(TakeHigh(f, i, n), HighPart(f, i, n))
  {
    forall g, b, j | 0 <= j < |g|
        && ((g == TakeLow(f, i, n) && b == LowPart(f, i, n)) || (g == TakeHigh(f, i, n) && b == HighPart(f, i, n)))
      ensures Apart(g[j], b)
    {
      var j' := if f[i].len == n && j >= i then j + 1 else j;
      if j' < i { assert Gap(f, j', i); }
      if i < j' { assert Gap(f, i, j'); }
    }
  }

  /** The range that freestk frees for the stack getstk returned: it is the range taken if
      and only if the length was a multiple of 16, and otherwise lies that much too high. */
  lemma FreestkRange(f: seq<Block>, lo: int, hi: int, i: int, nbytes: int)
    requires Wf(f, lo, hi) && 0 <= lo && hi < TWO32 && 0 <= i < |f| && 0 < nbytes <= TWO32 - MIN_BLOCKSIZE
    requires Roundmb(nbytes) <= f[i].len
    ensures var taken := HighPart(f, i, Roundmb(nbytes));
            var freed := Block(Sub32(End(taken) - WORD + WORD, nbytes), Roundmb(nbytes));
            && (freed == taken <==> nbytes % MIN_BLOCKSIZE == 0)
            && freed.addr - taken.addr == Roundmb(nbytes) - nbytes
  {
    var n := Roundmb(nbytes);
    var x := f[i].addr + f[i].len - nbytes;
    assert 0 <= x < TWO32;
    assert x % TWO32 == x;
  }

  /** freestk of exactly the range that getstk took is accepted and restores the free list. */
  lemma FreeUndoesGetstk(f: seq<Block>, lo: int, hi: int, i: int, n: int, h: seq<Block>)
    requires Wf(f, lo, hi) && 0 <= i < |f| && 0 < n <= f[i].len && n % MIN_BLOCKSIZE == 0
    ensures FreestkOk(TakeHigh(f, i, n), HighPart(f, i, n))
    ensures Returned(TakeHigh(f, i, n), HighPart(f, i, n), h) ==> h == f
  {
    TakenBack(f, lo, hi, i, n, h);
    TakenApart(f, lo, hi, i, n);
  }

  /** A request above 0xFFFFFFF0 rounds to 0: it is met whenever any memory is free, and
      reserves nothing. */
  lemma HugeRequest(f: seq<Block>, lo: int, hi: int, i: int, nbytes: int)
    requires Wf(f, lo, hi) && Uint32(nbytes) && 0 <= i < |f|
    ensures nbytes > TWO32 - MIN_BLOCKSIZE ==> Enough(f, Roundmb(nbytes))
    ensures TakeLow(f, i, Roundmb(nbytes)) == f <==> nbytes == 0 || nbytes > TWO32 - MIN_BLOCKSIZE
  {
    var n := Roundmb(nbytes);
    assert f[i].len >= 0;
    if n == 0 {
      assert TakeLow(f, i, n) == f;
    } else if f[i].len == n {
      assert |TakeLow(f, i, n)| == |f| - 1;
    } else {
      assert TakeLow(f, i, n)[i].addr != f[i].addr;
    }
  }
}
