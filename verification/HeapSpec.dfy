/** The free memory of the kernel as a list of blocks in address order, no two of them
    touching, and what the four allocator calls do to it. */
module HeapSpec {
  import opened Common

  const MIN_BLOCKSIZE := 16
  const WORD := 4   // sizeof(uint32)

  datatype Block = Block(addr: int, len: int)

  /** The macro roundmb on a 32-bit length: the addition wraps. */
  function Roundmb(n: int): (r: int)
    requires Uint32(n)
    ensures Uint32(r) && r % MIN_BLOCKSIZE == 0
    ensures n <= TWO32 - MIN_BLOCKSIZE <==> n <= r < n + MIN_BLOCKSIZE
    ensures n > TWO32 - MIN_BLOCKSIZE ==> r == 0
  {
    (n + 15) % TWO32 / 16 * 16
  }

  function End(b: Block): int { b.addr + b.len }

  ghost predicate InHeap(f: seq<Block>, lo: int, hi: int) {
    forall i :: 0 <= i < |f| ==>
      lo <= f[i].addr && 0 < f[i].len && f[i].len % MIN_BLOCKSIZE == 0 && f[i].addr + f[i].len <= hi
  }

  /** There is a gap between blocks `i` and `j`. */
  ghost predicate Gap(f: seq<Block>, i: int, j: int) {
    0 <= i < |f| && 0 <= j < |f| && f[i].addr + f[i].len < f[j].addr
  }

  /** In address order and fully coalesced. */
  ghost predicate Wf(f: seq<Block>, lo: int, hi: int) {
    InHeap(f, lo, hi) && forall i, j :: 0 <= i < j < |f| ==> Gap(f, i, j)
  }

  /** Byte `x` is in a free block. */
  ghost predicate IsFree(f: seq<Block>, x: int) {
    exists i :: 0 <= i < |f| && f[i].addr <= x < f[i].addr + f[i].len
  }

  predicate Holds(b: Block, x: int) { b.addr <= x < b.addr + b.len }

  predicate Apart(a: Block, b: Block) { End(a) <= b.addr || End(b) <= a.addr }

  // ---- Which block an allocation takes ---------------------------------------------

  /** Block `i` is large enough and no lower one is. */
  ghost predicate Lowest(f: seq<Block>, n: int, i: int) {
    0 <= i < |f| && f[i].len >= n && forall j :: 0 <= j < i ==> f[j].len < n
  }

  /** Block `i` has the least sufficient length. */
  ghost predicate Least(f: seq<Block>, n: int, i: int) {
    0 <= i < |f| && f[i].len >= n && forall j :: 0 <= j < |f| && f[j].len >= n ==> f[i].len <= f[j].len
  }

  /** The choice of getmem: lowest sufficient block, or the lowest of the least ones. */
  ghost predicate MemPick(f: seq<Block>, n: int, firstfit: bool, i: int) {
    if firstfit then Lowest(f, n, i)
    else Least(f, n, i) && forall j :: 0 <= j < |f| && f[j].len == f[i].len ==> i <= j
  }

  /** The choice of getstk: under best fit an exact block is the lowest one and any other
      the highest of the least ones. */
  ghost predicate StkPick(f: seq<Block>, n: int, firstfit: bool, i: int) {
    if firstfit then Lowest(f, n, i)
    else
      && Least(f, n, i)
      && forall j :: 0 <= j < |f| && f[j].len == f[i].len ==> if f[i].len == n then i <= j else j <= i
  }

  /** Which block that is, for each of the two policies. */
  lemma PicksAre(f: seq<Block>, n: int, i: int)
    ensures MemPick(f, n, true, i) || StkPick(f, n, true, i) ==>
              0 <= i < |f| && f[i].len >= n && forall j :: 0 <= j < i ==> f[j].len < n
    ensures MemPick(f, n, false, i) ==>
              && 0 <= i < |f| && f[i].len >= n
              && forall j :: 0 <= j < |f| && f[j].len >= n ==> f[i].len < f[j].len || (f[i].len == f[j].len && i <= j)
    ensures StkPick(f, n, false, i) ==>
              && 0 <= i < |f| && f[i].len >= n
              && forall j :: 0 <= j < |f| && f[j].len >= n ==>
                   f[i].len < f[j].len || (f[i].len == f[j].len && if f[i].len == n then i <= j else j <= i)
  {
  }

  ghost predicate Enough(f: seq<Block>, n: int) { exists i :: 0 <= i < |f| && f[i].len >= n }

  // ---- Taking and giving back ------------------------------------------------------

  /** `n` bytes are cut off the low end of block `i`. */
  function TakeLow(f: seq<Block>, i: int, n: int): seq<Block>
    requires 0 <= i < |f|
  {
    if f[i].len == n then f[..i] + f[i + 1..] else f[i := Block(f[i].addr + n, f[i].len - n)]
  }

  /** `n` bytes are cut off the high end of block `i`. */
  function TakeHigh(f: seq<Block>, i: int, n: int): seq<Block>
    requires 0 <= i < |f|
  {
    if f[i].len == n then f[..i] + f[i + 1..] else f[i := Block(f[i].addr, f[i].len - n)]
  }

  /** The number of blocks below `addr`. */
  ghost predicate Below(f: seq<Block>, addr: int, k: int) {
    && 0 <= k <= |f|
    && (forall i :: 0 <= i < k ==> f[i].addr < addr)
    && (forall i :: k <= i < |f| ==> addr <= f[i].addr)
  }

  predicate JoinsPrev(f: seq<Block>, k: int, b: Block)
    requires 0 <= k <= |f|
  {
    k > 0 && f[k - 1].addr + f[k - 1].len == b.addr
  }

  /** `b` is put at place `k`, or added to the block below if they touch. */
  function Placed(f: seq<Block>, k: int, b: Block): seq<Block>
    requires 0 <= k <= |f|
  {
    if JoinsPrev(f, k, b) then f[k - 1 := Block(f[k - 1].addr, f[k - 1].len + b.len)] else f[..k] + [b] + f[k..]
  }

  /** Block `i` and the one above it become one if they touch. */
  function Joined(f: seq<Block>, i: int): seq<Block>
    requires 0 <= i < |f|
  {
    if i + 1 < |f| && f[i].addr + f[i].len == f[i + 1].addr then
      f[..i] + [Block(f[i].addr, f[i].len + f[i + 1].len)] + f[i + 2..]
    else
      f
  }

  function Given(f: seq<Block>, k: int, b: Block): seq<Block>
    requires 0 <= k <= |f|
  {
    Joined(Placed(f, k, b), if JoinsPrev(f, k, b) then k - 1 else k)
  }

  /** `b` lies between the blocks around place `k`. */
  predicate FitsAt(f: seq<Block>, k: int, b: Block) {
    && 0 <= k <= |f|
    && (k > 0 ==> f[k - 1].addr + f[k - 1].len <= b.addr)
    && (k < |f| ==> b.addr + b.len <= f[k].addr)
  }

  /** The place a search from either end finds for `addr`. */
  ghost predicate Splits(f: seq<Block>, addr: int, k: int) {
    && 0 <= k <= |f|
    && (forall i :: 0 <= i < k ==> f[i].addr <= addr)
    && (forall i :: k <= i < |f| ==> addr <= f[i].addr)
  }

  lemma FitsIsBelow(f: seq<Block>, lo: int, hi: int, k: int, b: Block)
    requires Wf(f, lo, hi) && FitsAt(f, k, b) && b.len > 0
    ensures Below(f, b.addr, k)
  {
    forall i | 0 <= i < |f|
      ensures if i < k then f[i].addr < b.addr else b.addr <= f[i].addr
    {
      if i < k - 1 { assert Gap(f, i, k - 1); }
      if i > k { assert Gap(f, k, i); }
    }
  }

  /** The two comparisons with the neighbours find every overlap. */
  lemma FitsIsApart(f: seq<Block>, lo: int, hi: int, k: int, b: Block)
    requires Wf(f, lo, hi) && Splits(f, b.addr, k) && b.len > 0
    ensures FitsAt(f, k, b) <==> forall i :: 0 <= i < |f| ==> Apart(f[i], b)
  {
    if FitsAt(f, k, b) {
      forall i | 0 <= i < |f|
        ensures Apart(f[i], b)
      {
        if i < k - 1 { assert Gap(f, i, k - 1); }
        if i > k { assert Gap(f, k, i); }
      }
    }
  }

  lemma PlacedInHeap(f: seq<Block>, lo: int, hi: int, k: int, b: Block)
    requires Wf(f, lo, hi) && Below(f, b.addr, k) && FitsAt(f, k, b) && InHeap([b], lo, hi)
    ensures InHeap(Placed(f, k, b), lo, hi)
  {
    assert lo <= [b][0].addr;
  }

  /** Where block `j` of the list was before `b` was placed in it. */
  function WasAt(f: seq<Block>, k: int, b: Block, j: int): int
    requires 0 <= k <= |f|
  {
    if JoinsPrev(f, k, b) || j < k then j else j - 1
  }

  /** There is a gap between blocks `i` and `j`, or they are block `m` and the next one and touch. */
  ghost predicate GapBut(g: seq<Block>, m: int, i: int, j: int) {
    Gap(g, i, j) || (i == m && j == m + 1 && 0 <= m && j < |g| && g[i].addr + g[i].len == g[j].addr)
  }

  lemma PlacedGap(f: seq<Block>, lo: int, hi: int, k: int, b: Block, i: int, j: int)
    requires Wf(f, lo, hi) && Below(f, b.addr, k) && FitsAt(f, k, b) && b.len > 0 && 0 <= i < j < |Placed(f, k, b)|
    ensures GapBut(Placed(f, k, b), if JoinsPrev(f, k, b) then k - 1 else k, i, j)
  {
    if JoinsPrev(f, k, b) {
      assert Gap(f, i, j);
      if j > k { assert Gap(f, k, j); }
    } else if i == k {
      if j - 1 > k { assert Gap(f, k, j - 1); }
    } else if j == k {
      if i < k - 1 { assert Gap(f, i, k - 1); }
    } else {
      assert Gap(f, WasAt(f, k, b, i), WasAt(f, k, b, j));
    }
  }

  /** Joining the one pair that touches leaves a gap everywhere. */
  lemma JoinedGap(g: seq<Block>, m: int, i: int, j: int)
    requires 0 <= m < |g| && 0 <= i < j < |Joined(g, m)|
    requires forall p, q :: 0 <= p < q < |g| ==> GapBut(g, m, p, q)
    ensures Gap(Joined(g, m), i, j)
  {
    if Joined(g, m) == g {
      assert GapBut(g, m, i, j);
    } else if j <= m {
      assert GapBut(g, m, i, j);
    } else if i < m {
      var q := j + 1;
      assert GapBut(g, m, i, q);
    } else {
      var p, q := i + 1, j + 1;
      assert GapBut(g, m, p, q);
    }
  }

  lemma GivenWf(f: seq<Block>, lo: int, hi: int, k: int, b: Block)
    requires Wf(f, lo, hi) && Below(f, b.addr, k) && FitsAt(f, k, b) && InHeap([b], lo, hi)
    ensures Wf(Given(f, k, b), lo, hi)
  {
    hide Placed, Joined, Gap, GapBut, FitsAt;
    assert lo <= [b][0].addr;
    PlacedInHeap(f, lo, hi, k, b);
    PlacedCount(f, k, b);
    var g, m := Placed(f, k, b), if JoinsPrev(f, k, b) then k - 1 else k;
    forall i, j | 0 <= i < j < |g|
      ensures GapBut(g, m, i, j)
    {
      PlacedGap(f, lo, hi, k, b, i, j);
    }
    forall i, j | 0 <= i < j < |Joined(g, m)|
      ensures Gap(Joined(g, m), i, j)
    {
      JoinedGap(g, m, i, j);
    }
    JoinedInHeap(g, lo, hi, m);
  }

  lemma PlacedCount(f: seq<Block>, k: int, b: Block)
    requires 0 <= k <= |f|
    ensures 0 <= (if JoinsPrev(f, k, b) then k - 1 else k) < |Placed(f, k, b)|
  {
  }

  lemma JoinedInHeap(g: seq<Block>, lo: int, hi: int, m: int)
    requires InHeap(g, lo, hi) && 0 <= m < |g|
    ensures InHeap(Joined(g, m), lo, hi)
  {
  }

  lemma PlacedFree(f: seq<Block>, k: int, b: Block, x: int)
    requires 0 <= k <= |f| && b.len >= 0 && (k > 0 ==> f[k - 1].len >= 0)
    ensures IsFree(Placed(f, k, b), x) <==> IsFree(f, x) || Holds(b, x)
  {
    var g := Placed(f, k, b);
    if IsFree(f, x) {
      var i :| 0 <= i < |f| && f[i].addr <= x < f[i].addr + f[i].len;
      var j := if JoinsPrev(f, k, b) || i < k then i else i + 1;
      assert g[j].addr <= x < g[j].addr + g[j].len;
    }
    if Holds(b, x) {
      var j := if JoinsPrev(f, k, b) then k - 1 else k;
      assert g[j].addr <= x < g[j].addr + g[j].len;
    }
    if IsFree(g, x) {
      var j :| 0 <= j < |g| && g[j].addr <= x < g[j].addr + g[j].len;
      if !Holds(b, x) {
        var i := if JoinsPrev(f, k, b) || j < k then j else j - 1;
        assert f[i].addr <= x < f[i].addr + f[i].len;
      }
    }
  }

  lemma JoinedFree(f: seq<Block>, i: int, x: int)
    requires 0 <= i < |f| && f[i].len >= 0 && (i + 1 < |f| ==> f[i + 1].len >= 0)
    ensures IsFree(Joined(f, i), x) <==> IsFree(f, x)
  {
    var g := Joined(f, i);
    if IsFree(f, x) {
      var j :| 0 <= j < |f| && f[j].addr <= x < f[j].addr + f[j].len;
      var j' := if g == f || j <= i then j else j - 1;
      assert g[j'].addr <= x < g[j'].addr + g[j'].len;
    }
    if IsFree(g, x) {
      var j :| 0 <= j < |g| && g[j].addr <= x < g[j].addr + g[j].len;
      if g == f || j < i {
        assert f[j].addr <= x < f[j].addr + f[j].len;
      } else if j > i {
        assert f[j + 1].addr <= x < f[j + 1].addr + f[j + 1].len;
      } else if x < f[i].addr + f[i].len {
        assert f[i].addr <= x < f[i].addr + f[i].len;
      } else {
        assert f[i + 1].addr <= x < f[i + 1].addr + f[i + 1].len;
      }
    }
  }

  /** An accepted free adds exactly the freed range to the free set. */
  lemma GivenFree(f: seq<Block>, lo: int, hi: int, k: int, b: Block, x: int)
    requires Wf(f, lo, hi) && Below(f, b.addr, k) && FitsAt(f, k, b) && InHeap([b], lo, hi)
    ensures IsFree(Given(f, k, b), x) <==> IsFree(f, x) || Holds(b, x)
  {
    PlacedInHeap(f, lo, hi, k, b);
    assert lo <= [b][0].addr;
    PlacedFree(f, k, b, x);
    var i := if JoinsPrev(f, k, b) then k - 1 else k;
    JoinedFree(Placed(f, k, b), i, x);
  }

  /** The range an allocation hands out. */
  function LowPart(f: seq<Block>, i: int, n: int): Block
    requires 0 <= i < |f|
  {
    Block(f[i].addr, n)
  }

  function HighPart(f: seq<Block>, i: int, n: int): Block
    requires 0 <= i < |f|
  {
    Block(f[i].addr + f[i].len - n, n)
  }

  /** A stack ends where the block ended, and other memory begins where it began. */
  lemma PartsAre(f: seq<Block>, i: int, n: int)
    requires 0 <= i < |f|
    ensures LowPart(f, i, n).addr == f[i].addr && End(HighPart(f, i, n)) == End(f[i])
    ensures LowPart(f, i, n).len == n == HighPart(f, i, n).len
  {
  }

  lemma CutWf(f: seq<Block>, lo: int, hi: int, i: int, b: Block)
    requires Wf(f, lo, hi) && 0 <= i < |f| && InHeap([b], lo, hi) && f[i].addr <= b.addr && End(b) <= End(f[i])
    ensures Wf(f[i := b], lo, hi)
  {
    assert lo <= [b][0].addr;
    var g := f[i := b];
    forall p, q | 0 <= p < q < |g|
      ensures Gap(g, p, q)
    {
      assert Gap(f, p, q);
    }
  }

  lemma DroppedWf(f: seq<Block>, lo: int, hi: int, i: int)
    requires Wf(f, lo, hi) && 0 <= i < |f|
    ensures Wf(f[..i] + f[i + 1..], lo, hi)
  {
    var g := f[..i] + f[i + 1..];
    forall p, q | 0 <= p < q < |g|
      ensures Gap(g, p, q)
    {
      assert Gap(f, if p < i then p else p + 1, if q < i then q else q + 1);
    }
  }

  lemma TakenWf(f: seq<Block>, lo: int, hi: int, i: int, n: int)
    requires Wf(f, lo, hi) && 0 <= i < |f| && 0 <= n <= f[i].len && n % MIN_BLOCKSIZE == 0
    ensures Wf(TakeLow(f, i, n), lo, hi) && Wf(TakeHigh(f, i, n), lo, hi)
  {
    if f[i].len == n {
      DroppedWf(f, lo, hi, i);
    } else {
      CutWf(f, lo, hi, i, Block(f[i].addr + n, f[i].len - n));
      CutWf(f, lo, hi, i, Block(f[i].addr, f[i].len - n));
    }
  }

  /** Byte `x` is free in `f` if and only if it is free in `f` with block `i` cut down, or was cut off. */
  lemma CutFree(f: seq<Block>, lo: int, hi: int, i: int, b: Block, x: int)
    requires Wf(f, lo, hi) && 0 <= i < |f| && f[i].addr <= b.addr && End(b) <= End(f[i])
    ensures IsFree(f[i := b], x) <==> IsFree(f, x) && (Holds(f[i], x) ==> Holds(b, x))
  {
    var g := f[i := b];
    if IsFree(g, x) {
      var j :| 0 <= j < |g| && g[j].addr <= x < g[j].addr + g[j].len;
      assert f[j].addr <= x < f[j].addr + f[j].len;
      if j < i { assert Gap(f, j, i); } else if i < j { assert Gap(f, i, j); }
    }
    if IsFree(f, x) && (Holds(f[i], x) ==> Holds(b, x)) {
      var j :| 0 <= j < |f| && f[j].addr <= x < f[j].addr + f[j].len;
      assert g[j].addr <= x < g[j].addr + g[j].len;
    }
  }

  lemma DroppedFree(f: seq<Block>, lo: int, hi: int, i: int, x: int)
    requires Wf(f, lo, hi) && 0 <= i < |f|
    ensures IsFree(f[..i] + f[i + 1..], x) <==> IsFree(f, x) && !Holds(f[i], x)
  {
    var g := f[..i] + f[i + 1..];
    if IsFree(g, x) {
      var j :| 0 <= j < |g| && g[j].addr <= x < g[j].addr + g[j].len;
      var j' := if j < i then j else j + 1;
      assert f[j'].addr <= x < f[j'].addr + f[j'].len;
      if j' < i { assert Gap(f, j', i); } else { assert Gap(f, i, j'); }
    }
    if IsFree(f, x) && !Holds(f[i], x) {
      var j :| 0 <= j < |f| && f[j].addr <= x < f[j].addr + f[j].len;
      var j' := if j < i then j else j - 1;
      assert g[j'].addr <= x < g[j'].addr + g[j'].len;
    }
  }

  /** An allocation removes exactly the range it hands out, which was free. */
  lemma TakenFree(f: seq<Block>, lo: int, hi: int, i: int, n: int, x: int)
    requires Wf(f, lo, hi) && 0 <= i < |f| && 0 <= n <= f[i].len
    ensures IsFree(TakeLow(f, i, n), x) <==> IsFree(f, x) && !Holds(LowPart(f, i, n), x)
    ensures IsFree(TakeHigh(f, i, n), x) <==> IsFree(f, x) && !Holds(HighPart(f, i, n), x)
    ensures Holds(LowPart(f, i, n), x) || Holds(HighPart(f, i, n), x) ==> IsFree(f, x)
  {
    if f[i].len == n {
      DroppedFree(f, lo, hi, i, x);
    } else {
      CutFree(f, lo, hi, i, Block(f[i].addr + n, f[i].len - n), x);
      CutFree(f, lo, hi, i, Block(f[i].addr, f[i].len - n), x);
    }
  }

  // ---- The free set determines the list --------------------------------------------

  ghost predicate SameFree(f: seq<Block>, g: seq<Block>) {
    forall x :: IsFree(f, x) <==> IsFree(g, x)
  }

  /** The first free byte is the start of the first block. */
  lemma StartsTogether(f: seq<Block>, g: seq<Block>, lo: int, hi: int)
    requires Wf(f, lo, hi) && Wf(g, lo, hi) && SameFree(f, g) && f != []
    ensures g != [] && f[0].addr >= g[0].addr
  {
    var x := f[0].addr;
    assert f[0].addr <= x < f[0].addr + f[0].len;
    assert IsFree(f, x) && IsFree(g, x);
    var j :| 0 <= j < |g| && g[j].addr <= x < g[j].addr + g[j].len;
    assert j > 0 ==> Gap(g, 0, j);
  }

  /** Where the first block ends nothing is free. */
  lemma FirstGap(f: seq<Block>, lo: int, hi: int)
    requires Wf(f, lo, hi) && f != []
    ensures !IsFree(f, f[0].addr + f[0].len)
  {
    forall j | 0 <= j < |f|
      ensures !Holds(f[j], f[0].addr + f[0].len)
    {
      if j > 0 { assert Gap(f, 0, j); }
    }
  }

  lemma FirstHeld(f: seq<Block>, x: int)
    requires f != []
    ensures Holds(f[0], x) ==> IsFree(f, x)
  {
    if Holds(f[0], x) { assert f[0].addr <= x < f[0].addr + f[0].len; }
  }

  lemma EndsTogether(f: seq<Block>, g: seq<Block>, lo: int, hi: int)
    requires Wf(f, lo, hi) && Wf(g, lo, hi) && SameFree(f, g) && f != [] && g != [] && f[0].addr == g[0].addr
    ensures f[0].len >= g[0].len
  {
    FirstGap(f, lo, hi);
    FirstHeld(g, f[0].addr + f[0].len);
  }

  lemma TailFree(f: seq<Block>, lo: int, hi: int, x: int)
    requires Wf(f, lo, hi) && f != []
    ensures IsFree(f[1..], x) <==> IsFree(f, x) && x >= f[0].addr + f[0].len
  {
    if IsFree(f[1..], x) {
      var j :| 0 <= j < |f[1..]| && f[1..][j].addr <= x < f[1..][j].addr + f[1..][j].len;
      assert Gap(f, 0, j + 1);
      assert f[j + 1].addr <= x < f[j + 1].addr + f[j + 1].len;
    }
    if IsFree(f, x) && x >= f[0].addr + f[0].len {
      var j :| 0 <= j < |f| && f[j].addr <= x < f[j].addr + f[j].len;
      assert f[1..][j - 1].addr <= x < f[1..][j - 1].addr + f[1..][j - 1].len;
    }
  }

  lemma TailWf(f: seq<Block>, lo: int, hi: int)
    requires Wf(f, lo, hi) && f != []
    ensures Wf(f[1..], lo, hi)
  {
    DroppedWf(f, lo, hi, 0);
    assert f[..0] + f[0 + 1..] == f[1..];
  }

  /** Two coalesced lists with the same free bytes are the same list. */
  lemma {:induction false} Canonical(f: seq<Block>, g: seq<Block>, lo: int, hi: int)
    requires Wf(f, lo, hi) && Wf(g, lo, hi) && SameFree(f, g)
    ensures f == g
    decreases |f|
  {
    if f == [] {
      if g != [] { StartsTogether(g, f, lo, hi); }
    } else {
      StartsTogether(f, g, lo, hi);
      StartsTogether(g, f, lo, hi);
      EndsTogether(f, g, lo, hi);
      EndsTogether(g, f, lo, hi);
      forall x
        ensures IsFree(f[1..], x) <==> IsFree(g[1..], x)
      {
        TailFree(f, lo, hi, x);
        TailFree(g, lo, hi, x);
      }
      TailWf(f, lo, hi);
      TailWf(g, lo, hi);
      Canonical(f[1..], g[1..], lo, hi);
      assert f == [f[0]] + f[1..] && g == [g[0]] + g[1..];
    }
  }

  // ---- The total -------------------------------------------------------------------

  function Total(f: seq<Block>): int {
    if f == [] then 0 else f[0].len + Total(f[1..])
  }

  lemma {:induction false} TotalSplit(f: seq<Block>, g: seq<Block>)
    ensures Total(f + g) == Total(f) + Total(g)
  {
    if f == [] {
      assert f + g == g;
    } else {
      assert (f + g)[1..] == f[1..] + g;
      TotalSplit(f[1..], g);
    }
  }

  lemma TotalAt(f: seq<Block>, i: int)
    requires 0 <= i < |f|
    ensures Total(f) == Total(f[..i]) + f[i].len + Total(f[i + 1..])
  {
    assert f == f[..i] + f[i..];
    TotalSplit(f[..i], f[i..]);
    assert f[i..][0] == f[i] && f[i..][1..] == f[i + 1..];
  }

  lemma TotalUpdate(f: seq<Block>, i: int, b: Block)
    requires 0 <= i < |f|
    ensures Total(f[i := b]) == Total(f) - f[i].len + b.len
  {
    hide Total;
    TotalAt(f, i);
    TotalAt(f[i := b], i);
    assert f[i := b][..i] == f[..i] && f[i := b][i + 1..] == f[i + 1..];
  }

  lemma TotalTaken(f: seq<Block>, i: int, n: int)
    requires 0 <= i < |f|
    ensures Total(TakeLow(f, i, n)) == Total(f) - n && Total(TakeHigh(f, i, n)) == Total(f) - n
  {
    hide Total;
    TotalAt(f, i);
    TotalSplit(f[..i], f[i + 1..]);
    TotalUpdate(f, i, Block(f[i].addr + n, f[i].len - n));
    TotalUpdate(f, i, Block(f[i].addr, f[i].len - n));
  }

  lemma TotalPlaced(f: seq<Block>, k: int, b: Block)
    requires 0 <= k <= |f|
    ensures Total(Placed(f, k, b)) == Total(f) + b.len
  {
    hide Total;
    if JoinsPrev(f, k, b) {
      TotalUpdate(f, k - 1, Block(f[k - 1].addr, f[k - 1].len + b.len));
    } else {
      assert f == f[..k] + f[k..];
      TotalSplit(f[..k], f[k..]);
      TotalInserted(f[..k], b, f[k..]);
    }
  }

  lemma TotalInserted(f: seq<Block>, b: Block, g: seq<Block>)
    ensures Total(f + [b] + g) == Total(f) + b.len + Total(g)
  {
    TotalSplit(f + [b], g);
    TotalSplit(f, [b]);
    assert [b][1..] == [];
    assert Total([b]) == b.len + Total([]);
  }

  lemma TotalJoined(f: seq<Block>, i: int)
    requires 0 <= i < |f|
    ensures Total(Joined(f, i)) == Total(f)
  {
    var g := Joined(f, i);
    if g != f {
      TotalAt(f, i);
      TotalAt(f[i + 1..], 0);
      TotalAt(g, i);
      assert f[i + 1..][1..] == f[i + 2..] && f[i + 1..][..0] == [];
      assert g[..i] == f[..i] && g[i + 1..] == f[i + 2..];
    }
  }

  /** A free adds its length to the total. */
  lemma TotalGiven(f: seq<Block>, k: int, b: Block)
    requires 0 <= k <= |f|
    ensures Total(Given(f, k, b)) == Total(f) + b.len
  {
    TotalPlaced(f, k, b);
    TotalJoined(Placed(f, k, b), if JoinsPrev(f, k, b) then k - 1 else k);
  }
}
